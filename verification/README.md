# Open WebUI data layer: verified model

This project models the backend's data layer in Dafny and proves what its operations keep, over every
input and every run. Tables are maps, a commit is one step, and the ids that `uuid4` mints and the times
read from a clock are parameters.

| module | what it models |
|---|---|
| `Forest` | parent-pointer graphs: walks, acyclicity, subtrees, root paths |
| `Knowledge` | knowledge-base directories and files: a mutable forest under foreign keys |
| `ChatRows`, `Chats` | chat messages in the JSON blob and in `chat_message` rows: dual writes, map rebuild, self-healing, reconciliation |
| `ChatHistory` | the chat endpoint's message tree |
| `LegacyAccess`, `AccessGrants` | access grants, their legacy format and the four permission queries |
| `Glob` | compilation of file globs to LIKE patterns |
| `Automations` | claiming of due automations by concurrent workers |
| `Tasks` | the task registry, local and in Redis |
| `ConfigTree` | the configuration blob and its table |
| `Folders` | recursive folder listing, deletion and search |
| `Histograms` | evaluation history and hourly usage buckets |
| `Channels` | channel membership and the direct-message lookup |
| `Options`, `Seqs`, `Sets`, `Json` | shared vocabulary |

Operations that change state are methods of classes over their tables. Where the source promises something
of whole runs, each method is proved to take a step of a transition system on values (`Apply` in `Knowledge`,
`Chats`, `AccessGrants`, `Automations`, `Tasks` and `Folders`, `Next` in `Channels`, `Write` in `ConfigTree`),
and the run theorems are lemmas about that system. Listings, searches and histograms are proved against their
results directly.

## Assumptions

- Foreign keys are enforced as the schema declares them (`knowledge.py:63-64`, `100-102`). SQLite enforces
  them only when a connection asks for it.
- A new directory id is non-empty, unused, and not the parent its caller chose. New row ids are unused.
- All chat ids have one length, as UUIDs do. `ChatRows.CompositeCollidesIff` says what happens otherwise.
- Claim times do not lie ahead of the clock and the clock does not run backwards. `next_run_ns` yields no run
  or one later than the clock when it is computed; a claim computes it after selecting its rows, an update or
  toggle at some earlier time than it writes it.
- Listing, deleting and searching folders start from acyclic folders; on a cycle the source recurses until
  Python stops it. `Folders.RunStaysAcyclicIff` says which runs lead there.
- `group_member.group_id` refers to an existing group (for `AccessGrants.ListingAgrees`).

## Where a property fails

Each comes with the exact condition, over all inputs, under which the code has the property; the lemmas named
after a condition are inputs on which it fails.

- `_has_read_only_permission_filter` is documented as "read access BUT NOT write access"
  (`access_grants.py:775-776`). It ignores public write grants: `ReadOnlyAgreesIff`, `ReadOnlyKeepsWritableDocument`.
- `has_permission_filter` stands for the single check inside a query, except without a user id: `FilterAgreesIff`,
  `UnfilteredKeepsPrivate`.
- `claim_due` is documented as never double-claiming (`automations.py:260-263`). That rests on row locks that only
  one dialect takes, and on no update or toggle writing back a next run computed before a claim:
  `NeverClaimedTwice` and `WriteIsSafeIff`, with `ClaimedTwiceWithoutLocks` and `StaleUpdateClaimsTwice`.
- Reconciliation is documented as syncing rows with the blob (`chats.py:518-523`). A column whose key a message no
  longer has keeps its old value, and a message without a role keeps whatever row it had: `SyncedIff`,
  `SaveKeepsAgreementIff`, `StaleColumnSurvives`. A save without messages is not reconciled at all: `RunTracksIff`,
  `EmptySaveOrphansRows`.
- Files are searched by "a glob/fnmatch pattern" (`files.py:267`). A character class is taken literally:
  `SearchIsFnmatchIff`, `BracketsAreLiteral`.
- The chat endpoint merges what a request carries over what is stored under the same ids, without looking at it. A
  re-sent user message must bring a complete child list and a possible parent, and an answer that is continued must
  have no children of its own: `FollowUpKeepsTreeIff`, `StaleResendBreaksTree`, `ContinueDropsReply`.
- `move_file_to_directory` is documented as staying "within the same KB" (`knowledge.py:1050`). No constraint asks
  for it, and creating or moving a directory is not checked either: `RunStaysHomedIff`, `CreateCrossesBases`.
- A folder's parent can be set to one of its own descendants: `RunStaysAcyclicIff`, `FolderUnderItself`.
- The evaluation history covers "the past N days" (`feedbacks.py:316`), but its cutoff counts days of 24 hours:
  `WindowConservesIff`, `FixedOffsetConserves`, `LongDayLosesFeedback`.
- Converting a legacy value twice is not always converting it once: `SecondTripStableIff`, `SecondTripDiffers`.
- A reload reads back what was persisted only if both hit the same row: `ReloadIff`, `ReloadMissesFirstRow`.

## Model

| member | source | states |
|---|---|---|
| `Forest.RelinkAcyclicIff` | upstream/backend/open_webui/models/knowledge.py:935-946 | Linking a node under q keeps an acyclic graph acyclic if and only if q is neither the node nor below it. |
| `Forest.WalkExhausted` | upstream/backend/open_webui/models/knowledge.py:936-946 | On any graph, cyclic or not, a parent walk that has ended or reached a seen node without meeting its target never meets it: the `seen` set loses nothing. |
| `Forest.RootPathIsChain` | upstream/backend/open_webui/models/knowledge.py:886-904 | The path to a directory starts at a parentless one, and every later entry is a child of the one before. |
| `Forest.EndedWalkIsRootPath` | upstream/backend/open_webui/models/knowledge.py:891-904 | In a forest, a walk up that has just ended lists the whole root path backwards. |
| `Knowledge.RunKeepsValid` | upstream/backend/open_webui/models/knowledge.py:794-820 | Any run of create, rename, move, delete, add-file and move-file steps keeps the directories an acyclic graph with every parent present, every file in an existing directory, and both uniqueness constraints. |
| `Knowledge.RunStaysHomedIff` | upstream/backend/open_webui/models/knowledge.py:1043-1062 | Over any run every parent and every file's directory stays in its own knowledge base if and only if every accepted create, move and add-file step names a place of that base; deletes and renames never break it. |
| `Knowledge.CreateCrossesBases` | upstream/backend/open_webui/models/knowledge.py:794-820 | A directory of one base created under a directory of another is accepted. |
| `Knowledge.AcceptedIff` | upstream/backend/open_webui/models/knowledge.py:794-954 | On valid tables a step is refused exactly when the row it names is missing, or exists already, or when what it writes would leave a dangling reference, a cycle or two rows the schema declares unique. |
| `Knowledge.DirectoryStepMeans` | upstream/backend/open_webui/models/knowledge.py:906-954 | An accepted create, rename or move of a directory writes that one row, of an existing one only the name or the parent and the update time, and no file. |
| `Knowledge.AddFileMeans` | upstream/backend/open_webui/models/knowledge.py:646-677 | An accepted add writes one link under an unused id; no other link and no directory changes. |
| `Knowledge.MoveFileMeans` | upstream/backend/open_webui/models/knowledge.py:1043-1062 | An accepted file move gives the link of that base and file, which is the only one, the directory and the update time; every other link, and everything else, is as it was. |
| `Knowledge.CycleTestIsExact` | upstream/backend/open_webui/models/knowledge.py:934-946 | A move is refused by the cycle test exactly when the relinked graph would no longer be a forest. |
| `Knowledge.MoveRewritesBreadcrumbs` | upstream/backend/open_webui/models/knowledge.py:923-954 | After an accepted move the path of every directory in the moved subtree is the new parent's path followed by its old path from the moved directory down; every other path is unchanged. |
| `Knowledge.DeleteRehomes` | upstream/backend/open_webui/models/knowledge.py:975-1013 | With move_files_to_parent exactly the subtree's directories go, no file is lost or duplicated, exactly the subtree's files get the deleted directory's parent, which survives, and all else is unchanged. |
| `Knowledge.DeleteDrops` | upstream/backend/open_webui/models/knowledge.py:1002-1009 | Without it exactly the files whose directory is gone are deleted; the others are unchanged. |
| `Knowledge.DeleteKeepsBreadcrumbs` | upstream/backend/open_webui/models/knowledge.py:975-1013 | Directories that survive a delete keep their breadcrumbs. |
| `Knowledge.NothingLeftToNull` | upstream/backend/open_webui/models/knowledge.py:991-1009 | When the row delete cascades, no file still points into the subtree, so SET NULL changes nothing. |
| `Knowledge.KnowledgeTable.CreateDirectory` | upstream/backend/open_webui/models/knowledge.py:794-820 | Takes the create step, accepted exactly when the tables admit the row, and returns the row or None accordingly. |
| `Knowledge.KnowledgeTable.GetDirectoryBreadcrumbs` | upstream/backend/open_webui/models/knowledge.py:880-904 | Ends on any graph with distinct, parent-linked rows; on valid tables returns exactly the root path. |
| `Knowledge.KnowledgeTable.MeetsOnTheWayUp` | upstream/backend/open_webui/models/knowledge.py:934-946 | The `seen`-guarded walk answers true if and only if the target is an ancestor-or-self, on any graph. |
| `Knowledge.KnowledgeTable.RenameDirectory` | upstream/backend/open_webui/models/knowledge.py:906-921 | Takes the rename step, which writes one name, and returns the renamed row or None; the tables stay valid. |
| `Knowledge.KnowledgeTable.MoveDirectory` | upstream/backend/open_webui/models/knowledge.py:923-954 | Refines the move step: refused on a cycle, a missing row, a missing parent or a name clash, otherwise exactly one row changes. |
| `Knowledge.KnowledgeTable.MoveFilesFromSubtree` | upstream/backend/open_webui/models/knowledge.py:1015-1029 | The per-child recursion re-homes exactly the files strictly below the directory; it terminates because a child's subtree is smaller. |
| `Knowledge.KnowledgeTable.DeleteFilesInSubtree` | upstream/backend/open_webui/models/knowledge.py:1031-1041 | The recursion deletes exactly the files of the whole subtree. |
| `Knowledge.KnowledgeTable.DeleteRowCascading` | upstream/backend/open_webui/models/knowledge.py:63-64 | ON DELETE CASCADE on parent_id, run to its end, removes exactly the subtree; SET NULL then applies to files left in it. |
| `Knowledge.KnowledgeTable.DeleteDirectory` | upstream/backend/open_webui/models/knowledge.py:975-1013 | Refines the delete step in both modes; the tables stay valid. |
| `Knowledge.KnowledgeTable.AddFileToKnowledge` | upstream/backend/open_webui/models/knowledge.py:646-677 | Takes the add-file step and returns the link or None; the tables stay valid. |
| `Knowledge.KnowledgeTable.MoveFileToDirectory` | upstream/backend/open_webui/models/knowledge.py:1043-1062 | Takes the move-file step and reports whether it was accepted: refused only when a matching file would get a missing directory; no other file moves, by `MoveFileMeans`. |
| `ChatRows.UpdateIsProjection` | upstream/backend/open_webui/models/chat_messages.py:172-196 | Updating a row with a message that kept all its earlier keys gives the same columns as inserting that message afresh. |
| `ChatRows.UpsertAgrees` | upstream/backend/open_webui/models/chat_messages.py:154-232 | After an upsert the row agrees with the message on every tracked key it carries; an existing row keeps its chat, user and creation time, a new one gets them from the call and the message; no other row changes. |
| `ChatRows.UpsertMergesUsage` | upstream/backend/open_webui/models/chat_messages.py:197-203 | After an upsert whose message reports usage, directly or under info, the row has every reported entry, keeps the stored entries not reported, and has the three standard counts derived from the report; a message that reports none leaves the usage alone. |
| `ChatRows.NormalizedIsStandardised` | upstream/backend/open_webui/utils/response.py:12-50 | Normalising keeps every entry but the standard counts: input and output are the first count set among their four names, or 0, and the total is the one given or their sum. |
| `ChatRows.CompositeCollidesIff` | upstream/backend/open_webui/models/chat_messages.py:167-168 | Two messages of different chats share a row key exactly when one chat id continues the other past a dash. |
| `ChatRows.SameLengthInjective` | upstream/backend/open_webui/models/chat_messages.py:167-168 | Chat ids of equal length never collide. |
| `ChatRows.MessageIdRecovers` | upstream/backend/open_webui/models/chat_messages.py:274-281 | Stripping the chat prefix recovers exactly the original message id. |
| `ChatRows.RowMessageRoundTrip` | upstream/backend/open_webui/models/chat_messages.py:283-298 | Projecting a rebuilt message gives back the row, up to the defaults for a NULL role, content and done. |
| `ChatRows.RowMessageCarries` | upstream/backend/open_webui/models/chat_messages.py:282-298 | A rebuilt message carries its id, the row's creation time as timestamp, and the row's usage both directly and under info, or neither. |
| `ChatRows.ChildListsCountResolved` | upstream/backend/open_webui/models/chat_messages.py:300-311 | Child-list lengths add up to the number of messages whose parent is in the map. |
| `ChatRows.ChildListsInvertParents` | upstream/backend/open_webui/models/chat_messages.py:300-311 | Child lists repeat nothing and are the exact inverse of the resolved parent links. |
| `ChatRows.BuildMessagesMap` | upstream/backend/open_webui/models/chat_messages.py:257-318 | Every row's message under its recovered id, with its children in row order. |
| `Chats.RunKeepsAgreement` | upstream/backend/open_webui/models/chats.py:595-633 | Over any run of chat inserts, message upserts, map reads and lossless full saves, every row is the projection of its blob message on all eleven tracked columns. |
| `Chats.RunAgreesIff` | upstream/backend/open_webui/models/chats.py:517-533 | With full saves in the run, rows and blob agree throughout if and only if every save is lossless: no message drops a key whose column was not at its default, none without a role changes, and no chat with rows is emptied. |
| `Chats.RunTracksIff` | upstream/backend/open_webui/routers/chats.py:986-993 | Over any run of inserts, upserts, reads and full saves, every row has a blob message and agrees with it on every key it carries, when it bears a role, if and only if no save empties a chat that has rows. |
| `Chats.RunKeepsUsage` | upstream/backend/open_webui/models/chat_messages.py:197-203 | A run loses a row, or a usage key of one, only by a full save that no longer has its message. |
| `Chats.RunKeepsRowIff` | upstream/backend/open_webui/models/chats.py:517-533 | Over any run a row stays throughout if and only if no full save with messages lacks its message. |
| `Chats.UpsertMeans` | upstream/backend/open_webui/models/chats.py:610-629 | An upsert writes the message's keys over the stored message's, keeps its other keys, makes it current, and leaves its row, the owner's, agreeing with the result; no other message, chat or row changes. |
| `Chats.HealingAdds` | upstream/backend/open_webui/models/chats.py:551-573 | A map read never changes an existing row and adds one for exactly the role-bearing messages without rows that a row of the chat names as parent, or for all of them when the chat has no rows: the owner's, and the projection of the message. |
| `Chats.HealingResolvesParents` | upstream/backend/open_webui/models/chats.py:561-571 | Every missing parent that the blob has, with a role, gets its row in one read. |
| `Chats.HealingShrinks` | upstream/backend/open_webui/models/chats.py:561-584 | A read that adds anything strictly decreases the number of role-bearing blob messages without rows. |
| `Chats.HealedIff` | upstream/backend/open_webui/models/chats.py:551-584 | A read adds nothing if and only if no message it is missing bears a role. |
| `Chats.HealingConverges` | upstream/backend/open_webui/models/chats.py:535-586 | After as many reads as there were uncovered messages, at whatever times, no read changes anything, and every parent still unresolved is absent from the blob or has no role there. |
| `Chats.ReconcileMeans` | upstream/backend/open_webui/models/chats.py:517-533 | After reconciling, a chat has rows for blob messages only and for every role-bearing one, agreeing with it on every key it carries and keeping its user and creation time; a message without a role keeps the row it had. |
| `Chats.SyncedIff` | upstream/backend/open_webui/models/chats.py:517-533 | Reconciling makes a message's row its projection if and only if, for a role-bearing message, every column it does not carry was at its default in the row it had, if any; or, for any other message, that row already was the projection. |
| `Chats.SaveKeepsAgreementIff` | upstream/backend/open_webui/routers/chats.py:986-993 | A full save keeps every row a projection if and only if it is lossless. |
| `Chats.StaleColumnSurvives` | upstream/backend/open_webui/models/chat_messages.py:172-196 | A message that loses its sources keeps them in its row. |
| `Chats.EmptySaveOrphansRows` | upstream/backend/open_webui/routers/chats.py:986-993 | A save without messages leaves the rows of a chat behind. |
| `Chats.ReconcileKeepsOthers` | upstream/backend/open_webui/models/chats.py:517-533 | Reconciling one chat leaves other chats' rows alone. |
| `Chats.GapsAreUnresolved` | upstream/backend/open_webui/models/chats.py:488-498 | The gaps seen in the rebuilt map are exactly the parents that rows name and that have no row. |
| `Chats.ChatStore.InsertNewChat` | upstream/backend/open_webui/models/chats.py:297-338 | Refines the insert step; an existing id changes nothing. |
| `Chats.ChatStore.UpsertMessageToChat` | upstream/backend/open_webui/models/chats.py:595-633 | Takes the upsert step, whose meaning `UpsertMeans` and `UpsertMergesUsage` fix; reports whether the chat exists. |
| `Chats.ChatStore.BackfillMessages` | upstream/backend/open_webui/models/chats.py:500-515 | The loop upserts exactly the role-bearing messages of the batch. |
| `Chats.ChatStore.DeleteMessageIds` | upstream/backend/open_webui/models/chat_messages.py:397-413 | Though it deletes by composite key, what goes is exactly the chat's rows whose recovered message id is among the given ones; all other rows are unchanged. |
| `Chats.ChatStore.ReconcileMessages` | upstream/backend/open_webui/models/chats.py:517-533 | Backfill, rebuild of existing ids and orphan deletion together give the reconciled rows. |
| `Chats.ChatStore.SaveChat` | upstream/backend/open_webui/routers/chats.py:986-993 | Refines the save step: the messages are replaced and, unless there are none, the rows reconciled; keys stay well-formed. |
| `Chats.ChatStore.GetMessagesMap` | upstream/backend/open_webui/models/chats.py:535-586 | Returns every row's message rebuilt with exactly its children, and from the blob, unchanged, those that rows name as parents, or all when there are no rows; None only for no chat. Leaves the rows healed. |
| `ChatHistory.NewChatIsTreeIff` | upstream/backend/open_webui/main.py:1852-1900 | Whatever the first request brings, the new chat's history is a forest in which c is listed under p exactly when c's parent is p, lists repeat nothing and currentId names a stored message, if and only if the answers of a user message are distinct and the message hangs neither under itself nor under one of them. |
| `ChatHistory.FollowUpKeepsTreeIff` | upstream/backend/open_webui/main.py:1936-2010 | Whatever ids a follow-up brings, fresh or stored, the history stays such a tree if and only if: nobody else is stored under one of its answers; no other message lists one of them or, after a change of parent, the user message; the parent lies outside the user message's subtree and the answers; and the list the user message ends up with repeats nothing and names, answers apart, exactly its children. |
| `ChatHistory.ConversationKeepsTreeIff` | upstream/backend/open_webui/main.py:1852-2010 | A conversation, any first request and any follow-ups, keeps the tree throughout if and only if every request meets that condition. |
| `ChatHistory.ResendKeepsTreeIff` | upstream/backend/open_webui/main.py:1976-2010 | Sending a stored message again, to regenerate or to continue stored answers, with its own children and the new answers listed, keeps the tree if and only if none of the answers has children. |
| `ChatHistory.StaleResendBreaksTree` | upstream/backend/open_webui/main.py:1938-1944 | A re-sent message that does not list its stored answer drops that answer from the tree. |
| `ChatHistory.ContinueDropsReply` | upstream/backend/open_webui/main.py:1994-2010 | Continuing an answer that has a reply drops the reply from the tree. |
| `ChatHistory.NewChatMeans` | upstream/backend/open_webui/main.py:1852-1888 | A new chat holds the user message as sent, listing the answers' ids in order, and for every id the empty answer of the last assistant carrying it: its id, model, role, empty content, not done, time and parent, and nothing else; the first answer is current, or else the user message. |
| `ChatHistory.AssistantIdsPick` | upstream/backend/open_webui/main.py:1978 | The answers' ids are those of the entries that have one, in order. |
| `ChatHistory.FollowUpAnswers` | upstream/backend/open_webui/main.py:1994-2010 | After a follow-up every assistant with an id, a repeated id going to the last, has its empty answer under that id, with its model, under the user message. |
| `ChatHistory.FollowUpKeepsContents` | upstream/backend/open_webui/main.py:1936-2010 | Child lists apart, and apart from what makes an answer, every message says afterwards what it said, and the user message what was sent, over what it said. |
| `ChatHistory.FollowUpCurrent` | upstream/backend/open_webui/models/chats.py:618 | Afterwards the last answer is current; without answers the user message, or its parent when the link to it had to be written; without either nothing changes. |
| `ChatHistory.SaveNewChat` | upstream/backend/open_webui/main.py:1852-1900 | Building the history dict and inserting the chat is one insert step of the dual-written store, of the history that `NewChatMeans` describes. |
| `ChatHistory.SaveFollowUp` | upstream/backend/open_webui/main.py:1936-2010 | The endpoint's writes are a run of upserts into the one chat and leave its blob as FollowUp says, whose contents `FollowUpAnswers` and `FollowUpKeepsContents` fix. |
| `ChatHistory.UpsertsAgree` | upstream/backend/open_webui/main.py:1936-2010 | Such a run keeps every row the projection of its blob message. |
| `LegacyAccess.AccessControlToGrants` | upstream/backend/open_webui/models/access_grants.py:78-142 | The nested loops produce the grants of each list in order; None is public read except on files. |
| `LegacyAccess.GrantsToAccessControl` | upstream/backend/open_webui/models/access_grants.py:232-274 | The loop collects each (type, permission) list without repeats; a wildcard reader makes the result None. |
| `LegacyAccess.ToGrantsMeans` | upstream/backend/open_webui/models/access_grants.py:78-142 | The grants name exactly the users and groups that the legacy value lists, each with the permission it is listed for, on that resource; null names everybody as reader, except on a file. |
| `LegacyAccess.ToAccessControlMeans` | upstream/backend/open_webui/models/access_grants.py:232-274 | The legacy value of any grants is public exactly when one lets everybody read, and otherwise lists exactly the users and groups they name, for reading and for writing. |
| `LegacyAccess.RoundTrip` | upstream/backend/open_webui/models/access_grants.py:78-142 | To grants and back yields the original with its lists de-duplicated in order; empty structures become {}, a wildcard reader None, and None on a file {}. |
| `LegacyAccess.SecondTripStableIff` | upstream/backend/open_webui/models/access_grants.py:232-274 | A second conversion changes nothing, except exactly for a file with a wildcard reader. |
| `LegacyAccess.SecondTripDiffers` | upstream/backend/open_webui/models/access_grants.py:78-142 | A file with a wildcard reader converts to public and, converted again, to private. |
| `AccessGrants.NormalizeAccessGrants` | upstream/backend/open_webui/models/access_grants.py:145-181 | One entry for every slot, a known type and permission with a principal that is some text, that an element's fields spell out, with an id or without, and for no other; once, in order of first mention; under the id its last mention brings along, or else a fresh one. |
| `AccessGrants.NormalizeIsIdempotent` | upstream/backend/open_webui/models/access_grants.py:145-181 | Slots are unique and normalising again changes nothing, whatever fresh ids are supplied. |
| `AccessGrants.InsertedUniqueIff` | upstream/backend/open_webui/models/access_grants.py:415-433 | Replacing a resource's grants satisfies the uniqueness constraint exactly when the new keys repeat none. |
| `AccessGrants.ReplaceMeans` | upstream/backend/open_webui/models/access_grants.py:409-433 | Afterwards the resource holds exactly the new keys and every other resource exactly what it had. |
| `AccessGrants.GrantsNoDupIff` | upstream/backend/open_webui/models/access_grants.py:378-398 | The grants of a legacy dict repeat none exactly when none of its four lists does. |
| `AccessGrants.AccessGrantsTable.GrantAccess` | upstream/backend/open_webui/models/access_grants.py:283-320 | Idempotent: one row with the key afterwards, none other changed. |
| `AccessGrants.AccessGrantsTable.RevokeAccess` | upstream/backend/open_webui/models/access_grants.py:322-343 | Removes exactly that key and reports whether it was there. |
| `AccessGrants.AccessGrantsTable.RevokeAllAccess` | upstream/backend/open_webui/models/access_grants.py:345-360 | Removes exactly the resource's rows and counts them. |
| `AccessGrants.AccessGrantsTable.SetAccessControl` | upstream/backend/open_webui/models/access_grants.py:362-398 | Succeeds if and only if no legacy list repeats a principal, and then the resource has exactly the grants the legacy value gives; otherwise the transaction changes nothing. |
| `AccessGrants.AccessGrantsTable.SetAccessGrants` | upstream/backend/open_webui/models/access_grants.py:400-435 | Always succeeds: afterwards a key of the resource is granted if and only if some element of the payload spells it out, and every other resource has what it had. |
| `AccessGrants.RunKeepsGrants` | upstream/backend/open_webui/models/access_grants.py:283-435 | Any run of grants, revocations and replacements keeps the keys unique, and a key is granted afterwards exactly as the requests say, the last one about it or its resource deciding. |
| `AccessGrants.UsersWithAccess` | upstream/backend/open_webui/models/access_grants.py:613-656 | The collection loop lists exactly the users reached by a grant, or all non-pending ones when public. |
| `AccessGrants.BatchAgrees` | upstream/backend/open_webui/models/access_grants.py:557-611 | The batch check returns exactly the requested ids that pass the single check. |
| `AccessGrants.FilterAgreesIff` | upstream/backend/open_webui/models/access_grants.py:658-765 | For any user id and group ids a caller passes, the filter keeps a document if and only if its user owns it or passes the single check for those groups, except exactly: with neither, where it keeps everything, and without a user id, where a grant naming the empty id is not looked at. |
| `AccessGrants.UnfilteredKeepsPrivate` | upstream/backend/open_webui/models/access_grants.py:712-714 | Without a user or groups a document nobody was granted is kept. |
| `AccessGrants.AccessMeans` | upstream/backend/open_webui/models/access_grants.py:498-555 | The single check, with its conditional group clause, holds if and only if there is a public grant, one for the user, or one for a group: one of the groups the caller gives or, when none are given, an existing group the user is a member of. |
| `AccessGrants.ListingAgrees` | upstream/backend/open_webui/models/access_grants.py:613-656 | An existing user is listed if and only if the single check holds, except that pending users are left out of a public resource's listing. |
| `AccessGrants.FourAgree` | upstream/backend/open_webui/models/access_grants.py:497-765 | For an existing, non-pending user who does not own the document, the single check, the batch check, the query filter and the listing all say the same. |
| `AccessGrants.ReadOnlyAgreesIff` | upstream/backend/open_webui/models/access_grants.py:767-878 | For a signed-in user the read_only filter and "read but not write" agree on a document if and only if it has no public write grant, or is dropped by both for another reason: public, owned, not readable by name, or writable by name. |
| `AccessGrants.ReadOnlyKeepsWritableDocument` | upstream/backend/open_webui/models/access_grants.py:773-776 | A document the filter keeps although its user may write it. |
| `Glob.CompilePreservesMatching` | upstream/backend/open_webui/models/files.py:264-284 | For every glob, name and case folding, the compiled LIKE pattern matches exactly when the glob does. |
| `Glob.CompiledIsWellEscaped` | upstream/backend/open_webui/models/files.py:278-284 | Every escape in a compiled pattern is followed by a character that needs one. |
| `Glob.SkipsOnlyForStar` | upstream/backend/open_webui/models/files.py:313-315 | The filter is skipped exactly for the glob `*`. |
| `Glob.SearchKeepsExactlyMatches` | upstream/backend/open_webui/models/files.py:313-315 | With the skipped filter included, search keeps exactly the matching names. |
| `Glob.SearchIsFnmatchIff` | upstream/backend/open_webui/models/files.py:264-284 | Whatever character classes mean and for every case folding, search keeps exactly the names fnmatch accepts if and only if the pattern has no class, that is, no bracket that is closed. |
| `Glob.BracketsAreLiteral` | upstream/backend/open_webui/models/files.py:264-284 | `[ab]` misses a file named `a`. |
| `Automations.NeverClaimedTwice` | upstream/backend/open_webui/models/automations.py:256-299 | With row locks and SKIP LOCKED, in any interleaving of computations, claims, commits, rollbacks, inserts, updates, toggles and deletes in which no update or toggle writes back a slot its row was claimed for, no slot is claimed twice. |
| `Automations.WriteIsSafeIff` | upstream/backend/open_webui/models/automations.py:208-245 | In any state that a run without such writes can reach, an update or toggle makes a second claim of a slot possible if and only if it leaves an active row waiting for a slot it was claimed for. |
| `Automations.CurrentWriteNeverReuses` | upstream/backend/open_webui/models/automations.py:208-245 | A write whose next run is still ahead of the clock is always safe. |
| `Automations.StaleUpdateClaimsTwice` | upstream/backend/open_webui/routers/automations.py:224-225 | A next run computed before a claim and written after it lets the slot be claimed again, in a run with locks. |
| `Automations.OnlyDueRowsAreClaimed` | upstream/backend/open_webui/models/automations.py:265-273 | What a worker holds, at any point of any run with locks, stale writes included, is an active row whose next run is the slot it saw and had come when it polled. |
| `Automations.SelectMeans` | upstream/backend/open_webui/models/automations.py:265-279 | A selection takes active rows whose next run has come and, with locks, that nobody holds, each once, by next run, up to the limit; a row it leaves out comes no earlier and finds the limit reached. |
| `Automations.CommitMeans` | upstream/backend/open_webui/models/automations.py:293-299 | A commit stamps the rows its worker holds with the time polled for and their new next run, counts one claim for each, lets go of them and changes nothing else. |
| `Automations.WriteMeans` | upstream/backend/open_webui/models/automations.py:208-245 | A toggle turns over the active flag of its row alone and leaves a next run only to an active row; an update writes rule and next run, and the flag if the form brings one. |
| `Automations.ClaimedTwiceWithoutLocks` | upstream/backend/open_webui/models/automations.py:275-276 | On a dialect without row locks a run exists that claims one slot twice. |
| `Automations.AutomationTable.SelectDue` | upstream/backend/open_webui/models/automations.py:265-279 | Selects the earliest unlocked due rows, in order, up to the limit. |
| `Automations.AutomationTable.CommitClaims` | upstream/backend/open_webui/models/automations.py:293-299 | The loop advances exactly the selected rows and releases them. |
| `Automations.AutomationTable.ToggleById` | upstream/backend/open_webui/models/automations.py:230-245 | Takes the toggle step, whose meaning `WriteMeans` fixes, and reports whether the row exists. |
| `Automations.AutomationTable.UpdateById` | upstream/backend/open_webui/models/automations.py:208-228 | Takes the update step, whose meaning `WriteMeans` fixes, and reports whether the row exists. |
| `Tasks.RunKeepsValid` | upstream/backend/open_webui/tasks.py:88-124 | In every interleaving of create, cleanup and stop, item lists are non-empty, repeat nothing and hold exactly their item's uncleaned tasks. |
| `Tasks.ActiveExactly` | upstream/backend/open_webui/tasks.py:198-201 | Going by the steps alone, in every interleaving: a task is registered from its creation until it is first stopped or cleaned up; an item lists the tasks created for it and not cleaned up, and is active exactly while there is one, for ever when its id is absent or empty. |
| `Tasks.CleanupIdempotent` | upstream/backend/open_webui/tasks.py:88-101 | A second cleanup of a task changes nothing. |
| `Tasks.TaskRegistry.CreateTask` | upstream/backend/open_webui/tasks.py:104-124 | Refines the create step on the two dictionaries. |
| `Tasks.TaskRegistry.CleanupTask` | upstream/backend/open_webui/tasks.py:88-101 | Refines the cleanup step, dropping emptied lists. |
| `Tasks.TaskRegistry.StopTask` | upstream/backend/open_webui/tasks.py:165-167 | Pops the task and reports whether it was there; the item list waits for cleanup. |
| `Tasks.ExecuteKeepsAgreement` | upstream/backend/open_webui/tasks.py:49-67 | Save, cleanup and stop keep the Redis hash and the item sets saying the same thing. |
| `Tasks.RedisListsExactly` | upstream/backend/open_webui/tasks.py:49-67 | Going by the commands alone, in every run: the Redis hash has a task, under the item it was saved for, and that item's set has it, from its save until it is first stopped or cleaned up. |
| `Tasks.StoppedIsGone` | upstream/backend/open_webui/tasks.py:145-163 | However stops and cleanups interleave, a stopped task ends in neither the hash nor any set. |
| `Tasks.StopInTwoSteps` | upstream/backend/open_webui/tasks.py:145-163 | A stop's lookup and its cleanup may have any other commands between them, saves of other tasks included: the looked-up item is still right and the task is gone for good. |
| `Tasks.RedisTasks.SaveTask` | upstream/backend/open_webui/tasks.py:49-54 | Puts the task into the hash and, for a real item, into the item's set. |
| `Tasks.RedisTasks.CleanupTask` | upstream/backend/open_webui/tasks.py:57-67 | Takes the task out of the hash and the set, whose key goes with its last member. |
| `Tasks.RedisTasks.StopTask` | upstream/backend/open_webui/tasks.py:150-163 | Looks the item up before cleaning, so the set entry goes too. |
| `Tasks.RedisTasks.StopItemTasks` | upstream/backend/open_webui/tasks.py:182-195 | Clears every snapshot id from the hash and drops the item's set, and touches nothing else. |
| `ConfigTree.SplitIff` | upstream/backend/open_webui/internal/config.py:51-56 | The keys of a dotted path are the one list of strings without dots that, joined by dots, spells the path. |
| `ConfigTree.ReadAfterWrite` | upstream/backend/open_webui/internal/config.py:48-57 | At and below a written path one reads inside the written value. |
| `ConfigTree.ReadElsewhere` | upstream/backend/open_webui/internal/config.py:48-57 | Incomparable paths read as before. |
| `ConfigTree.ReadAbove` | upstream/backend/open_webui/internal/config.py:55-57 | Above it one reads the old dict with the rest of the path written in. |
| `ConfigTree.WritableIff` | upstream/backend/open_webui/internal/config.py:55-57 | A write goes through if and only if every proper prefix of its path holds a dict or nothing. |
| `ConfigTree.WriteKeepsWritable` | upstream/backend/open_webui/internal/config.py:55-57 | A write leaves its own path and every incomparable one writable. |
| `ConfigTree.CommitsHold` | upstream/backend/open_webui/internal/config.py:166-170 | Over a prefix-free registry every commit of any run succeeds and every path reads its last committed value. |
| `ConfigTree.ReloadIff` | upstream/backend/open_webui/internal/config.py:62-78 | Loading after persisting yields the data if and only if both hit the same row or the row load reads had it already. |
| `ConfigTree.ReloadMissesFirstRow` | upstream/backend/open_webui/internal/config.py:62-78 | With two rows, a persist that hits the first is lost on reload. |
| `ConfigTree.ConfigState.PersistAndReload` | upstream/backend/open_webui/internal/config.py:62-78 | A persist followed by a reload gives the tree back if and only if persist hit the row that load reads, as it must with at most one row, or that row held it already. |
| `ConfigTree.ConfigState.CommitVar` | upstream/backend/open_webui/internal/config.py:166-170 | Succeeds if and only if the path is writable; otherwise nothing changes. |
| `ConfigTree.ConfigState.CommitRunAndReload` | upstream/backend/open_webui/internal/config.py:62-78 | A whole run of commits followed by a reload: the persisted row reads the last value of every path, no other row changes, and memory is that row when it is the one load reads. |
| `Folders.SiblingsDisjoint` | upstream/backend/open_webui/models/folders.py:140-144 | Subtrees of different children share nothing, so no folder is visited twice. |
| `Folders.PrefixLeavesNoOrphan` | upstream/backend/open_webui/models/folders.py:301-311 | Deleting any prefix of a post-order leaves every remaining folder of the subtree its parent. |
| `Folders.FolderTable.GetChildren` | upstream/backend/open_webui/models/folders.py:133-154 | Lists every same-user descendant once, each after its own descendants. |
| `Folders.FolderTable.DeleteChildren` | upstream/backend/open_webui/models/folders.py:300-311 | Deletes and commits the descendants one by one in that order. |
| `Folders.FolderTable.DeleteFolder` | upstream/backend/open_webui/models/folders.py:287-318 | Returns the root id and then every descendant in post-order, deletes exactly the subtree, and no commit orphans a surviving member of it. |
| `Folders.FolderTable.SearchByNames` | upstream/backend/open_webui/models/folders.py:325-354 | Finds exactly the downward closure of the folders whose normalised name matches a query. |
| `Folders.FolderTable.UpdateParent` | upstream/backend/open_webui/models/folders.py:191-214 | Refines the parent change: exactly the user's folder of that id, wherever the new parent is. |
| `Folders.RunStaysAcyclicIff` | upstream/backend/open_webui/models/folders.py:191-214 | Over any run of inserts, parent changes and deletes every user's folders stay free of cycles if and only if no folder is put under itself or a descendant. |
| `Folders.FolderUnderItself` | upstream/backend/open_webui/models/folders.py:191-214 | A folder put under itself makes a cycle. |
| `Histograms.CutoffKeepsCount` | upstream/backend/open_webui/models/feedbacks.py:328-331 | For any local-day function, clock changes included, filtering changes no day's count when nothing in the window is older than the rolling cutoff. |
| `Histograms.WindowConservesIff` | upstream/backend/open_webui/models/feedbacks.py:328-331 | The window loses no feedback, for any feedbacks, if and only if the cutoff precedes everything the local-day function dates in it. |
| `Histograms.FixedOffsetConserves` | upstream/backend/open_webui/models/feedbacks.py:328-331 | At a fixed offset from UTC it always does, however much later the second clock reading is. |
| `Histograms.LongDayLosesFeedback` | upstream/backend/open_webui/models/feedbacks.py:328-331 | On a day of 25 hours it need not. |
| `Histograms.HistoryConserves` | upstream/backend/open_webui/models/feedbacks.py:369-374 | The totals of a history equal the feedbacks dated in the days it covers. |
| `Histograms.WindowTotals` | upstream/backend/open_webui/models/feedbacks.py:362-374 | For a positive number of days the totals equal the queried feedbacks of the last `days` days ending today, and all of them when the cutoff precedes the window. |
| `Histograms.Tally` | upstream/backend/open_webui/models/feedbacks.py:337-356 | Counts wins and losses per day and finds the first day with one. |
| `Histograms.EvaluationHistory` | upstream/backend/open_webui/models/feedbacks.py:312-376 | One entry per consecutive local day, each with that day's counts of the queried feedbacks; `days` of them ending today, or from the first counted day to today. |
| `Histograms.FillHours` | upstream/backend/open_webui/models/chat_messages.py:670-683 | Adds only empty buckets and covers every wall-clock hour from the normalised start to the normalised end, whatever the clock does; without both ends it adds nothing. |
| `Histograms.NormalizeMeans` | upstream/backend/open_webui/models/chat_messages.py:30-45 | Normalising yields a time between 2020 and a day from now: the instant given, in seconds or milliseconds, when it lies there, and otherwise now; doing it twice changes nothing. |
| `Channels.DmMatchesIff` | upstream/backend/open_webui/models/channels.py:440-458 | With one row per user the two counting conditions hold exactly for the channels whose member set is the non-empty requested set. |
| `Channels.DuplicateRowFoolsLookup` | upstream/backend/open_webui/models/channels.py:440-458 | Two rows for one user would pass for two users: the uniqueness is needed. |
| `Channels.RunKeepsMembers` | upstream/backend/open_webui/models/channels.py:275-377 | Any run of creations, invitations, joins and removals leaves one row per user and channel, and the members are exactly what the requests add up to. |
| `Channels.LookupAfterRun` | upstream/backend/open_webui/models/channels.py:432-458 | So after any run the counting lookup finds exactly the channels whose requested members are the given users. |
| `Channels.AddedMeans` | upstream/backend/open_webui/models/channels.py:297-331 | One new row per new user keeps one row per user and adds exactly those members. |
| `Channels.ChannelTable.InsertNewChannel` | upstream/backend/open_webui/models/channels.py:343-376 | A group or DM channel starts with the given users and its creator. |
| `Channels.ChannelTable.AddMembers` | upstream/backend/open_webui/models/channels.py:468-492 | Adds exactly the requested users and the inviter, never a second row for one. |
| `Channels.ChannelTable.JoinChannel` | upstream/backend/open_webui/models/channels.py:528-564 | Adds the user unless already a member. |
| `Channels.ChannelTable.RemoveMembers` | upstream/backend/open_webui/models/channels.py:494-508 | Removes exactly those members of that channel and counts the rows. |

## Left out

- Sessions, engines, SQL text, migrations and routing: only what a committed operation does to the rows is modelled.
- Null-byte cleaning is the identity, and exceptions the source swallows around a row write are taken not to occur; a message whose role is null would break the column's NOT NULL constraint.
- Blob messages that are not dicts, child lists that are not lists, and parents that are not strings.
- A read_only filter with neither a user nor groups, whose conditions are empty.
- JSON numbers with a fraction, and usage counts that are not numbers (`NormalizeUsage` reads them as 0).
- Chat titles, tags, folders and files; `add_message_status...` and `add_message_files...` write only the blob, so rows agree again at the next upsert.
- `import_chats`, which repeats the insert for a list of chats, and shared or archived chats.
- reset_knowledge_by_id and deletion of whole knowledge bases: bulk deletes without a walk.
- Two moves whose walk and update interleave: each knowledge operation is one atomic step.
- Automations.AutomationTable.ToggleById: the next run may be stale, but the row is read and written in one step; the source reads it before it locks it, so a lost update of the activity flag is not modelled.
- Automations.AutomationTable.UpdateById: the row is read and written in one step, and of what the form carries the rule and the activity flag are modelled, without name, prompt and meta.
- RRULE computation and time zones behind `next_run_ns`.
- Tasks.TaskRegistry.StopTask: cancellation and awaiting of the coroutine are left out; its callback is a later cleanup step.
- Tasks.StoppedIsGone: a stop's lookup and cleanup are one command there; `Tasks.StopInTwoSteps` separates them.
- Local `stop_item_tasks`: it iterates the live list that cleanup shrinks, so it need not visit every task.
- A create between the SCARD and DELETE of `redis_cleanup_task`: each Redis command group is one step.
- ConfigTree.ConfigState.CommitVar: the tree is a value, so a dict shared between a variable and the tree and changed in place is not captured.
- Environment defaults, `AppConfig` attribute access and Redis mirroring of configuration.
- Folders.FolderTable.SearchByNames: returns the set of folders found; their order is left out. Name normalisation is any function.
- Daily usage fill: it covers every day only when the start's time of day is not later than the end's.
- Histograms.EvaluationHistory: feedback data is already parsed into model and rating.
- Fractions of a millisecond in hourly usage.
- `fnmatch` on systems that fold path separators: only its pattern language is given a meaning.
- Role, status and activity flags of channel members, and access grants of channels.
- Search ordering and pagination.
