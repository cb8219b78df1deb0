/**
 The part of the chat endpoint that builds the message tree: a new chat's whole history at once, and
 a follow-up's user message, links and assistant placeholders by successive upserts.
 */
module ChatHistory {
  import opened Options
  import opened Seqs
  import opened Json
  import opened Forest
  import opened ChatRows
  import opened Chats

  /** One entry of message_ids; an empty id is a missing one. */
  datatype Assistant = Assistant(model: string, id: string)

  /** user is None when the request carries no user message. */
  datatype Request = Request(user: Option<Message>, assistants: seq<Assistant>, now: int)

  /** user_message.get('id'), or "" */
  function UserId(r: Request): string {
    if r.user.Some? && Look(r.user.value, Id).Str? then Look(r.user.value, Id).s else ""
  }

  function AssistantIds(assistants: seq<Assistant>): seq<string> {
    if assistants == [] then []
    else
      var last := assistants[|assistants| - 1].id;
      AssistantIds(assistants[..|assistants| - 1]) + if last == "" then [] else [last]
  }

  function Placeholder(a: Assistant, userId: string, now: int): Message {
    map[Id := Str(a.id), ParentId := if userId == "" then Null else Str(userId), ChildrenIds := List([]),
        Role := Str("assistant"), Content := Str(""), Done := Bool(false), Model := Str(a.model), Timestamp := Num(now)]
  }

  /** m.get('childrenIds', []) */
  function ChildList(m: Message): seq<Value> {
    if ChildrenIds in m && m[ChildrenIds].List? then m[ChildrenIds].items else []
  }

  function AppendMissing(kids: seq<Value>, ids: seq<string>): seq<Value>
    decreases |ids|
  {
    if ids == [] then kids
    else AppendMissing(if Str(ids[0]) in kids then kids else kids + [Str(ids[0])], ids[1..])
  }

  function PutAssistants(chat: Chat, assistants: seq<Assistant>, userId: string, now: int): Chat
    decreases |assistants|
  {
    if assistants == [] then chat
    else
      var before := PutAssistants(chat, assistants[..|assistants| - 1], userId, now);
      var last := assistants[|assistants| - 1];
      if last.id == "" then before else Put(before, last.id, Placeholder(last, userId, now))
  }

  /** Appends the user message to its parent's list, when the parent is stored and does not list it yet. */
  function LinkToParent(chat: Chat, parent: Option<string>, userId: string): Chat {
    if parent.None? || parent.value !in chat.messages || chat.messages[parent.value] == map[] then chat
    else
      var kids := ChildList(chat.messages[parent.value]);
      if Str(userId) in kids then chat
      else Put(chat, parent.value, map[ChildrenIds := List(kids + [Str(userId)])])
  }

  function LinkAssistants(chat: Chat, userId: string, ids: seq<string>): Chat {
    if userId !in chat.messages || chat.messages[userId] == map[] || ids == [] then chat
    else Put(chat, userId, map[ChildrenIds := List(AppendMissing(ChildList(chat.messages[userId]), ids))])
  }

  /** The chat after the user message has been stored and every link made, before any placeholder. */
  function WithUserMessage(chat: Chat, r: Request): Chat {
    var id := UserId(r);
    if id == "" then chat
    else
      var stored := Put(chat, id, r.user.value);
      LinkAssistants(LinkToParent(stored, ParentRef(r.user.value), id), id, AssistantIds(r.assistants))
  }

  /** The chat's blob after a follow-up request. */
  function FollowUp(chat: Chat, r: Request): Chat {
    PutAssistants(WithUserMessage(chat, r), r.assistants, UserId(r), r.now)
  }

  /** A new chat's placeholders are assigned, not merged. */
  function Placed(messages: map<string, Message>, assistants: seq<Assistant>, userId: string, now: int)
    : map<string, Message>
    decreases |assistants|
  {
    if assistants == [] then messages
    else
      var before := Placed(messages, assistants[..|assistants| - 1], userId, now);
      var last := assistants[|assistants| - 1];
      if last.id == "" then before else before[last.id := Placeholder(last, userId, now)]
  }

  function UserAlone(r: Request): map<string, Message> {
    if UserId(r) == "" then map[]
    else map[UserId(r) := r.user.value[ChildrenIds := Strs(AssistantIds(r.assistants))]]
  }

  /** The blob a new chat starts with. */
  function NewChat(owner: string, r: Request): Chat {
    var ids := AssistantIds(r.assistants);
    Chat(owner, if ids != [] then Some(ids[0]) else if UserId(r) != "" then Some(UserId(r)) else None,
         Placed(UserAlone(r), r.assistants, UserId(r), r.now))
  }

  // ---------- the invariant ----------

  function ParentsOf(messages: map<string, Message>): Parents {
    map x | x in messages :: ParentRef(messages[x])
  }

  ghost predicate Strings(items: seq<Value>) {
    NoDup(items) && forall v :: v in items ==> v.Str?
  }

  ghost predicate Listable(m: Message) {
    m != map[] && (ChildrenIds in m ==> m[ChildrenIds].List?) && Strings(ChildList(m))
  }

  /** c is listed under p exactly when c is stored with parent p. */
  ghost predicate ListedIff(messages: map<string, Message>, p: string, c: string)
    requires p in messages
  {
    Str(c) in ChildList(messages[p]) <==> c in messages && ParentRef(messages[c]) == Some(p)
  }

  /** A forest whose child lists invert the parent links. */
  ghost predicate IsTree(messages: map<string, Message>) {
    && "" !in messages
    && (forall x :: x in messages ==> Listable(messages[x]))
    && (forall p, c :: p in messages ==> ListedIff(messages, p, c))
    && Acyclic(ParentsOf(messages))
  }

  /** currentId names a stored message; only an empty history has none. */
  ghost predicate Current(chat: Chat) {
    if chat.currentId.Some? then chat.currentId.value in chat.messages else chat.messages == map[]
  }

  ghost predicate Tree(chat: Chat) {
    IsTree(chat.messages) && Current(chat)
  }

  function UserRef(userId: string): Option<string> {
    if userId == "" then None else Some(userId)
  }

  /** The ids a message's own child list names. */
  ghost function Named(m: Message): set<string> {
    set v | v in ChildList(m) && v.Str? :: v.s
  }

  lemma NamedIff(m: Message, c: string)
    ensures c in Named(m) <==> Str(c) in ChildList(m)
  {
    if Str(c) in ChildList(m) { assert Str(c).s in Named(m); }
  }

  ghost function NewIds(r: Request): set<string> {
    set a | a in AssistantIds(r.assistants)
  }

  /** The child list sent with the user message, if any, is a list. */
  predicate Typed(r: Request) {
    UserId(r) != "" && ChildrenIds in r.user.value ==> r.user.value[ChildrenIds].List?
  }

  /**
   The request's answers are not its user message; whoever is stored under one of them is one of them
   or the user message; and no other message lists one of them.
   */
  ghost predicate ProperAnswers(p: Parents, user: string, ids: set<string>) {
    && user !in ids
    && (forall c :: c in p && p[c].Some? && p[c].value in ids ==> c in ids || c == user)
    && (forall a :: a in ids && a in p && p[a].Some? && p[a].value in p ==> p[a].value == user || p[a].value in ids)
  }

  /** The parent is outside the message's subtree and the answers, and no other stored message still lists it. */
  ghost predicate ProperPlace(p: Parents, user: string, parent: Option<string>, ids: set<string>) {
    && (parent.Some? ==> parent.value !in ids && !Below(p, parent.value, user))
    && (user in p && p[user] != parent && p[user].Some? && p[user].value in p ==> p[user].value in ids)
  }

  /** The list the user message ends up with repeats nothing and, answers apart, names exactly its children. */
  ghost predicate ProperList(p: Parents, user: string, merged: Message, ids: set<string>) {
    Strings(ChildList(merged)) && Named(merged) + ids == Children(p, user) + ids
  }

  /** What a follow-up has to satisfy. */
  ghost predicate Proper(messages: map<string, Message>, r: Request) {
    var p := ParentsOf(messages);
    && ProperAnswers(p, UserId(r), NewIds(r))
    && (UserId(r) != "" ==>
          var merged := Merged(messages, UserId(r), r.user.value);
          && ProperPlace(p, UserId(r), ParentRef(merged), NewIds(r))
          && ProperList(p, UserId(r), merged, NewIds(r)))
  }

  // ---------- what the writes leave ----------

  lemma {:induction false} AssistantIdsAre(assistants: seq<Assistant>, x: string)
    ensures x in AssistantIds(assistants) ==> x != ""
    decreases |assistants|
  {
    if assistants != [] { AssistantIdsAre(assistants[..|assistants| - 1], x); }
  }

  /** Stored or not before, an assistant's message ends up childless under the user message. */
  lemma PlaceholderReads(messages: map<string, Message>, a: Assistant, user: string, now: int)
    ensures var m := Merged(messages, a.id, Placeholder(a, user, now));
            ParentRef(m) == UserRef(user) && ChildList(m) == [] && Listable(m)
  {
    var m := Merged(messages, a.id, Placeholder(a, user, now));
    assert ChildrenIds in m && m[ChildrenIds] == List([]) && ParentId in m;
  }

  lemma {:induction false} PutAssistantsAt(chat: Chat, assistants: seq<Assistant>, user: string, now: int, x: string)
    ensures var f := PutAssistants(chat, assistants, user, now).messages;
            && (x in f <==> x in chat.messages || x in AssistantIds(assistants))
            && (x in AssistantIds(assistants) ==>
                  ParentRef(f[x]) == UserRef(user) && ChildList(f[x]) == [] && Listable(f[x]))
            && (x in chat.messages && x !in AssistantIds(assistants) ==> f[x] == chat.messages[x])
    decreases |assistants|
  {
    if assistants != [] {
      var n := |assistants| - 1;
      var most, last := AssistantIds(assistants[..n]), assistants[n];
      PutAssistantsAt(chat, assistants[..n], user, now, x);
      if last.id == "" {
        assert AssistantIds(assistants) == most;
      } else {
        assert AssistantIds(assistants) == most + [last.id];
        PlaceholderReads(PutAssistants(chat, assistants[..n], user, now).messages, last, user, now);
      }
    }
  }

  lemma {:induction false} PutAssistantsCurrent(chat: Chat, assistants: seq<Assistant>, user: string, now: int)
    requires Current(chat)
    ensures Current(PutAssistants(chat, assistants, user, now))
    decreases |assistants|
  {
    if assistants != [] {
      PutAssistantsCurrent(chat, assistants[..|assistants| - 1], user, now);
    }
  }

  lemma {:induction false} AppendMissingMeans(kids: seq<Value>, ids: seq<string>, v: Value)
    ensures v in AppendMissing(kids, ids) <==> v in kids || (v.Str? && v.s in ids)
    ensures NoDup(kids) ==> NoDup(AppendMissing(kids, ids))
    ensures kids <= AppendMissing(kids, ids)
    decreases |ids|
  {
    if ids != [] {
      var kids' := if Str(ids[0]) in kids then kids else kids + [Str(ids[0])];
      AppendMissingMeans(kids', ids[1..], v);
      assert ids == [ids[0]] + ids[1..];
    }
  }

  lemma AppendMissingStrings(kids: seq<Value>, ids: seq<string>)
    ensures Strings(kids) <==> Strings(AppendMissing(kids, ids))
  {
    var all := AppendMissing(kids, ids);
    AppendMissingMeans(kids, ids, Null);
    assert forall i :: 0 <= i < |kids| ==> kids[i] == all[i];
    if Strings(kids) {
      forall v | v in all
        ensures v.Str?
      {
        AppendMissingMeans(kids, ids, v);
      }
    }
  }

  /** m with its child list replaced. */
  function SetChildren(messages: map<string, Message>, p: string, kids: seq<Value>): map<string, Message>
    requires p in messages
  {
    messages[p := messages[p][ChildrenIds := List(kids)]]
  }

  lemma SetChildrenMeans(messages: map<string, Message>, p: string, kids: seq<Value>)
    requires p in messages
    ensures var messages' := SetChildren(messages, p, kids);
            && messages'.Keys == messages.Keys
            && ParentsOf(messages') == ParentsOf(messages)
            && ChildList(messages'[p]) == kids && messages'[p] != map[] && messages'[p][ChildrenIds].List?
  {
    var messages' := SetChildren(messages, p, kids);
    assert ChildrenIds in messages'[p];
  }

  lemma PutChildren(chat: Chat, p: string, kids: seq<Value>)
    requires p in chat.messages
    ensures Put(chat, p, map[ChildrenIds := List(kids)]).messages == SetChildren(chat.messages, p, kids)
  {
    assert chat.messages[p] + map[ChildrenIds := List(kids)] == chat.messages[p][ChildrenIds := List(kids)];
  }

  /** The history once the user message is stored and its parent lists it. */
  function Linked(chat: Chat, id: string, m: Message): Chat {
    LinkToParent(Put(chat, id, m), ParentRef(m), id)
  }

  lemma LinkedParents(chat: Chat, id: string, m: Message)
    ensures ParentsOf(Linked(chat, id, m).messages)
         == ParentsOf(chat.messages)[id := ParentRef(Merged(chat.messages, id, m))]
    ensures Current(Linked(chat, id, m))
  {
    var stored, parent := Put(chat, id, m), ParentRef(m);
    assert ParentsOf(stored.messages) == ParentsOf(chat.messages)[id := ParentRef(Merged(chat.messages, id, m))];
    if parent.Some? && parent.value in stored.messages {
      var kids := ChildList(stored.messages[parent.value]) + [Str(id)];
      PutChildren(stored, parent.value, kids);
      SetChildrenMeans(stored.messages, parent.value, kids);
    }
  }

  lemma MergedNotEmpty(messages: map<string, Message>, id: string, m: Message)
    requires m != map[]
    ensures Merged(messages, id, m) != map[]
  {
    var f :| f in m;
    assert f in Merged(messages, id, m);
  }

  /** Storing the user message and linking it to its parent leaves these lists. */
  lemma LinkedList(chat: Chat, id: string, m: Message, x: string)
    requires Tree(chat) && m != map[] && ParentRef(m) != Some(id) && (x in chat.messages || x == id)
    ensures var l := Linked(chat, id, m).messages;
            && x in l && l[x] != map[]
            && (x == id ==> l[x] == Merged(chat.messages, id, m))
            && (x != id && ChildrenIds in l[x] ==> l[x][ChildrenIds].List?)
            && ChildList(l[x]) == if x == id then ChildList(Merged(chat.messages, id, m))
                                  else AppendMissing(ChildList(chat.messages[x]),
                                                     if ParentRef(m) == Some(x) then [id] else [])
  {
    var stored, parent := Put(chat, id, m), ParentRef(m);
    LinkedParents(chat, id, m);
    assert x in ParentsOf(Linked(chat, id, m).messages);
    MergedNotEmpty(chat.messages, id, m);
    if x != id {
      assert Listable(chat.messages[x]);
    }
    if parent == Some(x) && Str(id) !in ChildList(stored.messages[x]) {
      PutChildren(stored, x, ChildList(stored.messages[x]) + [Str(id)]);
      SetChildrenMeans(stored.messages, x, ChildList(stored.messages[x]) + [Str(id)]);
    }
  }

  lemma AssistantLinksParents(chat: Chat, user: string, ids: seq<string>)
    ensures ParentsOf(LinkAssistants(chat, user, ids).messages) == ParentsOf(chat.messages)
    ensures Current(chat) ==> Current(LinkAssistants(chat, user, ids))
  {
    if user in chat.messages && chat.messages[user] != map[] && ids != [] {
      var kids := AppendMissing(ChildList(chat.messages[user]), ids);
      PutChildren(chat, user, kids);
      SetChildrenMeans(chat.messages, user, kids);
    }
  }

  /** Linking the assistants leaves these lists. */
  lemma AssistantLinksList(chat: Chat, user: string, ids: seq<string>, x: string)
    requires user in chat.messages && chat.messages[user] != map[] && x in chat.messages
    ensures var w := LinkAssistants(chat, user, ids).messages;
            && x in w
            && (x != user || ids == [] ==> w[x] == chat.messages[x])
            && (x == user && ids != [] ==> w[x] != map[] && ChildrenIds in w[x] && w[x][ChildrenIds].List?)
            && ChildList(w[x]) == if x == user then AppendMissing(ChildList(chat.messages[x]), ids)
                                  else ChildList(chat.messages[x])
  {
    if ids != [] {
      var kids := AppendMissing(ChildList(chat.messages[user]), ids);
      PutChildren(chat, user, kids);
      SetChildrenMeans(chat.messages, user, kids);
    }
  }

  // ---------- after a follow-up: everybody's parent and list ----------

  /** The parents of the messages that are not new, once the user message is stored. */
  function Kept(chat: Chat, r: Request): Parents {
    if UserId(r) == "" then ParentsOf(chat.messages)
    else ParentsOf(chat.messages)[UserId(r) := ParentRef(Merged(chat.messages, UserId(r), r.user.value))]
  }

  lemma WithUserParents(chat: Chat, r: Request)
    requires Current(chat)
    ensures ParentsOf(WithUserMessage(chat, r).messages) == Kept(chat, r)
    ensures Current(WithUserMessage(chat, r))
  {
    if UserId(r) != "" {
      LinkedParents(chat, UserId(r), r.user.value);
      AssistantLinksParents(Linked(chat, UserId(r), r.user.value), UserId(r), AssistantIds(r.assistants));
    }
  }

  lemma FollowUpParents(chat: Chat, r: Request)
    requires Tree(chat)
    ensures var p := ParentsOf(FollowUp(chat, r).messages);
            && p.Keys == Kept(chat, r).Keys + NewIds(r)
            && (forall x :: x in p ==> p[x] == if x in NewIds(r) then UserRef(UserId(r)) else Kept(chat, r)[x])
    ensures Current(FollowUp(chat, r))
  {
    var w, f := WithUserMessage(chat, r), FollowUp(chat, r);
    WithUserParents(chat, r);
    PutAssistantsCurrent(w, r.assistants, UserId(r), r.now);
    forall x
      ensures x in f.messages <==> x in w.messages || x in NewIds(r)
      ensures x in f.messages ==>
                ParentRef(f.messages[x]) == if x in NewIds(r) then UserRef(UserId(r)) else ParentsOf(w.messages)[x]
    {
      PutAssistantsAt(w, r.assistants, UserId(r), r.now, x);
    }
  }

  lemma ParentAfter(chat: Chat, r: Request, x: string)
    requires Tree(chat)
    ensures var f := FollowUp(chat, r).messages;
            && (x in f <==> x in chat.messages || x in NewIds(r) || (x == UserId(r) && x != ""))
            && (x in f ==> ParentRef(f[x]) == if x in NewIds(r) then UserRef(UserId(r)) else Kept(chat, r)[x])
  {
    FollowUpParents(chat, r);
    assert x in FollowUp(chat, r).messages <==> x in ParentsOf(FollowUp(chat, r).messages);
  }

  /** The list of a message that is not new. */
  function KeptList(chat: Chat, r: Request, x: string): seq<Value>
    requires x in Kept(chat, r)
  {
    if UserId(r) == "" then ChildList(chat.messages[x])
    else if x == UserId(r) then
      AppendMissing(ChildList(Merged(chat.messages, x, r.user.value)), AssistantIds(r.assistants))
    else AppendMissing(ChildList(chat.messages[x]), if ParentRef(r.user.value) == Some(x) then [UserId(r)] else [])
  }

  /** The user message asks neither to be its own parent nor sends a child list that is no list. */
  ghost predicate Linkable(r: Request) {
    UserId(r) != "" ==>
      ParentRef(r.user.value) != Some(UserId(r)) && (ChildrenIds in r.user.value ==> r.user.value[ChildrenIds].List?)
  }

  lemma WithUserList(chat: Chat, r: Request, x: string)
    requires Tree(chat) && Linkable(r) && x in Kept(chat, r)
    ensures var w := WithUserMessage(chat, r).messages;
            && x in w && w[x] != map[] && (ChildrenIds in w[x] ==> w[x][ChildrenIds].List?)
            && ChildList(w[x]) == KeptList(chat, r, x)
  {
    if UserId(r) == "" {
      assert Listable(chat.messages[x]);
    } else {
      var id, m, ids := UserId(r), r.user.value, AssistantIds(r.assistants);
      LinkedList(chat, id, m, x);
      LinkedList(chat, id, m, id);
      AssistantLinksList(Linked(chat, id, m), id, ids, x);
      if id in chat.messages { assert Listable(chat.messages[id]); }
    }
  }

  lemma ListAfter(chat: Chat, r: Request, x: string)
    requires Tree(chat) && Linkable(r) && x in FollowUp(chat, r).messages
    ensures var m := FollowUp(chat, r).messages[x];
            && (x in NewIds(r) ==> Listable(m) && ChildList(m) == [])
            && (x !in NewIds(r) ==> x in Kept(chat, r) && ChildList(m) == KeptList(chat, r, x))
            && (x !in NewIds(r) ==> (Listable(m) <==> Strings(KeptList(chat, r, x))))
  {
    PutAssistantsAt(WithUserMessage(chat, r), r.assistants, UserId(r), r.now, x);
    WithUserParents(chat, r);
    if x !in NewIds(r) {
      assert x in ParentsOf(WithUserMessage(chat, r).messages);
      WithUserList(chat, r, x);
    }
  }

  lemma FollowUpAddsLeaves(chat: Chat, r: Request)
    requires Tree(chat)
    ensures ParentsOf(FollowUp(chat, r).messages) == WithLeaves(Kept(chat, r), NewIds(r), UserRef(UserId(r)))
  {
    FollowUpParents(chat, r);
  }

  // ---------- a proper follow-up keeps the tree ----------

  lemma NotOwnParent(messages: map<string, Message>, x: string)
    requires IsTree(messages) && x in messages
    ensures ParentRef(messages[x]) != Some(x)
  {
    assert Up(ParentsOf(messages), x, 1) == ParentRef(messages[x]);
  }

  /** The parent the user message ends up with is the one asked for, or the one it had. */
  lemma ParentKept(chat: Chat, r: Request)
    requires Tree(chat) && UserId(r) != ""
    ensures ParentId in r.user.value ==> ParentRef(r.user.value) == Kept(chat, r)[UserId(r)]
    ensures ParentId !in r.user.value ==>
              ParentRef(r.user.value) == None
              && Kept(chat, r)[UserId(r)]
                 == if UserId(r) in chat.messages then ParentRef(chat.messages[UserId(r)]) else None
  {
  }

  lemma KeptAcyclic(chat: Chat, r: Request)
    requires Tree(chat) && Typed(r) && Proper(chat.messages, r)
    ensures Acyclic(Kept(chat, r)) && NobodyUnder(Kept(chat, r), NewIds(r)) && Linkable(r)
    ensures UserId(r) != "" ==> Kept(chat, r)[UserId(r)] != Some(UserId(r))
  {
    var id, p := UserId(r), ParentsOf(chat.messages);
    if id != "" {
      var parent := Kept(chat, r)[id];
      ParentKept(chat, r);
      if parent.Some? {
        BelowSelf(p, id);
        RelinkAcyclicIff(p, id, parent.value);
      } else {
        RootKeepsAcyclic(p, id);
      }
    }
  }

  lemma ProperAcyclic(chat: Chat, r: Request)
    requires Tree(chat) && Typed(r) && Proper(chat.messages, r)
    ensures Acyclic(ParentsOf(FollowUp(chat, r).messages))
  {
    KeptAcyclic(chat, r);
    FollowUpAddsLeaves(chat, r);
    WithLeavesAcyclic(Kept(chat, r), NewIds(r), UserRef(UserId(r)));
  }

  lemma ProperListable(chat: Chat, r: Request, x: string)
    requires Tree(chat) && Typed(r) && Proper(chat.messages, r) && x in FollowUp(chat, r).messages
    ensures Listable(FollowUp(chat, r).messages[x])
  {
    KeptAcyclic(chat, r);
    ListAfter(chat, r, x);
    if x !in NewIds(r) {
      if x in chat.messages { assert Listable(chat.messages[x]); }
      if UserId(r) != "" {
        if x == UserId(r) {
          AppendMissingStrings(ChildList(Merged(chat.messages, x, r.user.value)), AssistantIds(r.assistants));
        } else {
          var more := if ParentRef(r.user.value) == Some(x) then [UserId(r)] else [];
          AppendMissingStrings(ChildList(chat.messages[x]), more);
        }
      }
    }
  }

  /** The list the user message ends up with. */
  lemma UserListed(chat: Chat, r: Request, c: string)
    requires Tree(chat) && UserId(r) != ""
    ensures Str(c) in KeptList(chat, r, UserId(r))
       <==> c in Named(Merged(chat.messages, UserId(r), r.user.value)) + NewIds(r)
  {
    var merged := Merged(chat.messages, UserId(r), r.user.value);
    AppendMissingMeans(ChildList(merged), AssistantIds(r.assistants), Str(c));
    NamedIff(merged, c);
  }

  /** After a follow-up the user message's children are its stored ones and the answers. */
  lemma ChildrenAfter(chat: Chat, r: Request, c: string)
    requires Tree(chat) && UserId(r) != "" && Kept(chat, r)[UserId(r)] != Some(UserId(r))
    ensures var id, f := UserId(r), FollowUp(chat, r).messages;
            c in f && ParentRef(f[c]) == Some(id) <==> c in Children(ParentsOf(chat.messages), id) + NewIds(r)
  {
    ParentAfter(chat, r, c);
    if UserId(r) in chat.messages { NotOwnParent(chat.messages, UserId(r)); }
  }

  lemma OtherListed(chat: Chat, r: Request, p: string, c: string)
    requires Tree(chat) && Typed(r) && Proper(chat.messages, r)
    requires p in chat.messages && p !in NewIds(r) && p != UserId(r)
    ensures Str(c) in KeptList(chat, r, p)
       <==> (c in Kept(chat, r) || c in NewIds(r))
            && (if c in NewIds(r) then UserRef(UserId(r)) else Kept(chat, r)[c]) == Some(p)
  {
    assert ListedIff(chat.messages, p, c);
    assert c in chat.messages ==> ParentsOf(chat.messages)[c] == ParentRef(chat.messages[c]);
    if UserId(r) != "" {
      ParentKept(chat, r);
      var more := if ParentRef(r.user.value) == Some(p) then [UserId(r)] else [];
      AppendMissingMeans(ChildList(chat.messages[p]), more, Str(c));
    }
  }

  lemma ProperListed(chat: Chat, r: Request, p: string, c: string)
    requires Tree(chat) && Typed(r) && Proper(chat.messages, r) && p in FollowUp(chat, r).messages
    ensures ListedIff(FollowUp(chat, r).messages, p, c)
  {
    KeptAcyclic(chat, r);
    ParentAfter(chat, r, c);
    ListAfter(chat, r, p);
    if p in NewIds(r) {
      assert c in Kept(chat, r) && c !in NewIds(r) ==> Kept(chat, r)[c] != Some(p);
    } else if p == UserId(r) && p != "" {
      UserListed(chat, r, c);
      ChildrenAfter(chat, r, c);
    } else {
      OtherListed(chat, r, p, c);
    }
  }

  lemma ProperKeepsTree(chat: Chat, r: Request)
    requires Tree(chat) && Typed(r) && Proper(chat.messages, r)
    ensures Tree(FollowUp(chat, r))
  {
    var f := FollowUp(chat, r).messages;
    FollowUpParents(chat, r);
    ProperAcyclic(chat, r);
    ParentAfter(chat, r, "");
    AssistantIdsAre(r.assistants, "");
    forall x | x in f
      ensures Listable(f[x])
    {
      ProperListable(chat, r, x);
    }
    forall p, c | p in f
      ensures ListedIff(f, p, c)
    {
      ProperListed(chat, r, p, c);
    }
  }

  // ---------- an improper one breaks it ----------

  lemma TreeNeedsOtherAnswers(chat: Chat, r: Request)
    requires Tree(chat) && Tree(FollowUp(chat, r))
    ensures UserId(r) !in NewIds(r)
  {
    var id := UserId(r);
    ParentAfter(chat, r, id);
    AssistantIdsAre(r.assistants, id);
    if id in NewIds(r) { NotOwnParent(FollowUp(chat, r).messages, id); }
  }

  /** Nobody but an answer is left with an answer for a parent: the answers' lists are empty. */
  lemma TreeNeedsNobodyUnder(chat: Chat, r: Request, c: string)
    requires Tree(chat) && Tree(FollowUp(chat, r)) && c in Kept(chat, r) && c !in NewIds(r)
    ensures Kept(chat, r)[c].Some? ==> Kept(chat, r)[c].value !in NewIds(r)
  {
    var f := FollowUp(chat, r).messages;
    ParentAfter(chat, r, c);
    if Kept(chat, r)[c].Some? && Kept(chat, r)[c].value in NewIds(r) {
      var a := Kept(chat, r)[c].value;
      ParentAfter(chat, r, a);
      assert ListedIff(f, a, c);
      PutAssistantsAt(WithUserMessage(chat, r), r.assistants, UserId(r), r.now, a);
    }
  }

  lemma CycleThrough(p: Parents, x: string, y: string, n: nat)
    requires x in p && p[x] == Some(y) && Up(p, y, n) == Some(x)
    ensures !Acyclic(p)
  {
    assert Up(p, x, n + 1) == Some(x);
  }

  /** If the rehung graph is acyclic, the new parent was not below the node. */
  lemma RehungAboveItself(p: Parents, id: string, parent: string, leaves: set<string>, v: Option<string>)
    requires NobodyUnder(p[id := Some(parent)], leaves) && id !in leaves && parent !in leaves
    requires Acyclic(WithLeaves(p[id := Some(parent)], leaves, v))
    ensures !Below(p, parent, id)
  {
    var kept := p[id := Some(parent)];
    var q := WithLeaves(kept, leaves, v);
    if Below(p, parent, id) {
      var n := FirstVisit(p, parent, id);
      RelinkKeepsWalk(p, id, Some(parent), parent, n);
      WalkStaysOutside(kept, leaves, v, parent, n);
      CycleThrough(q, id, parent, n);
    }
  }

  lemma TreeNeedsPlace(chat: Chat, r: Request)
    requires Tree(chat) && UserId(r) != "" && Tree(FollowUp(chat, r))
    ensures var parent := Kept(chat, r)[UserId(r)];
            && parent != Some(UserId(r))
            && (parent.Some? ==>
                  parent.value !in NewIds(r) && !Below(ParentsOf(chat.messages), parent.value, UserId(r)))
    ensures Typed(r) ==> Linkable(r)
  {
    var id, p, kept := UserId(r), ParentsOf(chat.messages), Kept(chat, r);
    TreeNeedsOtherAnswers(chat, r);
    ParentKept(chat, r);
    ParentAfter(chat, r, id);
    NotOwnParent(FollowUp(chat, r).messages, id);
    TreeNeedsNobodyUnder(chat, r, id);
    if kept[id].Some? {
      forall c | c in kept && c !in NewIds(r) && kept[c].Some?
        ensures kept[c].value !in NewIds(r)
      {
        TreeNeedsNobodyUnder(chat, r, c);
      }
      FollowUpAddsLeaves(chat, r);
      RehungAboveItself(p, id, kept[id].value, NewIds(r), UserRef(id));
    }
  }

  /** A stored message that listed c still does, so c must still have it for a parent. */
  lemma StillListed(chat: Chat, r: Request, p: string, c: string)
    requires Tree(chat) && Linkable(r) && Tree(FollowUp(chat, r))
    requires c in chat.messages && ParentRef(chat.messages[c]) == Some(p)
    requires p in chat.messages && p !in NewIds(r) && p != UserId(r)
    ensures c in FollowUp(chat, r).messages && ParentRef(FollowUp(chat, r).messages[c]) == Some(p)
  {
    var f := FollowUp(chat, r).messages;
    assert ListedIff(chat.messages, p, c);
    ParentAfter(chat, r, p);
    ListAfter(chat, r, p);
    if UserId(r) != "" {
      var more := if ParentRef(r.user.value) == Some(p) then [UserId(r)] else [];
      AppendMissingMeans(ChildList(chat.messages[p]), more, Str(c));
    }
    assert ListedIff(f, p, c);
  }

  lemma TreeNeedsAnswers(chat: Chat, r: Request)
    requires Tree(chat) && Linkable(r) && Tree(FollowUp(chat, r))
    ensures ProperAnswers(ParentsOf(chat.messages), UserId(r), NewIds(r))
  {
    var p, id, ids := ParentsOf(chat.messages), UserId(r), NewIds(r);
    TreeNeedsOtherAnswers(chat, r);
    forall c | c in p && p[c].Some? && p[c].value in ids
      ensures c in ids || c == id
    {
      if c !in ids { TreeNeedsNobodyUnder(chat, r, c); }
    }
    forall a | a in ids && a in p && p[a].Some? && p[a].value in p
      ensures p[a].value == id || p[a].value in ids
    {
      if p[a].value != id && p[a].value !in ids {
        ParentAfter(chat, r, a);
        StillListed(chat, r, p[a].value, a);
      }
    }
  }

  lemma TreeNeedsUnlisted(chat: Chat, r: Request)
    requires Tree(chat) && Linkable(r) && UserId(r) != "" && Tree(FollowUp(chat, r))
    requires UserId(r) in chat.messages && Kept(chat, r)[UserId(r)] != ParentRef(chat.messages[UserId(r)])
    requires ParentRef(chat.messages[UserId(r)]).Some? && ParentRef(chat.messages[UserId(r)]).value in chat.messages
    ensures ParentRef(chat.messages[UserId(r)]).value in NewIds(r)
  {
    var id := UserId(r);
    var p := ParentRef(chat.messages[id]).value;
    TreeNeedsOtherAnswers(chat, r);
    NotOwnParent(chat.messages, id);
    ParentAfter(chat, r, id);
    if p !in NewIds(r) { StillListed(chat, r, p, id); }
  }

  lemma TreeNeedsList(chat: Chat, r: Request)
    requires Tree(chat) && Typed(r) && UserId(r) != "" && Tree(FollowUp(chat, r))
    ensures ProperList(ParentsOf(chat.messages), UserId(r), Merged(chat.messages, UserId(r), r.user.value), NewIds(r))
  {
    var id, f := UserId(r), FollowUp(chat, r).messages;
    var merged := Merged(chat.messages, id, r.user.value);
    TreeNeedsOtherAnswers(chat, r);
    TreeNeedsPlace(chat, r);
    ParentAfter(chat, r, id);
    ListAfter(chat, r, id);
    assert Listable(f[id]);
    AppendMissingStrings(ChildList(merged), AssistantIds(r.assistants));
    forall c
      ensures c in Named(merged) + NewIds(r) <==> c in Children(ParentsOf(chat.messages), id) + NewIds(r)
    {
      UserListed(chat, r, c);
      assert ListedIff(f, id, c);
      ChildrenAfter(chat, r, c);
    }
  }

  lemma TreeNeedsProper(chat: Chat, r: Request)
    requires Tree(chat) && Typed(r) && Tree(FollowUp(chat, r))
    ensures Proper(chat.messages, r)
  {
    var id := UserId(r);
    if id != "" {
      TreeNeedsPlace(chat, r);
      TreeNeedsList(chat, r);
      if id in chat.messages && Kept(chat, r)[id] != ParentRef(chat.messages[id])
         && ParentRef(chat.messages[id]).Some? && ParentRef(chat.messages[id]).value in chat.messages {
        TreeNeedsUnlisted(chat, r);
      }
    }
    TreeNeedsAnswers(chat, r);
  }

  /** Whatever ids a follow-up brings, fresh or stored, it keeps the history a tree exactly when it is proper. */
  lemma FollowUpKeepsTreeIff(chat: Chat, r: Request)
    requires Tree(chat) && Typed(r)
    ensures Tree(FollowUp(chat, r)) <==> Proper(chat.messages, r)
  {
    if Tree(FollowUp(chat, r)) {
      TreeNeedsProper(chat, r);
    } else if Proper(chat.messages, r) {
      ProperKeepsTree(chat, r);
    }
  }

  // ---------- what clients send ----------

  lemma StrsMembers(ids: seq<string>, v: Value)
    ensures v in Strs(ids).items <==> v.Str? && v.s in ids
    ensures NoDup(ids) <==> NoDup(Strs(ids).items)
  {
    if v.Str? && v.s in ids {
      var i :| 0 <= i < |ids| && ids[i] == v.s;
      assert Strs(ids).items[i] == v;
    }
    if NoDup(Strs(ids).items) {
      forall i, j | 0 <= i < j < |ids|
        ensures ids[i] != ids[j]
      {
        assert Strs(ids).items[i] != Strs(ids).items[j];
      }
    }
  }

  /** id is new: not stored, and nobody's parent. */
  ghost predicate Unused(messages: map<string, Message>, id: string) {
    id !in messages && Children(ParentsOf(messages), id) == {}
  }

  /**
   Sent again is a stored user message, under its own parent, with its own children and then the new ones
   among the answers; every answer is new or already stored under it.
   */
  ghost predicate Resends(messages: map<string, Message>, r: Request, more: seq<string>) {
    UserId(r) != "" && UserId(r) in messages &&
    var id, m := UserId(r), r.user.value;
    && ParentId in m && ParentRef(m) == ParentRef(messages[id])
    && ChildrenIds in m && m[ChildrenIds] == List(ChildList(messages[id]) + Strs(more).items)
    && NoDup(more) && (forall a :: a in more ==> a in NewIds(r) && Unused(messages, a))
    && forall a :: a in NewIds(r) ==> Unused(messages, a) || (a in messages && ParentRef(messages[a]) == Some(id))
  }

  lemma NoTwoCycle(p: Parents, x: string, y: string)
    requires Acyclic(p) && x in p && y in p && p[x] == Some(y)
    ensures p[y] != Some(x)
  {
    if p[y] == Some(x) { CycleThrough(p, x, y, 1); }
  }

  lemma ResentPlaceIsProper(chat: Chat, r: Request, more: seq<string>)
    requires Tree(chat) && Resends(chat.messages, r, more)
    ensures ProperPlace(ParentsOf(chat.messages), UserId(r),
                        ParentRef(Merged(chat.messages, UserId(r), r.user.value)), NewIds(r))
  {
    var id, p := UserId(r), ParentsOf(chat.messages);
    assert p[id] == ParentRef(Merged(chat.messages, id, r.user.value));
    if p[id].Some? {
      ParentNotBelow(p, id);
      if p[id].value in NewIds(r) && p[id].value in p { NoTwoCycle(p, id, p[id].value); }
      assert id in Children(p, p[id].value);
    }
  }

  lemma ResentAnswersAreProperIff(chat: Chat, r: Request, more: seq<string>)
    requires Tree(chat) && Resends(chat.messages, r, more)
    ensures ProperAnswers(ParentsOf(chat.messages), UserId(r), NewIds(r))
       <==> forall a :: a in NewIds(r) ==> Children(ParentsOf(chat.messages), a) == {}
  {
    var id, p, ids := UserId(r), ParentsOf(chat.messages), NewIds(r);
    NotOwnParent(chat.messages, id);
    if ProperAnswers(p, id, ids) {
      forall a, c | a in ids && c in p
        ensures p[c] != Some(a)
      {
        if p[c] == Some(a) {
          assert c in Children(p, a);
          if c == id { NoTwoCycle(p, id, a); } else { NotOwnParent(chat.messages, a); }
        }
      }
    }
    if forall a :: a in ids ==> Children(p, a) == {} {
      forall c | c in p && p[c].Some?
        ensures p[c].value !in ids
      {
        assert c in Children(p, p[c].value);
      }
    }
  }

  lemma ResentRepeatsNothing(chat: Chat, id: string, more: seq<string>)
    requires Tree(chat) && id in chat.messages
    requires NoDup(more) && forall a :: a in more ==> Unused(chat.messages, a)
    ensures NoDup(ChildList(chat.messages[id]) + Strs(more).items)
  {
    var kids, items := ChildList(chat.messages[id]), Strs(more).items;
    assert Listable(chat.messages[id]);
    StrsMembers(more, Null);
    forall v | v in items
      ensures v !in kids
    {
      StrsMembers(more, v);
      assert Unused(chat.messages, v.s);
      assert ListedIff(chat.messages, id, v.s);
    }
    NoDupConcat(kids, items);
  }

  lemma ResentListIsProper(chat: Chat, r: Request, more: seq<string>)
    requires Tree(chat) && Resends(chat.messages, r, more)
    ensures ProperList(ParentsOf(chat.messages), UserId(r), Merged(chat.messages, UserId(r), r.user.value), NewIds(r))
  {
    var id, m := UserId(r), r.user.value;
    var merged, kids := Merged(chat.messages, id, m), ChildList(chat.messages[id]);
    assert ChildList(merged) == kids + Strs(more).items;
    assert Listable(chat.messages[id]);
    ResentRepeatsNothing(chat, id, more);
    forall v
      ensures v in ChildList(merged) <==> v in kids || (v.Str? && v.s in more)
    {
      StrsMembers(more, v);
    }
    forall c
      ensures c in Named(merged) + NewIds(r) <==> c in Children(ParentsOf(chat.messages), id) + NewIds(r)
    {
      NamedIff(merged, c);
      assert ListedIff(chat.messages, id, c);
    }
  }

  /** Regenerating, or continuing a stored answer, keeps the tree exactly when no answer has children yet. */
  lemma ResendKeepsTreeIff(chat: Chat, r: Request, more: seq<string>)
    requires Tree(chat) && Resends(chat.messages, r, more)
    ensures Tree(FollowUp(chat, r)) <==> forall a :: a in NewIds(r) ==> Children(ParentsOf(chat.messages), a) == {}
  {
    FollowUpKeepsTreeIff(chat, r);
    ResentListIsProper(chat, r, more);
    ResentPlaceIsProper(chat, r, more);
    ResentAnswersAreProperIff(chat, r, more);
  }

  // ---------- two requests that break the tree ----------

  const USER: Message := map[Id := Str("u"), ChildrenIds := List([Str("a")])]
  const ANSWER: Message := map[Id := Str("a"), ParentId := Str("u"), ChildrenIds := List([Str("f")])]
  const REPLY: Message := map[Id := Str("f"), ParentId := Str("a"), ChildrenIds := List([])]
  const ANSWERED: map<string, Message> := map["u" := USER, "a" := ANSWER, "f" := REPLY]
  const ANSWERED_CHAT: Chat := Chat("owner", Some("f"), ANSWERED)

  /** A user message, its answer and a reply to that. */
  ghost predicate ThreeInARow(messages: map<string, Message>) {
    && messages.Keys == {"u", "a", "f"}
    && ParentRef(messages["u"]) == None && ChildList(messages["u"]) == [Str("a")]
    && ParentRef(messages["a"]) == Some("u") && ChildList(messages["a"]) == [Str("f")]
    && ParentRef(messages["f"]) == Some("a") && ChildList(messages["f"]) == []
    && forall x :: x in messages ==>
         messages[x] != map[] && (ChildrenIds in messages[x] ==> messages[x][ChildrenIds].List?)
  }

  lemma AnsweredIsThreeInARow()
    ensures ThreeInARow(ANSWERED)
  {
    assert ChildrenIds in USER && ChildrenIds in ANSWER && ChildrenIds in REPLY;
  }

  lemma ThreeInARowIsTree(messages: map<string, Message>)
    requires ThreeInARow(messages)
    ensures IsTree(messages)
  {
    var none: Parents := map[];
    var one, two := none["u" := None], none["u" := None]["a" := Some("u")];
    assert Acyclic(none);
    RootKeepsAcyclic(none, "u");
    AddLeafAcyclic(one, "a", Some("u"));
    AddLeafAcyclic(two, "f", Some("a"));
    assert ParentsOf(messages) == two["f" := Some("a")];
    forall p, c | p in messages
      ensures ListedIff(messages, p, c)
    {
    }
  }

  lemma AnsweredIsTree()
    ensures Tree(ANSWERED_CHAT) && ThreeInARow(ANSWERED_CHAT.messages)
  {
    AnsweredIsThreeInARow();
    ThreeInARowIsTree(ANSWERED);
  }

  lemma OneAnswer(r: Request, a: string)
    requires r.assistants == [Assistant("model", a)] && a != ""
    ensures AssistantIds(r.assistants) == [a] && NewIds(r) == {a}
  {
    assert r.assistants[..0] == [];
  }

  const STALE_USER: Message := map[Id := Str("u"), ChildrenIds := List([Str("b")])]
  const STALE_RESEND: Request := Request(Some(STALE_USER), [Assistant("model", "b")], 0)

  lemma StaleListImproper(messages: map<string, Message>, merged: Message, ids: set<string>)
    requires ThreeInARow(messages) && ids == {"b"} && ChildList(merged) == [Str("b")]
    ensures !ProperList(ParentsOf(messages), "u", merged, ids)
  {
    NamedIff(merged, "a");
    assert "a" in Children(ParentsOf(messages), "u") + ids && "a" !in Named(merged) + ids;
  }

  /** A client that re-sends a message without knowing of its stored answer drops that answer from the tree. */
  lemma StaleResendBreaksTree()
    ensures Tree(ANSWERED_CHAT) && !Tree(FollowUp(ANSWERED_CHAT, STALE_RESEND))
  {
    AnsweredIsTree();
    OneAnswer(STALE_RESEND, "b");
    StaleListImproper(ANSWERED, Merged(ANSWERED, "u", STALE_USER), {"b"});
    FollowUpKeepsTreeIff(ANSWERED_CHAT, STALE_RESEND);
  }

  const CONTINUE: Request := Request(Some(USER), [Assistant("model", "a")], 0)

  lemma ReplyImproper(messages: map<string, Message>, ids: set<string>)
    requires ThreeInARow(messages) && ids == {"a"}
    ensures !ProperAnswers(ParentsOf(messages), "u", ids)
  {
    var p := ParentsOf(messages);
    assert "f" in p && p["f"] == Some("a") && "f" !in ids && "f" != "u";
  }

  /** Continuing an answer that already has a reply drops the reply from the tree. */
  lemma ContinueDropsReply()
    ensures Tree(ANSWERED_CHAT) && !Tree(FollowUp(ANSWERED_CHAT, CONTINUE))
  {
    AnsweredIsTree();
    OneAnswer(CONTINUE, "a");
    ReplyImproper(ANSWERED, {"a"});
    FollowUpKeepsTreeIff(ANSWERED_CHAT, CONTINUE);
  }

  // ---------- new chats and conversations ----------

  /** A new chat's answers are distinct, and its user message hangs neither under itself nor under one of them. */
  ghost predicate ProperNew(r: Request) {
    UserId(r) != "" ==>
      var parent := ParentRef(r.user.value);
      && NoDup(AssistantIds(r.assistants)) && UserId(r) !in NewIds(r)
      && parent != Some(UserId(r)) && (parent.Some? ==> parent.value !in NewIds(r))
  }

  const ANSWER_KEYS: set<Field> := {Id, ParentId, ChildrenIds, Role, Content, Done, Model, Timestamp}

  lemma PlaceholderReplaces(messages: map<string, Message>, a: Assistant, user: string, now: int)
    requires a.id in messages ==>
               messages[a.id].Keys == ANSWER_KEYS
    ensures Merged(messages, a.id, Placeholder(a, user, now)) == Placeholder(a, user, now)
    ensures Placeholder(a, user, now).Keys == ANSWER_KEYS
  {
  }

  /** In a new chat a placeholder can only replace another placeholder. */
  lemma {:induction false} PlacedIsPut(chat: Chat, assistants: seq<Assistant>, user: string, now: int)
    requires forall a :: a in AssistantIds(assistants) ==> a !in chat.messages
    ensures Placed(chat.messages, assistants, user, now) == PutAssistants(chat, assistants, user, now).messages
    ensures forall a :: a in AssistantIds(assistants) ==>
              a in Placed(chat.messages, assistants, user, now)
              && Placed(chat.messages, assistants, user, now)[a].Keys
                 == ANSWER_KEYS
    ensures Placed(chat.messages, assistants, user, now).Keys
         == chat.messages.Keys + set a | a in AssistantIds(assistants)
    decreases |assistants|
  {
    if assistants != [] {
      var n := |assistants| - 1;
      var most, last := AssistantIds(assistants[..n]), assistants[n];
      assert AssistantIds(assistants) == if last.id == "" then most else most + [last.id];
      PlacedIsPut(chat, assistants[..n], user, now);
      if last.id != "" {
        PlaceholderReplaces(Placed(chat.messages, assistants[..n], user, now), last, user, now);
      }
    }
  }

  /** The request with the user message's child list replaced by the answers, as the endpoint does for a new chat. */
  function Listing(r: Request): Request {
    if UserId(r) == "" then r
    else r.(user := Some(r.user.value[ChildrenIds := Strs(AssistantIds(r.assistants))]))
  }

  lemma {:induction false} NothingMissing(kids: seq<Value>, ids: seq<string>)
    requires forall a :: a in ids ==> Str(a) in kids
    ensures AppendMissing(kids, ids) == kids
    decreases |ids|
  {
    if ids != [] {
      assert ids[0] in ids;
      NothingMissing(kids, ids[1..]);
    }
  }

  lemma UserAloneIsStored(empty: Chat, r: Request)
    requires empty.messages == map[] && UserId(r) != "" && ParentRef(r.user.value) != Some(UserId(r))
    ensures UserId(Listing(r)) == UserId(r) && WithUserMessage(empty, Listing(r)).messages == UserAlone(r)
  {
    var id, ids, m := UserId(r), AssistantIds(r.assistants), Listing(r).user.value;
    var stored := Put(empty, id, m);
    assert stored.messages == UserAlone(r) && ParentRef(m) == ParentRef(r.user.value);
    forall a | a in ids
      ensures Str(a) in ChildList(m)
    {
      StrsMembers(ids, Str(a));
    }
    NothingMissing(ChildList(m), ids);
    assert m + map[ChildrenIds := List(ChildList(m))] == m;
  }

  /** A new chat's history is what a follow-up makes of an empty one. */
  lemma NewChatIsFollowUp(owner: string, r: Request)
    requires UserId(r) != "" ==> ParentRef(r.user.value) != Some(UserId(r)) && UserId(r) !in NewIds(r)
    ensures NewChat(owner, r).messages == FollowUp(Chat(owner, None, map[]), Listing(r)).messages
  {
    var empty := Chat(owner, None, map[]);
    var w := WithUserMessage(empty, Listing(r));
    assert w.messages == UserAlone(r) by {
      if UserId(r) != "" { UserAloneIsStored(empty, r); }
    }
    PlacedIsPut(w, r.assistants, UserId(r), r.now);
  }

  lemma ListingIsProperIff(r: Request)
    ensures Typed(Listing(r)) && (Proper(map[], Listing(r)) <==> ProperNew(r))
  {
    AssistantIdsAre(r.assistants, "");
    if UserId(r) != "" {
      var id, ids, m := UserId(r), AssistantIds(r.assistants), Listing(r).user.value;
      assert UserId(Listing(r)) == id && ParentRef(m) == ParentRef(r.user.value);
      assert ChildList(m) == Strs(ids).items && Merged(map[], id, m) == m;
      StrsMembers(ids, Null);
      forall v
        ensures v in ChildList(m) <==> v.Str? && v.s in ids
      {
        StrsMembers(ids, v);
      }
      forall c
        ensures c in Named(m) <==> c in NewIds(r)
      {
        NamedIff(m, c);
      }
      assert Children(ParentsOf(map[]), id) == {};
      if ParentRef(m).Some? { BelowStep(ParentsOf(map[]), ParentRef(m).value, id); }
    }
  }

  lemma EmptyIsTree(owner: string)
    ensures Tree(Chat(owner, None, map[]))
  {
    var none: Parents := map[];
    assert ParentsOf(map[]) == none && Acyclic(none);
  }

  lemma {:induction false} PlacedAt(messages: map<string, Message>, assistants: seq<Assistant>, user: string, now: int,
                                    x: string)
    ensures var f := Placed(messages, assistants, user, now);
            && (x in f <==> x in messages || x in AssistantIds(assistants))
            && (x in AssistantIds(assistants) ==> ParentRef(f[x]) == UserRef(user))
            && (x in messages && x !in AssistantIds(assistants) ==> f[x] == messages[x])
    decreases |assistants|
  {
    if assistants != [] {
      var n := |assistants| - 1;
      var most, last := AssistantIds(assistants[..n]), assistants[n];
      assert AssistantIds(assistants) == if last.id == "" then most else most + [last.id];
      PlacedAt(messages, assistants[..n], user, now, x);
    }
  }

  lemma NewChatIsCurrent(owner: string, r: Request)
    ensures Current(NewChat(owner, r))
  {
    var ids := AssistantIds(r.assistants);
    if ids != [] {
      PlacedAt(UserAlone(r), r.assistants, UserId(r), r.now, ids[0]);
    } else {
      forall x
        ensures x in NewChat(owner, r).messages <==> x in UserAlone(r)
      {
        PlacedAt(UserAlone(r), r.assistants, UserId(r), r.now, x);
      }
    }
  }

  lemma SelfParentInNewChat(owner: string, r: Request)
    requires UserId(r) != "" && (ParentRef(r.user.value) == Some(UserId(r)) || UserId(r) in NewIds(r))
    ensures !Tree(NewChat(owner, r))
  {
    PlacedAt(UserAlone(r), r.assistants, UserId(r), r.now, UserId(r));
    assert Up(ParentsOf(NewChat(owner, r).messages), UserId(r), 1) == Some(UserId(r));
  }

  /** Whatever the first request brings, the new chat's history is a tree exactly when the request is proper. */
  lemma NewChatIsTreeIff(owner: string, r: Request)
    ensures Tree(NewChat(owner, r)) <==> ProperNew(r)
  {
    if UserId(r) != "" && (ParentRef(r.user.value) == Some(UserId(r)) || UserId(r) in NewIds(r)) {
      SelfParentInNewChat(owner, r);
    } else {
      EmptyIsTree(owner);
      ListingIsProperIff(r);
      NewChatIsFollowUp(owner, r);
      FollowUpKeepsTreeIff(Chat(owner, None, map[]), Listing(r));
      FollowUpParents(Chat(owner, None, map[]), Listing(r));
      NewChatIsCurrent(owner, r);
    }
  }

  ghost predicate AllProper(chat: Chat, rs: seq<Request>)
    decreases |rs|
  {
    rs != [] ==> Proper(chat.messages, rs[0]) && AllProper(FollowUp(chat, rs[0]), rs[1..])
  }

  /** The history is a tree now and after every one of the requests. */
  ghost predicate AlwaysTree(chat: Chat, rs: seq<Request>)
    decreases |rs|
  {
    Tree(chat) && (rs != [] ==> AlwaysTree(FollowUp(chat, rs[0]), rs[1..]))
  }

  lemma {:induction false} AlwaysTreeIff(chat: Chat, rs: seq<Request>)
    requires Tree(chat) && forall r :: r in rs ==> Typed(r)
    ensures AlwaysTree(chat, rs) <==> AllProper(chat, rs)
    decreases |rs|
  {
    if rs != [] {
      FollowUpKeepsTreeIff(chat, rs[0]);
      if Proper(chat.messages, rs[0]) {
        AlwaysTreeIff(FollowUp(chat, rs[0]), rs[1..]);
      } else {
        assert !Tree(FollowUp(chat, rs[0]));
      }
    }
  }

  /**
   A conversation, from its first request through any follow-ups, keeps its history a tree throughout
   exactly when every request is proper.
   */
  lemma ConversationKeepsTreeIff(owner: string, first: Request, rs: seq<Request>)
    requires forall r :: r in rs ==> Typed(r)
    ensures AlwaysTree(NewChat(owner, first), rs) <==> ProperNew(first) && AllProper(NewChat(owner, first), rs)
  {
    NewChatIsTreeIff(owner, first);
    if ProperNew(first) {
      AlwaysTreeIff(NewChat(owner, first), rs);
    } else {
      assert !Tree(NewChat(owner, first));
    }
  }

  // ---------- what the stored messages say ----------

  /** The request brings a user message with the id x. */
  ghost predicate Sends(r: Request, x: string) {
    r.user.Some? && Id in r.user.value && r.user.value[Id] == Str(x) && x != ""
  }

  lemma SendsIff(r: Request, x: string)
    ensures Sends(r, x) <==> UserId(r) == x && x != ""
  {
  }

  /** An empty answer of assistant a to the user message. */
  ghost predicate IsAnswer(m: Message, a: Assistant, user: string, now: int) {
    && ANSWER_KEYS <= m.Keys
    && m[Id] == Str(a.id) && m[Model] == Str(a.model) && m[Role] == Str("assistant")
    && m[Content] == Str("") && m[Done] == Bool(false) && m[Timestamp] == Num(now)
    && m[ChildrenIds] == List([]) && m[ParentId] == if user == "" then Null else Str(user)
  }

  /** Entry i has an id, and no later entry carries it again. */
  ghost predicate LastCarrying(assistants: seq<Assistant>, i: nat) {
    && i < |assistants| && assistants[i].id != ""
    && forall j :: i < j < |assistants| ==> assistants[j].id != assistants[i].id
  }

  /** `ids` are the ids of the entries at `at`, in order: those that are not empty. */
  ghost predicate Picks(assistants: seq<Assistant>, ids: seq<string>, at: seq<nat>) {
    && |ids| == |at|
    && (forall k :: 0 <= k < |at| ==> at[k] < |assistants| && ids[k] == assistants[at[k]].id)
    && (forall k, l :: 0 <= k < l < |at| ==> at[k] < at[l])
    && (forall i :: 0 <= i < |assistants| ==> (i in at <==> assistants[i].id != ""))
  }

  lemma PicksStep(assistants: seq<Assistant>, a: Assistant, ids: seq<string>, at: seq<nat>)
    requires Picks(assistants, ids, at)
    ensures a.id == "" ==> Picks(assistants + [a], ids, at)
    ensures a.id != "" ==> Picks(assistants + [a], ids + [a.id], at + [|assistants|])
  {
    var n := |assistants|;
    assert n !in at;
    forall i | 0 <= i <= n
      ensures i in at + [n] <==> i in at || i == n
    {
    }
  }

  lemma {:induction false} AssistantIdsPick(assistants: seq<Assistant>) returns (at: seq<nat>)
    ensures Picks(assistants, AssistantIds(assistants), at)
    decreases |assistants|
  {
    if assistants == [] {
      at := [];
    } else {
      var n := |assistants| - 1;
      at := AssistantIdsPick(assistants[..n]);
      PicksStep(assistants[..n], assistants[n], AssistantIds(assistants[..n]), at);
      assert assistants[..n] + [assistants[n]] == assistants;
      if assistants[n].id != "" { at := at + [n]; }
    }
  }

  /** What message x says under key f. */
  function Says(messages: map<string, Message>, x: string, f: Field): Option<Value> {
    if x in messages && f in messages[x] then Some(messages[x][f]) else None
  }

  lemma PlaceholderIsAnswer(messages: map<string, Message>, a: Assistant, user: string, now: int)
    ensures IsAnswer(Merged(messages, a.id, Placeholder(a, user, now)), a, user, now)
    ensures Placeholder(a, user, now).Keys == ANSWER_KEYS
  {
    assert Placeholder(a, user, now).Keys == ANSWER_KEYS;
  }

  lemma LastCarryingStep(assistants: seq<Assistant>, i: nat)
    requires LastCarrying(assistants, i) && i < |assistants| - 1
    ensures LastCarrying(assistants[..|assistants| - 1], i)
    ensures assistants[|assistants| - 1].id != assistants[i].id
  {
  }

  lemma {:induction false} AnswersPut(chat: Chat, assistants: seq<Assistant>, user: string, now: int, i: nat)
    requires LastCarrying(assistants, i)
    ensures var f := PutAssistants(chat, assistants, user, now).messages;
            assistants[i].id in f && IsAnswer(f[assistants[i].id], assistants[i], user, now)
    decreases |assistants|
  {
    var n := |assistants| - 1;
    if i == n {
      PlaceholderIsAnswer(PutAssistants(chat, assistants[..n], user, now).messages, assistants[n], user, now);
    } else {
      LastCarryingStep(assistants, i);
      AnswersPut(chat, assistants[..n], user, now, i);
    }
  }

  /** Placeholders overwrite their own keys in the messages they stand for, and nothing else. */
  lemma {:induction false} PuttingKeeps(chat: Chat, assistants: seq<Assistant>, user: string, now: int,
                                        x: string, f: Field)
    requires f in ANSWER_KEYS ==> x !in AssistantIds(assistants)
    ensures Says(PutAssistants(chat, assistants, user, now).messages, x, f) == Says(chat.messages, x, f)
    decreases |assistants|
  {
    if assistants != [] {
      var n := |assistants| - 1;
      var last := assistants[n];
      assert AssistantIds(assistants) == AssistantIds(assistants[..n]) + if last.id == "" then [] else [last.id];
      PuttingKeeps(chat, assistants[..n], user, now, x, f);
      PlaceholderIsAnswer(chat.messages, last, user, now);
    }
  }

  lemma {:induction false} PuttingCurrent(chat: Chat, assistants: seq<Assistant>, user: string, now: int)
    ensures var ids, chat' := AssistantIds(assistants), PutAssistants(chat, assistants, user, now);
            && chat'.userId == chat.userId
            && chat'.currentId == if ids == [] then chat.currentId else Some(ids[|ids| - 1])
    decreases |assistants|
  {
    if assistants != [] {
      PuttingCurrent(chat, assistants[..|assistants| - 1], user, now);
    }
  }

  lemma PutChildrenSays(chat: Chat, p: string, kids: seq<Value>, x: string, f: Field)
    requires f != ChildrenIds
    ensures Says(Put(chat, p, map[ChildrenIds := List(kids)]).messages, x, f) == Says(chat.messages, x, f)
  {
  }

  lemma LinkingSays(chat: Chat, parent: Option<string>, id: string, ids: seq<string>, x: string, f: Field)
    requires f != ChildrenIds
    ensures Says(LinkToParent(chat, parent, id).messages, x, f) == Says(chat.messages, x, f)
    ensures Says(LinkAssistants(chat, id, ids).messages, x, f) == Says(chat.messages, x, f)
  {
    if parent.Some? && parent.value in chat.messages {
      PutChildrenSays(chat, parent.value, ChildList(chat.messages[parent.value]) + [Str(id)], x, f);
    }
    if id in chat.messages {
      PutChildrenSays(chat, id, AppendMissing(ChildList(chat.messages[id]), ids), x, f);
    }
  }

  lemma WithUserSays(chat: Chat, r: Request, x: string, f: Field)
    requires f != ChildrenIds
    ensures Says(WithUserMessage(chat, r).messages, x, f)
         == if UserId(r) != "" && x == UserId(r) && f in r.user.value then Some(r.user.value[f])
            else Says(chat.messages, x, f)
  {
    var id := UserId(r);
    if id != "" {
      var stored := Put(chat, id, r.user.value);
      var ids, parent := AssistantIds(r.assistants), ParentRef(r.user.value);
      LinkingSays(stored, parent, id, ids, x, f);
      LinkingSays(LinkToParent(stored, parent, id), parent, id, ids, x, f);
    }
  }

  /** A follow-up leaves an answer, still empty, for every assistant with an id, a repeated id going to the last. */
  lemma FollowUpAnswers(chat: Chat, r: Request, i: nat)
    requires LastCarrying(r.assistants, i)
    ensures var a, f := r.assistants[i], FollowUp(chat, r).messages;
            && a.id in f && IsAnswer(f[a.id], a, UserId(r), r.now)
            && (forall x :: Sends(r, x) ==> f[a.id][ParentId] == Str(x))
            && ((forall x :: !Sends(r, x)) ==> f[a.id][ParentId] == Null)
  {
    SendsIff(r, UserId(r));
    AnswersPut(WithUserMessage(chat, r), r.assistants, UserId(r), r.now, i);
  }

  /**
   Child lists apart, and apart from what makes an answer, a follow-up leaves every message saying what it
   said, and the user message what was sent, over what it said.
   */
  lemma FollowUpKeepsContents(chat: Chat, r: Request, x: string, f: Field)
    requires f != ChildrenIds && (f in ANSWER_KEYS ==> x !in AssistantIds(r.assistants))
    ensures Says(FollowUp(chat, r).messages, x, f)
         == if Sends(r, x) && f in r.user.value then Some(r.user.value[f]) else Says(chat.messages, x, f)
  {
    SendsIff(r, x);
    WithUserSays(chat, r, x, f);
    PuttingKeeps(WithUserMessage(chat, r), r.assistants, UserId(r), r.now, x, f);
  }

  /**
   The current message after a follow-up is the last answer; without answers the user message, or its parent
   when the link to it had to be written; without either what it was.
   */
  lemma FollowUpCurrent(chat: Chat, r: Request)
    ensures var ids, id, chat' := AssistantIds(r.assistants), UserId(r), FollowUp(chat, r);
            && chat'.userId == chat.userId
            && (ids != [] ==> chat'.currentId == Some(ids[|ids| - 1]))
            && (ids == [] && id == "" ==> chat'.currentId == chat.currentId)
            && (ids == [] && id != "" ==>
                  var parent, stored := ParentRef(r.user.value), Put(chat, id, r.user.value).messages;
                  chat'.currentId
                  == if parent.Some? && parent.value in stored && stored[parent.value] != map[]
                        && Str(id) !in ChildList(stored[parent.value])
                     then parent else Some(id))
  {
    PuttingCurrent(WithUserMessage(chat, r), r.assistants, UserId(r), r.now);
  }

  lemma {:induction false} AnswersPlaced(messages: map<string, Message>, assistants: seq<Assistant>, user: string,
                                         now: int, i: nat)
    requires LastCarrying(assistants, i)
    ensures var f := Placed(messages, assistants, user, now);
            && assistants[i].id in f && IsAnswer(f[assistants[i].id], assistants[i], user, now)
            && f[assistants[i].id].Keys == ANSWER_KEYS
    decreases |assistants|
  {
    var n := |assistants| - 1;
    if i == n {
      PlaceholderIsAnswer(map[], assistants[n], user, now);
    } else {
      LastCarryingStep(assistants, i);
      AnswersPlaced(messages, assistants[..n], user, now, i);
    }
  }

  /**
   A new chat is the owner's and holds the user message, listing the answers' ids in order, and the answers,
   each saying just what makes it one; its current message is the first answer, or else the user message.
   */
  lemma NewChatMeans(owner: string, r: Request)
    ensures var ids, id, chat := AssistantIds(r.assistants), UserId(r), NewChat(owner, r);
            && chat.userId == owner
            && (forall x :: x in chat.messages <==> x in ids || Sends(r, x))
            && (forall x :: Sends(r, x) <==> x == id != "")
            && (forall i: nat :: LastCarrying(r.assistants, i) ==>
                  && r.assistants[i].id in chat.messages
                  && chat.messages[r.assistants[i].id].Keys == ANSWER_KEYS
                  && IsAnswer(chat.messages[r.assistants[i].id], r.assistants[i], id, r.now))
            && (id != "" && id !in ids ==>
                  && chat.messages[id].Keys == r.user.value.Keys + {ChildrenIds}
                  && (forall f :: f in r.user.value && f != ChildrenIds ==> chat.messages[id][f] == r.user.value[f])
                  && chat.messages[id][ChildrenIds] == List(seq(|ids|, k requires 0 <= k < |ids| => Str(ids[k]))))
            && chat.currentId == if ids != [] then Some(ids[0]) else UserRef(id)
  {
    var ids, id, chat := AssistantIds(r.assistants), UserId(r), NewChat(owner, r);
    forall x
      ensures Sends(r, x) <==> x == id != ""
      ensures x in chat.messages <==> x in ids || Sends(r, x)
      ensures x in UserAlone(r) && x !in ids ==> chat.messages[x] == UserAlone(r)[x]
    {
      PlacedAt(UserAlone(r), r.assistants, id, r.now, x);
      SendsIff(r, x);
    }
    forall i: nat | LastCarrying(r.assistants, i)
      ensures r.assistants[i].id in chat.messages
      ensures IsAnswer(chat.messages[r.assistants[i].id], r.assistants[i], id, r.now)
      ensures chat.messages[r.assistants[i].id].Keys == ANSWER_KEYS
    {
      AnswersPlaced(UserAlone(r), r.assistants, id, r.now, i);
    }
  }

  // ---------- the endpoint's writes ----------

  method BuildHistory(owner: string, r: Request) returns (chat: Chat)
    ensures chat == NewChat(owner, r)
  {
    var userId := UserId(r);
    var ids := AssistantIds(r.assistants);
    var history: map<string, Message> := map[];
    if userId != "" {
      history := history[userId := r.user.value[ChildrenIds := Strs(ids)]];
    }
    for i := 0 to |r.assistants|
      invariant history == Placed(UserAlone(r), r.assistants[..i], userId, r.now)
    {
      assert r.assistants[..i + 1][..i] == r.assistants[..i];
      if r.assistants[i].id != "" {
        history := history[r.assistants[i].id := Placeholder(r.assistants[i], userId, r.now)];
      }
    }
    assert r.assistants[..|r.assistants|] == r.assistants;
    return Chat(owner, if ids != [] then Some(ids[0]) else if userId != "" then Some(userId) else None, history);
  }

  /** Builds the initial history in a dict, then inserts the chat. */
  method SaveNewChat(store: ChatStore, c: string, owner: string, r: Request) returns (inserted: bool)
    modifies store
    ensures store.State() == Apply(old(store.State()), Insert(c, NewChat(owner, r), r.now))
    ensures inserted <==> c !in old(store.chats)
  {
    var chat := BuildHistory(owner, r);
    inserted := store.InsertNewChat(c, chat, r.now);
  }

  /** The store has gone through `steps`, all of them upserts into chat c, and c's blob is now `chat`. */
  ghost predicate Upserts(before: Store, after: Store, steps: seq<Step>, c: string, chat: Chat) {
    && (forall s :: s in steps ==> s.Upsert? && s.chatId == c)
    && after == Run(before, steps)
    && c in before.chats && after.chats == before.chats[c := chat]
  }

  lemma {:induction false} RunConcat(s: Store, a: seq<Step>, b: seq<Step>)
    ensures Run(s, a + b) == Run(Run(s, a), b)
    decreases |a|
  {
    if a == [] {
      assert a + b == b;
    } else {
      assert (a + b)[1..] == a[1..] + b;
      RunConcat(Apply(s, a[0]), a[1..], b);
    }
  }

  lemma UpsertsConcat(s0: Store, s1: Store, s2: Store, a: seq<Step>, b: seq<Step>, c: string, chat1: Chat, chat2: Chat)
    requires Upserts(s0, s1, a, c, chat1) && Upserts(s1, s2, b, c, chat2)
    ensures Upserts(s0, s2, a + b, c, chat2)
  {
    RunConcat(s0, a, b);
  }

  lemma UpsertsOne(s: Store, c: string, id: string, m: Message, now: int)
    requires c in s.chats
    ensures var step := Step.Upsert(c, id, m, now); Upserts(s, Apply(s, step), [step], c, Put(s.chats[c], id, m))
  {
    var step := Step.Upsert(c, id, m, now);
    assert [step][1..] == [];
    assert Run(s, [step]) == Run(Apply(s, step), []);
  }

  lemma {:induction false} UpsertsMinted(s: Store, steps: seq<Step>)
    requires forall step :: step in steps ==> step.Upsert?
    ensures AllMinted(s, steps) && AllLossless(s, steps)
    decreases |steps|
  {
    if steps != [] {
      assert steps[0] in steps;
      UpsertsMinted(Apply(s, steps[0]), steps[1..]);
    }
  }

  /** Upserts never need an id minted, so any run of them keeps every row a projection of its message. */
  lemma {:induction false} UpsertsAgree(before: Store, after: Store, steps: seq<Step>, c: string, chat: Chat)
    requires Upserts(before, after, steps, c, chat) && Keyed(before) && Agrees(before)
    ensures Keyed(after) && Agrees(after)
  {
    UpsertsMinted(before, steps);
    RunKeepsAgreement(before, steps);
  }

  method SaveParentLink(store: ChatStore, c: string, parent: Option<string>, userId: string, now: int)
    returns (ghost steps: seq<Step>)
    requires c in store.chats
    modifies store
    ensures Upserts(old(store.State()), store.State(), steps, c, LinkToParent(old(store.chats[c]), parent, userId))
  {
    steps := [];
    if parent.Some? && parent.value in store.chats[c].messages {
      var grandparent := store.chats[c].messages[parent.value];
      var kids := ChildList(grandparent);
      if grandparent != map[] && Str(userId) !in kids {
        var m: Message := map[ChildrenIds := List(kids + [Str(userId)])];
        UpsertsOne(store.State(), c, parent.value, m, now);
        steps := [Step.Upsert(c, parent.value, m, now)];
        var found := store.UpsertMessageToChat(c, parent.value, m, now);
      }
    }
  }

  method AllAppended(kids: seq<Value>, ids: seq<string>) returns (all: seq<Value>)
    ensures all == AppendMissing(kids, ids)
  {
    all := kids;
    for i := 0 to |ids|
      invariant AppendMissing(kids, ids) == AppendMissing(all, ids[i..])
    {
      assert ids[i..][1..] == ids[i + 1..];
      if Str(ids[i]) !in all {
        all := all + [Str(ids[i])];
      }
    }
  }

  method SaveAssistantLinks(store: ChatStore, c: string, userId: string, ids: seq<string>, now: int)
    returns (ghost steps: seq<Step>)
    requires c in store.chats
    modifies store
    ensures Upserts(old(store.State()), store.State(), steps, c, LinkAssistants(old(store.chats[c]), userId, ids))
  {
    steps := [];
    if ids != [] && userId in store.chats[c].messages {
      var stored := store.chats[c].messages[userId];
      if stored != map[] {
        var kids := AllAppended(ChildList(stored), ids);
        var m: Message := map[ChildrenIds := List(kids)];
        UpsertsOne(store.State(), c, userId, m, now);
        steps := [Step.Upsert(c, userId, m, now)];
        var found := store.UpsertMessageToChat(c, userId, m, now);
      }
    }
  }

  method SavePlaceholders(store: ChatStore, c: string, r: Request) returns (ghost steps: seq<Step>)
    requires c in store.chats
    modifies store
    ensures Upserts(old(store.State()), store.State(), steps, c,
                    PutAssistants(old(store.chats[c]), r.assistants, UserId(r), r.now))
  {
    steps := [];
    ghost var s0 := store.State();
    for i := 0 to |r.assistants|
      invariant Upserts(s0, store.State(), steps, c, PutAssistants(s0.chats[c], r.assistants[..i], UserId(r), r.now))
    {
      assert r.assistants[..i + 1][..i] == r.assistants[..i];
      var a := r.assistants[i];
      if a.id != "" {
        ghost var s1 := store.State();
        var m := Placeholder(a, UserId(r), r.now);
        UpsertsOne(s1, c, a.id, m, r.now);
        var found := store.UpsertMessageToChat(c, a.id, m, r.now);
        UpsertsConcat(s0, s1, store.State(), steps, [Step.Upsert(c, a.id, m, r.now)], c,
                      s1.chats[c], Put(s1.chats[c], a.id, m));
        steps := steps + [Step.Upsert(c, a.id, m, r.now)];
      }
    }
    assert r.assistants[..|r.assistants|] == r.assistants;
  }

  method SaveUserMessage(store: ChatStore, c: string, r: Request) returns (ghost steps: seq<Step>)
    requires c in store.chats
    modifies store
    ensures Upserts(old(store.State()), store.State(), steps, c, WithUserMessage(old(store.chats[c]), r))
  {
    var userId := UserId(r);
    steps := [];
    if userId != "" {
      ghost var s0 := store.State();
      UpsertsOne(s0, c, userId, r.user.value, r.now);
      var found := store.UpsertMessageToChat(c, userId, r.user.value, r.now);
      steps := [Step.Upsert(c, userId, r.user.value, r.now)];
      ghost var s1 := store.State();
      ghost var more := SaveParentLink(store, c, ParentRef(r.user.value), userId, r.now);
      ghost var s2 := store.State();
      UpsertsConcat(s0, s1, s2, steps, more, c, s1.chats[c], s2.chats[c]);
      steps := steps + more;
      more := SaveAssistantLinks(store, c, userId, AssistantIds(r.assistants), r.now);
      UpsertsConcat(s0, s2, store.State(), steps, more, c, s2.chats[c], store.chats[c]);
      steps := steps + more;
    }
  }

  /**
   A follow-up's writes: user message, parent link, assistant links, then the placeholders. They are a
   run of upserts into the one chat, and leave its blob as FollowUp says.
   */
  method SaveFollowUp(store: ChatStore, c: string, r: Request) returns (ghost steps: seq<Step>)
    requires c in store.chats
    modifies store
    ensures Upserts(old(store.State()), store.State(), steps, c, FollowUp(old(store.chats[c]), r))
  {
    ghost var s0 := store.State();
    steps := SaveUserMessage(store, c, r);
    ghost var s1 := store.State();
    ghost var more := SavePlaceholders(store, c, r);
    UpsertsConcat(s0, s1, store.State(), steps, more, c, s1.chats[c], FollowUp(s0.chats[c], r));
    steps := steps + more;
  }
}
