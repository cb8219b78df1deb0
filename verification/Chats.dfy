/**
 A chat's history lives twice: as the messages of the chat's JSON blob and as chat_message rows. This
 module models the dual writes that keep the rows a projection of the blob, the reconciliation after
 the blob is replaced, and the reads that heal missing rows.
 */
module Chats {
  import opened Options
  import opened Seqs
  import opened Sets
  import opened Json
  import opened ChatRows

  datatype Chat = Chat(userId: string, currentId: Option<string>, messages: map<string, Message>)

  datatype Store = Store(chats: map<string, Chat>, rows: Table)

  predicate RoleBearing(m: Message) {
    Truthy(Look(m, Role))
  }

  // ---------- backfill ----------

  /** key is the row key of a role-bearing message of the batch. */
  predicate Targets(chatId: string, messages: map<string, Message>, key: string) {
    var m := MessageId(chatId, key);
    key == Composite(chatId, m) && m in messages && RoleBearing(messages[m])
  }

  function TargetKeys(chatId: string, messages: map<string, Message>): set<string> {
    set m | m in messages && RoleBearing(messages[m]) :: Composite(chatId, m)
  }

  lemma TargetKeysAre(chatId: string, messages: map<string, Message>, key: string)
    ensures key in TargetKeys(chatId, messages) <==> Targets(chatId, messages, key)
  {
    if key in TargetKeys(chatId, messages) {
      var m :| m in messages && RoleBearing(messages[m]) && key == Composite(chatId, m);
      MessageIdRecovers(chatId, m);
    }
  }

  /** The rows after every role-bearing message of the batch has been upserted. */
  function Backfilled(rows: Table, chatId: string, userId: string, messages: map<string, Message>, now: int): Table {
    map key | key in rows.Keys + TargetKeys(chatId, messages) ::
      TargetKeysAre(chatId, messages, key);
      if Targets(chatId, messages, key)
      then UpsertedRow(rows, MessageId(chatId, key), chatId, userId, messages[MessageId(chatId, key)], now)
      else rows[key]
  }

  lemma BackfilledAt(rows: Table, chatId: string, userId: string, messages: map<string, Message>, now: int, key: string)
    ensures var rows' := Backfilled(rows, chatId, userId, messages, now);
            && (key in rows' <==> key in rows || Targets(chatId, messages, key))
            && (key in rows' && !Targets(chatId, messages, key) ==> rows'[key] == rows[key])
            && (Targets(chatId, messages, key) ==>
                  rows'[key] == UpsertedRow(rows, MessageId(chatId, key), chatId, userId,
                                            messages[MessageId(chatId, key)], now))
  {
    TargetKeysAre(chatId, messages, key);
  }

  lemma TargetsStep(chatId: string, done: map<string, Message>, id: string, m: Message, key: string)
    requires id !in done
    ensures Targets(chatId, done[id := m], key)
       <==> Targets(chatId, done, key) || (key == Composite(chatId, id) && RoleBearing(m))
    ensures MessageId(chatId, Composite(chatId, id)) == id && !Targets(chatId, done, Composite(chatId, id))
  {
    MessageIdRecovers(chatId, id);
  }

  /** One more message in the batch is one more upsert. */
  lemma BackfilledOne(rows: Table, chatId: string, userId: string, done: map<string, Message>, id: string,
                      m: Message, now: int)
    requires id !in done
    ensures Backfilled(rows, chatId, userId, done[id := m], now)
         == if RoleBearing(m) then Upserted(Backfilled(rows, chatId, userId, done, now), id, chatId, userId, m, now)
            else Backfilled(rows, chatId, userId, done, now)
  {
    var before := Backfilled(rows, chatId, userId, done, now);
    var after := Backfilled(rows, chatId, userId, done[id := m], now);
    var expected := if RoleBearing(m) then Upserted(before, id, chatId, userId, m, now) else before;
    forall k
      ensures k in after <==> k in expected
      ensures k in after ==> after[k] == expected[k]
    {
      TargetsStep(chatId, done, id, m, k);
      BackfilledAt(rows, chatId, userId, done, now, k);
      BackfilledAt(rows, chatId, userId, done[id := m], now, k);
    }
  }

  // ---------- what each operation does ----------

  function Merged(messages: map<string, Message>, id: string, m: Message): Message {
    if id in messages then messages[id] + m else m
  }

  /** A message merged into the blob becomes the current one. */
  function Put(chat: Chat, id: string, m: Message): Chat {
    chat.(messages := chat.messages[id := Merged(chat.messages, id, m)], currentId := Some(id))
  }

  datatype Step =
    | Insert(chatId: string, chat: Chat, now: int)
    | Upsert(chatId: string, messageId: string, message: Message, now: int)
    | ReadMap(chatId: string, now: int)
    | Save(chatId: string, currentId: Option<string>, messages: map<string, Message>, now: int)

  /** The message ids for which the chat has rows. */
  function RowIds(rows: Table, chatId: string): set<string> {
    set k | k in rows && rows[k].chatId == chatId :: MessageId(chatId, k)
  }

  /** Parents that a chat's rows name but that have no row themselves. */
  function Unresolved(rows: Table, chatId: string): set<string> {
    set k | k in rows && rows[k].chatId == chatId && AsRef(rows[k].fields.parentId).Some?
            && AsRef(rows[k].fields.parentId).value !in RowIds(rows, chatId) :: AsRef(rows[k].fields.parentId).value
  }

  function Only(messages: map<string, Message>, ids: set<string>): map<string, Message> {
    map m | m in messages && m in ids :: messages[m]
  }

  /** The batch a map read backfills: the whole blob when there are no rows, else the missing parents. */
  function Missing(s: Store, chatId: string): map<string, Message> {
    if chatId !in s.chats then map[]
    else if RowIds(s.rows, chatId) == {} then s.chats[chatId].messages
    else Only(s.chats[chatId].messages, Unresolved(s.rows, chatId))
  }

  function Healed(s: Store, chatId: string, now: int): Table {
    Backfilled(s.rows, chatId, if chatId in s.chats then s.chats[chatId].userId else "", Missing(s, chatId), now)
  }

  /** Backfill with the whole blob, then drop the chat's rows whose message is not in it. */
  function Reconciled(rows: Table, c: string, userId: string, messages: map<string, Message>, now: int): Table {
    var filled := Backfilled(rows, c, userId, messages, now);
    map k | k in filled && (filled[k].chatId == c ==> MessageId(c, k) in messages) :: filled[k]
  }

  function Apply(s: Store, step: Step): Store {
    match step
    case Insert(c, chat, now) =>
      if c in s.chats then s
      else Store(s.chats[c := chat], Backfilled(s.rows, c, chat.userId, chat.messages, now))
    case Upsert(c, id, m, now) =>
      if c !in s.chats then s
      else
        Store(s.chats[c := Put(s.chats[c], id, m)],
              Upserted(s.rows, id, c, s.chats[c].userId, Merged(s.chats[c].messages, id, m), now))
    case ReadMap(c, now) => s.(rows := Healed(s, c, now))
    case Save(c, currentId, messages, now) =>
      if c !in s.chats then s
      else
        Store(s.chats[c := s.chats[c].(messages := messages, currentId := currentId)],
              if messages == map[] then s.rows else Reconciled(s.rows, c, s.chats[c].userId, messages, now))
  }

  // ---------- the invariants ----------

  /** Chat ids all have one length, as UUIDs do, and every row is keyed by its own chat's prefix. */
  ghost predicate Keyed(s: Store) {
    && (forall c, d :: c in s.chats && d in s.chats ==> |c| == |d|)
    && (forall k :: k in s.rows ==>
          s.rows[k].chatId in s.chats && k == Composite(s.rows[k].chatId, MessageId(s.rows[k].chatId, k)))
  }

  ghost predicate RowAgrees(s: Store, k: string)
    requires k in s.rows
  {
    var c := s.rows[k].chatId;
    var m := MessageId(c, k);
    c in s.chats && m in s.chats[c].messages && s.rows[k].fields == Project(s.chats[c].messages[m])
  }

  /** Every row is the projection of its blob message. */
  ghost predicate Agrees(s: Store) {
    forall k :: k in s.rows ==> RowAgrees(s, k)
  }

  ghost predicate Minted(s: Store, step: Step) {
    step.Insert? ==> forall c :: c in s.chats ==> |c| == |step.chatId|
  }

  lemma KeyOf(s: Store, c: string, m: string)
    requires Keyed(s) && c in s.chats && Composite(c, m) in s.rows
    ensures s.rows[Composite(c, m)].chatId == c && MessageId(c, Composite(c, m)) == m
  {
    var k := Composite(c, m);
    var d := s.rows[k].chatId;
    SameLengthInjective(c, m, d, MessageId(d, k));
    MessageIdRecovers(c, m);
  }

  lemma RowIdsAre(s: Store, c: string, m: string)
    requires Keyed(s) && c in s.chats
    ensures m in RowIds(s.rows, c) <==> Composite(c, m) in s.rows
  {
    if Composite(c, m) in s.rows {
      KeyOf(s, c, m);
    }
  }

  lemma BackfillKeepsKeyed(s: Store, c: string, userId: string, messages: map<string, Message>, now: int)
    requires Keyed(s) && c in s.chats
    ensures Keyed(s.(rows := Backfilled(s.rows, c, userId, messages, now)))
  {
    var rows' := Backfilled(s.rows, c, userId, messages, now);
    forall k | k in rows'
      ensures rows'[k].chatId in s.chats && k == Composite(rows'[k].chatId, MessageId(rows'[k].chatId, k))
    {
      BackfilledAt(s.rows, c, userId, messages, now, k);
      if Targets(c, messages, k) && k in s.rows {
        KeyOf(s, c, MessageId(c, k));
      }
    }
  }

  /** Backfilling with messages taken from the blob keeps every row a projection. */
  lemma BackfillKeepsAgreement(s: Store, c: string, userId: string, messages: map<string, Message>, now: int)
    requires Keyed(s) && Agrees(s) && c in s.chats
    requires forall m :: m in messages ==> m in s.chats[c].messages && s.chats[c].messages[m] == messages[m]
    ensures Agrees(s.(rows := Backfilled(s.rows, c, userId, messages, now)))
  {
    var s' := s.(rows := Backfilled(s.rows, c, userId, messages, now));
    forall k | k in s'.rows
      ensures RowAgrees(s', k)
    {
      BackfilledAt(s.rows, c, userId, messages, now, k);
      if k in s.rows { assert RowAgrees(s, k); }
      if Targets(c, messages, k) && k in s.rows {
        KeyOf(s, c, MessageId(c, k));
        UpdateIsProjection(messages[MessageId(c, k)], messages[MessageId(c, k)]);
      }
    }
  }

  lemma InsertKeeps(s: Store, step: Step)
    requires Keyed(s) && Agrees(s) && step.Insert? && Minted(s, step) && step.chatId !in s.chats
    ensures Keyed(Apply(s, step)) && Agrees(Apply(s, step))
  {
    var s1 := s.(chats := s.chats[step.chatId := step.chat]);
    assert Keyed(s1);
    forall k | k in s1.rows
      ensures RowAgrees(s1, k)
    {
      assert RowAgrees(s, k);
    }
    BackfillKeepsKeyed(s1, step.chatId, step.chat.userId, step.chat.messages, step.now);
    BackfillKeepsAgreement(s1, step.chatId, step.chat.userId, step.chat.messages, step.now);
  }

  lemma UpsertSelf(s: Store, step: Step)
    requires Keyed(s) && step.Upsert? && step.chatId in s.chats
    ensures var s', key := Apply(s, step), Composite(step.chatId, step.messageId);
            && s'.rows[key].chatId == step.chatId
            && MessageId(step.chatId, key) == step.messageId
            && (Agrees(s) ==> RowAgrees(s', key))
  {
    var c, id := step.chatId, step.messageId;
    var key := Composite(c, id);
    MessageIdRecovers(c, id);
    if key in s.rows {
      KeyOf(s, c, id);
      if Agrees(s) {
        assert RowAgrees(s, key);
        UpdateIsProjection(s.chats[c].messages[id], Apply(s, step).chats[c].messages[id]);
      }
    }
  }

  lemma UpsertOther(s: Store, step: Step, k: string)
    requires Keyed(s) && step.Upsert? && step.chatId in s.chats
    requires k in s.rows && k != Composite(step.chatId, step.messageId)
    ensures var s' := Apply(s, step);
            && k in s'.rows && s'.rows[k] == s.rows[k]
            && (RowAgrees(s, k) ==> RowAgrees(s', k))
  {
    var c, m := s.rows[k].chatId, MessageId(s.rows[k].chatId, k);
    assert k == Composite(c, m) && (c != step.chatId || m != step.messageId);
  }

  lemma UpsertKeepsAgreement(s: Store, step: Step)
    requires Keyed(s) && Agrees(s) && step.Upsert? && step.chatId in s.chats
    ensures Agrees(Apply(s, step))
  {
    var s' := Apply(s, step);
    UpsertSelf(s, step);
    forall k | k in s'.rows
      ensures RowAgrees(s', k)
    {
      if k != Composite(step.chatId, step.messageId) {
        UpsertOther(s, step, k);
        assert RowAgrees(s, k);
      }
    }
  }

  /** b is a with m's entries written over it. */
  ghost predicate Overwritten(a: Message, m: Message, b: Message) {
    && b.Keys == a.Keys + m.Keys
    && (forall f :: f in m ==> b[f] == m[f])
    && (forall f :: f in a && f !in m ==> b[f] == a[f])
  }

  /**
   An upsert writes the message's keys over the stored message's, makes it the current one, and brings its
   row, the owner's, into agreement with the result. No other message, chat or row changes.
   */
  lemma UpsertMeans(s: Store, step: Step)
    requires step.Upsert? && step.chatId in s.chats
    ensures var c, id, s' := step.chatId, step.messageId, Apply(s, step);
            var key, before, after := Composite(c, id), s.chats[c], s'.chats[c];
            && s'.chats == s.chats[c := after] && s'.rows == s.rows[key := s'.rows[key]]
            && after.userId == before.userId && after.currentId == Some(id)
            && after.messages == before.messages[id := after.messages[id]]
            && Overwritten(if id in before.messages then before.messages[id] else map[], step.message,
                           after.messages[id])
            && AgreesOnCarried(s'.rows[key].fields, after.messages[id])
            && IsOwnRow(RowAt(s.rows, key), s'.rows[key], c, before.userId, after.messages[id], step.now)
  {
    var c, id, s' := step.chatId, step.messageId, Apply(s, step);
    UpsertAgrees(s.rows, id, c, s.chats[c].userId, s'.chats[c].messages[id], step.now);
    assert s'.chats[c].messages[id] == Merged(s.chats[c].messages, id, step.message);
  }

  /** A save replaces the chat's messages and current message, and nothing else of the blob. */
  lemma SaveMeans(s: Store, step: Step)
    requires step.Save? && step.chatId in s.chats
    ensures Apply(s, step).chats
         == s.chats[step.chatId := Chat(s.chats[step.chatId].userId, step.currentId, step.messages)]
    ensures step.messages == map[] ==> Apply(s, step).rows == s.rows
  {
  }

  // ---------- reconciliation ----------

  lemma TargetAgrees(rows: Table, c: string, userId: string, messages: map<string, Message>, now: int, m: string)
    requires m in messages && RoleBearing(messages[m])
    ensures var rows', key := Backfilled(rows, c, userId, messages, now), Composite(c, m);
            && key in rows'
            && AgreesOnCarried(rows'[key].fields, messages[m])
            && IsOwnRow(RowAt(rows, key), rows'[key], c, userId, messages[m], now)
  {
    MessageIdRecovers(c, m);
    BackfilledAt(rows, c, userId, messages, now, Composite(c, m));
    UpsertAgrees(rows, m, c, userId, messages[m], now);
  }

  /**
   Whatever rows a chat had, reconciling with a blob leaves rows for blob messages only, one for every
   role-bearing message, agreeing with it on every tracked key it carries; a message without a role
   keeps the row it had, and other chats' rows are untouched.
   */
  lemma ReconcileMeans(s: Store, c: string, userId: string, messages: map<string, Message>, now: int, m: string)
    requires Keyed(s) && c in s.chats
    ensures var rows', key := Reconciled(s.rows, c, userId, messages, now), Composite(c, m);
            && (key in rows' <==> m in messages && (RoleBearing(messages[m]) || key in s.rows))
            && (m in messages && RoleBearing(messages[m]) ==>
                  && AgreesOnCarried(rows'[key].fields, messages[m])
                  && IsOwnRow(RowAt(s.rows, key), rows'[key], c, userId, messages[m], now))
            && (m in messages && !RoleBearing(messages[m]) && key in s.rows ==> rows'[key] == s.rows[key])
  {
    var key := Composite(c, m);
    MessageIdRecovers(c, m);
    BackfilledAt(s.rows, c, userId, messages, now, key);
    if key in s.rows { KeyOf(s, c, m); }
    if m in messages && RoleBearing(messages[m]) { TargetAgrees(s.rows, c, userId, messages, now, m); }
  }

  lemma ReconcileKeepsOthers(s: Store, c: string, userId: string, messages: map<string, Message>, now: int, k: string)
    requires Keyed(s) && c in s.chats
    requires k in s.rows && s.rows[k].chatId != c
    ensures var rows' := Reconciled(s.rows, c, userId, messages, now); k in rows' && rows'[k] == s.rows[k]
  {
    BackfilledAt(s.rows, c, userId, messages, now, k);
    if Targets(c, messages, k) { KeyOf(s, c, MessageId(c, k)); }
  }

  lemma ReconcileKeepsKeyed(s: Store, c: string, userId: string, messages: map<string, Message>, now: int)
    requires Keyed(s) && c in s.chats
    ensures Keyed(s.(rows := Reconciled(s.rows, c, userId, messages, now)))
    ensures RowIds(Reconciled(s.rows, c, userId, messages, now), c) <= messages.Keys
  {
    BackfillKeepsKeyed(s, c, userId, messages, now);
  }

  // ---------- full saves ----------

  /**
   When reconciling leaves a message's row the projection of the message: for a role-bearing message,
   when every column it does not carry held its default before; for any other, when the row already
   was that projection, since it is not touched.
   */
  ghost predicate Syncs(t: Tracked, m: Message) {
    if RoleBearing(m) then UncarriedDefault(t, m) else t == Project(m)
  }

  /** Reconciliation syncs a message's row exactly when the row it had allows it. */
  lemma SyncedIff(s: Store, c: string, userId: string, messages: map<string, Message>, now: int, m: string)
    requires Keyed(s) && c in s.chats && m in messages
    ensures var rows', key := Reconciled(s.rows, c, userId, messages, now), Composite(c, m);
            key in rows' && rows'[key].fields == Project(messages[m])
            <==> if key in s.rows then Syncs(s.rows[key].fields, messages[m]) else RoleBearing(messages[m])
  {
    var key := Composite(c, m);
    MessageIdRecovers(c, m);
    BackfilledAt(s.rows, c, userId, messages, now, key);
    if key in s.rows {
      KeyOf(s, c, m);
      UpdatedIsProjectionIff(s.rows[key].fields, messages[m]);
    }
  }

  /** A column the edited message no longer has survives reconciliation. */
  lemma StaleColumnSurvives(s: Store, now: int)
    requires Keyed(s) && "c" in s.chats && Composite("c", "m") in s.rows
    requires s.rows[Composite("c", "m")].fields
          == Project(map[Role := Str("assistant"), Sources := List([Str("page")])])
    ensures var messages: map<string, Message> := map["m" := map[Role := Str("assistant")]];
            var rows' := Reconciled(s.rows, "c", "u", messages, now);
            Composite("c", "m") in rows' && rows'[Composite("c", "m")].fields != Project(messages["m"])
  {
    var messages: map<string, Message> := map["m" := map[Role := Str("assistant")]];
    assert s.rows[Composite("c", "m")].fields.sources == List([Str("page")]);
    SyncedIff(s, "c", "u", messages, now, "m");
    ReconcileMeans(s, "c", "u", messages, now, "m");
  }

  /** A save after which every row of the chat can be the projection of its message; any other step is lossless. */
  ghost predicate Lossless(s: Store, step: Step) {
    step.Save? && step.chatId in s.chats ==>
      if step.messages == map[] then RowIds(s.rows, step.chatId) == {}
      else forall m :: m in step.messages && Composite(step.chatId, m) in s.rows ==>
             Syncs(s.rows[Composite(step.chatId, m)].fields, step.messages[m])
  }

  /** The store after a save, at a row of the saved chat. */
  lemma SavedRow(s: Store, step: Step, k: string)
    requires Keyed(s) && step.Save? && step.chatId in s.chats && step.messages != map[]
    requires k in Apply(s, step).rows && Apply(s, step).rows[k].chatId == step.chatId
    ensures var m := MessageId(step.chatId, k);
            && k == Composite(step.chatId, m) && m in step.messages
            && (k in s.rows || RoleBearing(step.messages[m]))
            && (Apply(s, step).rows[k].fields == Project(step.messages[m])
                <==> k in s.rows ==> Syncs(s.rows[k].fields, step.messages[m]))
            && (RoleBearing(step.messages[m]) ==> AgreesOnCarried(Apply(s, step).rows[k].fields, step.messages[m]))
  {
    var c, m, userId := step.chatId, MessageId(step.chatId, k), s.chats[step.chatId].userId;
    ReconcileKeepsKeyed(s, c, userId, step.messages, step.now);
    SyncedIff(s, c, userId, step.messages, step.now, m);
    ReconcileMeans(s, c, userId, step.messages, step.now, m);
  }

  lemma ReconciledElsewhere(s: Store, c: string, userId: string, messages: map<string, Message>, now: int, k: string)
    requires Keyed(s) && c in s.chats
    requires var rows' := Reconciled(s.rows, c, userId, messages, now); k in rows' && rows'[k].chatId != c
    ensures k in s.rows && Reconciled(s.rows, c, userId, messages, now)[k] == s.rows[k]
  {
    BackfilledAt(s.rows, c, userId, messages, now, k);
    if Targets(c, messages, k) && k in s.rows { KeyOf(s, c, MessageId(c, k)); }
  }

  /** Rows of other chats neither change nor lose their message. */
  lemma SavedOther(s: Store, step: Step, k: string)
    requires Keyed(s) && step.Save? && step.chatId in s.chats
    requires k in Apply(s, step).rows && Apply(s, step).rows[k].chatId != step.chatId
    ensures k in s.rows && Apply(s, step).rows[k] == s.rows[k]
    ensures s.rows[k].chatId in s.chats ==> Apply(s, step).chats[s.rows[k].chatId] == s.chats[s.rows[k].chatId]
  {
    if step.messages != map[] {
      ReconciledElsewhere(s, step.chatId, s.chats[step.chatId].userId, step.messages, step.now, k);
    }
  }

  lemma UpsertKeepsKeyed(s: Store, step: Step)
    requires Keyed(s) && step.Upsert? && step.chatId in s.chats
    ensures Keyed(Apply(s, step))
  {
    var s' := Apply(s, step);
    var key := Composite(step.chatId, step.messageId);
    UpsertSelf(s, step);
    forall k | k in s'.rows
      ensures s'.rows[k].chatId in s'.chats && k == Composite(s'.rows[k].chatId, MessageId(s'.rows[k].chatId, k))
    {
      if k != key { UpsertOther(s, step, k); }
    }
    assert s'.chats.Keys == s.chats.Keys;
  }

  lemma NothingToBackfill(rows: Table, c: string, userId: string, now: int)
    ensures Backfilled(rows, c, userId, map[], now) == rows
  {
    forall k
      ensures k in Backfilled(rows, c, userId, map[], now) <==> k in rows
      ensures k in rows ==> Backfilled(rows, c, userId, map[], now)[k] == rows[k]
    {
      BackfilledAt(rows, c, userId, map[], now, k);
    }
  }

  function Heal(s: Store, c: string, now: int): Store {
    s.(rows := Healed(s, c, now))
  }

  lemma HealKeepsKeyed(s: Store, c: string, now: int)
    requires Keyed(s)
    ensures Keyed(Heal(s, c, now))
  {
    if c in s.chats {
      BackfillKeepsKeyed(s, c, s.chats[c].userId, Missing(s, c), now);
    } else {
      NothingToBackfill(s.rows, c, "", now);
    }
  }

  lemma SaveKeepsKeyed(s: Store, step: Step)
    requires Keyed(s) && step.Save? && step.chatId in s.chats
    ensures Keyed(Apply(s, step))
  {
    ReconcileKeepsKeyed(s, step.chatId, s.chats[step.chatId].userId, step.messages, step.now);
    assert Apply(s, step).chats.Keys == s.chats.Keys;
  }

  lemma StepKeepsKeyed(s: Store, step: Step)
    requires Keyed(s) && Minted(s, step)
    ensures Keyed(Apply(s, step))
  {
    match step
    case Insert(c, chat, now) =>
      if c !in s.chats {
        BackfillKeepsKeyed(s.(chats := s.chats[c := chat]), c, chat.userId, chat.messages, now);
      }
    case Upsert(c, _, _, _) => if c in s.chats { UpsertKeepsKeyed(s, step); }
    case ReadMap(c, now) => HealKeepsKeyed(s, c, now);
    case Save(c, _, _, _) => if c in s.chats { SaveKeepsKeyed(s, step); }
  }

  lemma SaveReconciles(s: Store, step: Step)
    requires step.Save? && step.chatId in s.chats && step.messages != map[]
    ensures Apply(s, step).rows
         == Reconciled(s.rows, step.chatId, s.chats[step.chatId].userId, step.messages, step.now)
  {
  }

  lemma AgreementNeedsSync(s: Store, step: Step, m: string)
    requires Keyed(s) && step.Save? && step.chatId in s.chats && Agrees(Apply(s, step))
    requires m in step.messages && Composite(step.chatId, m) in s.rows
    ensures Syncs(s.rows[Composite(step.chatId, m)].fields, step.messages[m])
  {
    var s', c, key := Apply(s, step), step.chatId, Composite(step.chatId, m);
    KeyOf(s, c, m);
    assert key in s'.rows by {
      SaveReconciles(s, step);
      ReconcileMeans(s, c, s.chats[c].userId, step.messages, step.now, m);
    }
    SaveKeepsKeyed(s, step);
    KeyOf(s', c, m);
    assert RowAgrees(s', key);
    SavedRow(s, step, key);
  }

  lemma EmptiedRow(s: Store, step: Step, k: string)
    requires Keyed(s) && Agrees(s) && step.Save? && step.chatId in s.chats && step.messages == map[] && k in s.rows
    ensures k in Apply(s, step).rows && (RowAgrees(Apply(s, step), k) <==> s.rows[k].chatId != step.chatId)
  {
    assert RowAgrees(s, k);
  }

  lemma EmptySaveAgreesIff(s: Store, step: Step)
    requires Keyed(s) && Agrees(s) && step.Save? && step.chatId in s.chats && step.messages == map[]
    ensures Agrees(Apply(s, step)) <==> RowIds(s.rows, step.chatId) == {}
  {
    var s', c := Apply(s, step), step.chatId;
    forall k | k in s.rows
      ensures RowAgrees(s', k) <==> s.rows[k].chatId != c
    {
      EmptiedRow(s, step, k);
    }
    if m :| m in RowIds(s.rows, c) {
      var k :| k in s.rows && s.rows[k].chatId == c && MessageId(c, k) == m;
      assert !RowAgrees(s', k);
    } else {
      assert forall k :: k in s.rows && s.rows[k].chatId == c ==> MessageId(c, k) in RowIds(s.rows, c);
    }
  }

  /** A full save keeps every row the projection of its message exactly when it is lossless. */
  lemma SaveKeepsAgreementIff(s: Store, step: Step)
    requires Keyed(s) && Agrees(s) && step.Save? && step.chatId in s.chats
    ensures Keyed(Apply(s, step))
    ensures Agrees(Apply(s, step)) <==> Lossless(s, step)
  {
    var s', c, messages := Apply(s, step), step.chatId, step.messages;
    StepKeepsKeyed(s, step);
    if messages == map[] {
      EmptySaveAgreesIff(s, step);
    } else {
      if Lossless(s, step) {
        forall k | k in s'.rows
          ensures RowAgrees(s', k)
        {
          if s'.rows[k].chatId == c { SavedRow(s, step, k); } else { SavedOther(s, step, k); assert RowAgrees(s, k); }
        }
      }
      if Agrees(s') {
        forall m | m in messages && Composite(c, m) in s.rows
          ensures Syncs(s.rows[Composite(c, m)].fields, messages[m])
        {
          AgreementNeedsSync(s, step, m);
        }
      }
    }
  }

  // ---------- runs ----------

  lemma MissingIsBlob(s: Store, c: string, m: string)
    requires m in Missing(s, c)
    ensures c in s.chats && m in s.chats[c].messages && s.chats[c].messages[m] == Missing(s, c)[m]
  {
  }

  lemma ReadKeeps(s: Store, c: string, now: int)
    requires Keyed(s) && Agrees(s)
    ensures Keyed(Apply(s, ReadMap(c, now))) && Agrees(Apply(s, ReadMap(c, now)))
  {
    if c in s.chats {
      var batch := Missing(s, c);
      forall m | m in batch
        ensures m in s.chats[c].messages && s.chats[c].messages[m] == batch[m]
      {
        MissingIsBlob(s, c, m);
      }
      BackfillKeepsKeyed(s, c, s.chats[c].userId, batch, now);
      BackfillKeepsAgreement(s, c, s.chats[c].userId, batch, now);
    } else {
      NothingToBackfill(s.rows, c, "", now);
    }
  }

  lemma StepKeepsAgreement(s: Store, step: Step)
    requires Keyed(s) && Agrees(s) && Minted(s, step) && Lossless(s, step)
    ensures Keyed(Apply(s, step)) && Agrees(Apply(s, step))
  {
    match step
    case Insert(c, _, _) => if c !in s.chats { InsertKeeps(s, step); }
    case Upsert(c, _, _, _) =>
      if c in s.chats { UpsertKeepsAgreement(s, step); UpsertKeepsKeyed(s, step); }
    case ReadMap(c, now) => ReadKeeps(s, c, now);
    case Save(c, _, _, _) => if c in s.chats { SaveKeepsAgreementIff(s, step); }
  }

  function Run(s: Store, steps: seq<Step>): Store
    decreases |steps|
  {
    if steps == [] then s else Run(Apply(s, steps[0]), steps[1..])
  }

  ghost predicate AllMinted(s: Store, steps: seq<Step>)
    decreases |steps|
  {
    steps != [] ==> Minted(s, steps[0]) && AllMinted(Apply(s, steps[0]), steps[1..])
  }

  ghost predicate AllLossless(s: Store, steps: seq<Step>)
    decreases |steps|
  {
    steps != [] ==> Lossless(s, steps[0]) && AllLossless(Apply(s, steps[0]), steps[1..])
  }

  /** Rows and blob agree now and after every step. */
  ghost predicate AlwaysAgrees(s: Store, steps: seq<Step>)
    decreases |steps|
  {
    Agrees(s) && (steps != [] ==> AlwaysAgrees(Apply(s, steps[0]), steps[1..]))
  }

  /**
   Over any run of chat inserts, message upserts, map reads and full saves, every row stays the
   projection of its blob message exactly as long as every save is lossless.
   */
  lemma {:induction false} RunAgreesIff(s: Store, steps: seq<Step>)
    requires Keyed(s) && Agrees(s) && AllMinted(s, steps)
    ensures AlwaysAgrees(s, steps) <==> AllLossless(s, steps)
    decreases |steps|
  {
    if steps != [] {
      StepKeepsKeyed(s, steps[0]);
      if Lossless(s, steps[0]) {
        StepKeepsAgreement(s, steps[0]);
        RunAgreesIff(Apply(s, steps[0]), steps[1..]);
      } else {
        SaveKeepsAgreementIff(s, steps[0]);
        assert !Agrees(Apply(s, steps[0]));
      }
    }
  }

  /** In particular no run of inserts, upserts and reads ever breaks the agreement. */
  lemma {:induction false} RunKeepsAgreement(s: Store, steps: seq<Step>)
    requires Keyed(s) && Agrees(s) && AllMinted(s, steps) && AllLossless(s, steps)
    ensures Keyed(Run(s, steps)) && Agrees(Run(s, steps))
    decreases |steps|
  {
    if steps != [] {
      StepKeepsAgreement(s, steps[0]);
      RunKeepsAgreement(Apply(s, steps[0]), steps[1..]);
    }
  }

  // ---------- usage only grows ----------

  function UsageKeys(rows: Table, k: string): set<string> {
    if k in rows && rows[k].usage.Some? then rows[k].usage.value.Keys else {}
  }

  /** A full save that no longer has the row's message. */
  ghost predicate Drops(s: Store, step: Step, k: string) {
    && step.Save? && step.chatId in s.chats && step.messages != map[]
    && k in s.rows && s.rows[k].chatId == step.chatId && MessageId(step.chatId, k) !in step.messages
  }

  ghost predicate NeverDropped(s: Store, steps: seq<Step>, k: string)
    decreases |steps|
  {
    steps != [] ==> !Drops(s, steps[0], k) && NeverDropped(Apply(s, steps[0]), steps[1..], k)
  }

  lemma UpsertKeepsUsage(rows: Table, id: string, c: string, userId: string, m: Message, now: int, k: string)
    ensures UsageKeys(rows, k) <= UsageKeys(Upserted(rows, id, c, userId, m, now), k)
  {
    UpsertAgrees(rows, id, c, userId, m, now);
  }

  lemma BackfillKeepsUsage(rows: Table, c: string, userId: string, messages: map<string, Message>, now: int, k: string)
    ensures UsageKeys(rows, k) <= UsageKeys(Backfilled(rows, c, userId, messages, now), k)
    ensures k in rows ==> k in Backfilled(rows, c, userId, messages, now)
  {
    BackfilledAt(rows, c, userId, messages, now, k);
  }

  /** Reconciling keeps the backfilled row of every message that is still there, and every other chat's row. */
  lemma ReconciledAt(s: Store, c: string, userId: string, messages: map<string, Message>, now: int, k: string)
    requires Keyed(s) && c in s.chats && k in s.rows
    requires s.rows[k].chatId == c ==> MessageId(c, k) in messages
    ensures var filled := Backfilled(s.rows, c, userId, messages, now);
            var rows' := Reconciled(s.rows, c, userId, messages, now);
            k in filled && k in rows' && rows'[k] == filled[k] && filled[k].chatId == s.rows[k].chatId
  {
    BackfilledAt(s.rows, c, userId, messages, now, k);
    if Targets(c, messages, k) { KeyOf(s, c, MessageId(c, k)); }
  }

  lemma SaveKeepsUsage(s: Store, step: Step, k: string)
    requires Keyed(s) && step.Save? && step.chatId in s.chats && step.messages != map[]
    requires k in s.rows && !Drops(s, step, k)
    ensures k in Apply(s, step).rows && UsageKeys(s.rows, k) <= UsageKeys(Apply(s, step).rows, k)
  {
    var c, userId := step.chatId, s.chats[step.chatId].userId;
    SaveReconciles(s, step);
    BackfillKeepsUsage(s.rows, c, userId, step.messages, step.now, k);
    ReconciledAt(s, c, userId, step.messages, step.now, k);
  }

  lemma StepKeepsUsage(s: Store, step: Step, k: string)
    requires Keyed(s) && !Drops(s, step, k)
    ensures UsageKeys(s.rows, k) <= UsageKeys(Apply(s, step).rows, k)
    ensures k in s.rows ==> k in Apply(s, step).rows
  {
    match step
    case Insert(c, chat, now) => BackfillKeepsUsage(s.rows, c, chat.userId, chat.messages, now, k);
    case Upsert(c, id, m, now) =>
      if c in s.chats {
        UpsertKeepsUsage(s.rows, id, c, s.chats[c].userId, Merged(s.chats[c].messages, id, m), now, k);
      }
    case ReadMap(c, now) =>
      BackfillKeepsUsage(s.rows, c, if c in s.chats then s.chats[c].userId else "", Missing(s, c), now, k);
    case Save(c, _, messages, _) =>
      if c in s.chats && messages != map[] && k in s.rows { SaveKeepsUsage(s, step, k); }
  }

  /** A step loses a row exactly when it is such a save. */
  lemma LosesRowIff(s: Store, step: Step, k: string)
    requires Keyed(s) && k in s.rows
    ensures k !in Apply(s, step).rows <==> Drops(s, step, k)
  {
    if Drops(s, step, k) {
      BackfilledAt(s.rows, step.chatId, s.chats[step.chatId].userId, step.messages, step.now, k);
    } else {
      StepKeepsUsage(s, step, k);
    }
  }

  /** The row is there now and after every step. */
  ghost predicate AlwaysHas(s: Store, steps: seq<Step>, k: string)
    decreases |steps|
  {
    k in s.rows && (steps != [] ==> AlwaysHas(Apply(s, steps[0]), steps[1..], k))
  }

  /** Over any run a row is lost exactly by a full save that no longer has its message. */
  lemma {:induction false} RunKeepsRowIff(s: Store, steps: seq<Step>, k: string)
    requires Keyed(s) && AllMinted(s, steps) && k in s.rows
    ensures AlwaysHas(s, steps, k) <==> NeverDropped(s, steps, k)
    decreases |steps|
  {
    if steps != [] {
      LosesRowIff(s, steps[0], k);
      StepKeepsKeyed(s, steps[0]);
      if k in Apply(s, steps[0]).rows {
        RunKeepsRowIff(Apply(s, steps[0]), steps[1..], k);
      }
    }
  }

  /** A run loses a row, or a usage key of one, only by a full save that no longer has its message. */
  lemma {:induction false} RunKeepsUsage(s: Store, steps: seq<Step>, k: string)
    requires Keyed(s) && AllMinted(s, steps) && NeverDropped(s, steps, k)
    ensures UsageKeys(s.rows, k) <= UsageKeys(Run(s, steps).rows, k)
    ensures k in s.rows ==> k in Run(s, steps).rows
    decreases |steps|
  {
    if steps != [] {
      StepKeepsKeyed(s, steps[0]);
      StepKeepsUsage(s, steps[0], k);
      RunKeepsUsage(Apply(s, steps[0]), steps[1..], k);
    }
  }

  // ---------- self-healing ----------

  /** The role-bearing blob messages that have no row. */
  function Uncovered(s: Store, c: string): set<string> {
    if c !in s.chats then {}
    else set m | m in s.chats[c].messages && RoleBearing(s.chats[c].messages[m]) && Composite(c, m) !in s.rows
  }

  lemma MissingHasNoRow(s: Store, c: string, m: string)
    requires Keyed(s) && m in Missing(s, c)
    ensures Composite(c, m) !in s.rows
  {
    RowIdsAre(s, c, m);
  }

  ghost predicate HasNoRows(rows: Table, c: string) {
    forall k :: k in rows ==> rows[k].chatId != c
  }

  /** Some row of the chat names m as its parent. */
  ghost predicate IsParent(rows: Table, c: string, m: string) {
    m != "" && exists k :: k in rows && rows[k].chatId == c && rows[k].fields.parentId == Str(m)
  }

  /** A role-bearing blob message without a row, in a chat without rows or one where some row names it as parent. */
  ghost predicate Wanted(s: Store, c: string, m: string) {
    && c in s.chats && m in s.chats[c].messages
    && Role in s.chats[c].messages[m] && Truthy(s.chats[c].messages[m][Role])
    && Composite(c, m) !in s.rows
    && (HasNoRows(s.rows, c) || IsParent(s.rows, c, m))
  }

  lemma NoRowIdsIff(rows: Table, c: string)
    ensures RowIds(rows, c) == {} <==> HasNoRows(rows, c)
  {
    assert forall k :: k in rows && rows[k].chatId == c ==> MessageId(c, k) in RowIds(rows, c);
  }

  lemma UnresolvedIff(rows: Table, c: string, m: string)
    ensures m in Unresolved(rows, c) <==> m !in RowIds(rows, c) && IsParent(rows, c, m)
  {
  }

  lemma WantedIff(s: Store, c: string, m: string)
    requires Keyed(s)
    ensures Wanted(s, c, m) <==> m in Missing(s, c) && RoleBearing(Missing(s, c)[m])
  {
    NoRowIdsIff(s.rows, c);
    UnresolvedIff(s.rows, c, m);
    if c in s.chats {
      RowIdsAre(s, c, m);
    }
  }

  /**
   A read never changes an existing row, and gives one to exactly the messages that want it: the owner's, and
   the projection of the message.
   */
  lemma HealingAdds(s: Store, c: string, now: int, k: string)
    requires Keyed(s)
    ensures var rows' := Healed(s, c, now);
            && (k in s.rows ==> k in rows' && rows'[k] == s.rows[k])
            && (k in rows' && k !in s.rows <==> k == Composite(c, MessageId(c, k)) && Wanted(s, c, MessageId(c, k)))
            && (k in rows' && k !in s.rows ==>
                  var m := s.chats[c].messages[MessageId(c, k)];
                  && AgreesOnCarried(rows'[k].fields, m) && UncarriedDefault(rows'[k].fields, m)
                  && IsOwnRow(None, rows'[k], c, s.chats[c].userId, m, now))
  {
    var userId := if c in s.chats then s.chats[c].userId else "";
    var id := MessageId(c, k);
    WantedIff(s, c, id);
    BackfilledAt(s.rows, c, userId, Missing(s, c), now, k);
    if Targets(c, Missing(s, c), k) {
      MissingHasNoRow(s, c, id);
      MissingIsBlob(s, c, id);
      UpsertAgrees(s.rows, id, c, userId, s.chats[c].messages[id], now);
    }
  }

  /** Every directly missing parent that the blob has, with a role, gets its row. */
  lemma HealingResolvesParents(s: Store, c: string, now: int, p: string)
    requires Keyed(s) && c in s.chats && p in Unresolved(s.rows, c)
    requires p in s.chats[c].messages && RoleBearing(s.chats[c].messages[p])
    ensures Composite(c, p) !in s.rows && Composite(c, p) in Healed(s, c, now)
  {
    RowIdsAre(s, c, p);
    MessageIdRecovers(c, p);
    HealingAdds(s, c, now, Composite(c, p));
  }

  /** The keys a read adds. */
  function AddedKeys(s: Store, c: string): set<string> {
    TargetKeys(c, Missing(s, c))
  }

  lemma AddedAreNew(s: Store, c: string)
    requires Keyed(s)
    ensures AddedKeys(s, c) !! s.rows.Keys
  {
    forall k | k in AddedKeys(s, c)
      ensures k !in s.rows
    {
      TargetKeysAre(c, Missing(s, c), k);
      MissingHasNoRow(s, c, MessageId(c, k));
    }
  }

  lemma BackfilledFresh(rows: Table, c: string, userId: string, batch: map<string, Message>, now: int)
    requires TargetKeys(c, batch) !! rows.Keys
    ensures var rows' := Backfilled(rows, c, userId, batch, now);
            && rows'.Keys == rows.Keys + TargetKeys(c, batch)
            && (rows' == rows <==> TargetKeys(c, batch) == {})
  {
    if TargetKeys(c, batch) == {} {
      forall k | k in rows
        ensures Backfilled(rows, c, userId, batch, now)[k] == rows[k]
      {
        BackfilledAt(rows, c, userId, batch, now, k);
        TargetKeysAre(c, batch, k);
      }
    }
  }

  lemma HealedIsAdded(s: Store, c: string, now: int)
    requires Keyed(s)
    ensures Healed(s, c, now).Keys == s.rows.Keys + AddedKeys(s, c)
    ensures Healed(s, c, now) == s.rows <==> AddedKeys(s, c) == {}
  {
    AddedAreNew(s, c);
    BackfilledFresh(s.rows, c, if c in s.chats then s.chats[c].userId else "", Missing(s, c), now);
  }

  /** A fresh target of a batch taken from the blob is an uncovered message. */
  lemma TargetIsUncovered(s: Store, c: string, batch: map<string, Message>, k: string)
    requires c in s.chats && k !in s.rows && Targets(c, batch, k)
    requires MessageId(c, k) in s.chats[c].messages && s.chats[c].messages[MessageId(c, k)] == batch[MessageId(c, k)]
    ensures MessageId(c, k) in Uncovered(s, c) && Composite(c, MessageId(c, k)) == k
  {
  }

  lemma HealedMessage(s: Store, c: string, now: int) returns (m: string)
    requires Keyed(s) && Heal(s, c, now) != s
    ensures m in Uncovered(s, c) && Composite(c, m) in Heal(s, c, now).rows
  {
    HealedIsAdded(s, c, now);
    AddedAreNew(s, c);
    var batch := Missing(s, c);
    var k :| k in TargetKeys(c, batch);
    TargetKeysAre(c, batch, k);
    m := MessageId(c, k);
    MissingIsBlob(s, c, m);
    TargetIsUncovered(s, c, batch, k);
  }

  /** A read that adds anything leaves strictly fewer role-bearing messages uncovered. */
  lemma HealingShrinks(s: Store, c: string, now: int)
    requires Keyed(s)
    ensures Uncovered(Heal(s, c, now), c) <= Uncovered(s, c)
    ensures Heal(s, c, now) != s ==> |Uncovered(Heal(s, c, now), c)| < |Uncovered(s, c)|
  {
    var s' := Heal(s, c, now);
    forall m | m in Uncovered(s', c)
      ensures m in Uncovered(s, c)
    {
      HealingAdds(s, c, now, Composite(c, m));
    }
    if s' != s {
      var m := HealedMessage(s, c, now);
      SubsetSize(Uncovered(s', c), Uncovered(s, c));
    }
  }

  /** Nothing is left to heal exactly when every missing message lacks a role. */
  lemma HealedIff(s: Store, c: string, now: int)
    requires Keyed(s)
    ensures Healed(s, c, now) == s.rows
       <==> forall m :: m in Missing(s, c) ==> !RoleBearing(Missing(s, c)[m])
  {
    HealedIsAdded(s, c, now);
    var batch := Missing(s, c);
    if m :| m in batch && RoleBearing(batch[m]) {
      assert Composite(c, m) in TargetKeys(c, batch);
    }
  }

  /** Every parent still unresolved is absent from the blob or has no role there. */
  ghost predicate FullyHealed(s: Store, c: string) {
    c in s.chats ==> forall p :: p in Unresolved(s.rows, c) ==>
      p !in s.chats[c].messages || !RoleBearing(s.chats[c].messages[p])
  }

  lemma FixpointIsHealed(s: Store, c: string, now: int)
    requires Keyed(s) && Heal(s, c, now) == s
    ensures FullyHealed(s, c)
  {
    if c in s.chats {
      forall p | p in Unresolved(s.rows, c) && p in s.chats[c].messages
        ensures !RoleBearing(s.chats[c].messages[p])
      {
        if RoleBearing(s.chats[c].messages[p]) { HealingResolvesParents(s, c, now, p); }
      }
    }
  }

  /** The store after the chat's message map has been read at each of the times. */
  function Reads(s: Store, c: string, times: seq<int>): Store
    decreases |times|
  {
    if times == [] then s else Reads(Heal(s, c, times[0]), c, times[1..])
  }

  /** A read that has nothing to add changes nothing, whenever it happens. */
  ghost predicate Settled(s: Store, c: string) {
    forall now :: Heal(s, c, now) == s
  }

  lemma SettledIff(s: Store, c: string, now: int)
    requires Keyed(s)
    ensures Settled(s, c) <==> Heal(s, c, now) == s
  {
    HealedIsAdded(s, c, now);
    if AddedKeys(s, c) == {} {
      forall later
        ensures Heal(s, c, later) == s
      {
        HealedIsAdded(s, c, later);
      }
    }
  }

  lemma {:induction false} ReadsStay(s: Store, c: string, times: seq<int>)
    requires Settled(s, c)
    ensures Reads(s, c, times) == s
    decreases |times|
  {
    if times != [] { ReadsStay(s, c, times[1..]); }
  }

  lemma {:induction false} ReadsSettle(s: Store, c: string, times: seq<int>)
    requires Keyed(s) && |Uncovered(s, c)| <= |times|
    ensures Keyed(Reads(s, c, times)) && Settled(Reads(s, c, times), c)
    decreases |times|
  {
    var now := if times == [] then 0 else times[0];
    SettledIff(s, c, now);
    if Heal(s, c, now) == s {
      ReadsStay(s, c, times);
    } else {
      HealingShrinks(s, c, now);
      HealKeepsKeyed(s, c, now);
      ReadsSettle(Heal(s, c, now), c, times[1..]);
    }
  }

  /**
   Repeated reads converge: after as many reads as there were uncovered messages, at whatever times, no
   read changes anything any more, and every parent still unresolved is absent from the blob or has no role there.
   */
  lemma HealingConverges(s: Store, c: string, times: seq<int>)
    requires Keyed(s) && |Uncovered(s, c)| <= |times|
    ensures var s' := Reads(s, c, times);
            Keyed(s') && Settled(s', c) && FullyHealed(s', c)
  {
    ReadsSettle(s, c, times);
    FixpointIsHealed(Reads(s, c, times), c, 0);
  }

  // ---------- what every run keeps ----------

  /** A row's message is in the blob and, when it bears a role, the row agrees with every key it carries. */
  ghost predicate RowTracks(s: Store, k: string)
    requires k in s.rows
  {
    var c, m := s.rows[k].chatId, MessageId(s.rows[k].chatId, k);
    && c in s.chats && m in s.chats[c].messages
    && (RoleBearing(s.chats[c].messages[m]) ==> AgreesOnCarried(s.rows[k].fields, s.chats[c].messages[m]))
  }

  ghost predicate Tracks(s: Store) {
    forall k :: k in s.rows ==> RowTracks(s, k)
  }

  /** A save without messages is not reconciled, so it leaves the chat's rows behind. */
  ghost predicate LeavesOrphans(s: Store, step: Step) {
    step.Save? && step.chatId in s.chats && step.messages == map[] && RowIds(s.rows, step.chatId) != {}
  }

  ghost predicate NeverOrphans(s: Store, steps: seq<Step>)
    decreases |steps|
  {
    steps != [] ==> !LeavesOrphans(s, steps[0]) && NeverOrphans(Apply(s, steps[0]), steps[1..])
  }

  lemma BackfillKeepsTracking(s: Store, c: string, userId: string, messages: map<string, Message>, now: int)
    requires Keyed(s) && Tracks(s) && c in s.chats
    requires forall m :: m in messages ==> m in s.chats[c].messages && s.chats[c].messages[m] == messages[m]
    ensures Tracks(s.(rows := Backfilled(s.rows, c, userId, messages, now)))
  {
    var s' := s.(rows := Backfilled(s.rows, c, userId, messages, now));
    forall k | k in s'.rows
      ensures RowTracks(s', k)
    {
      BackfilledAt(s.rows, c, userId, messages, now, k);
      if k in s.rows { assert RowTracks(s, k); }
      if Targets(c, messages, k) {
        var m := MessageId(c, k);
        if k in s.rows { KeyOf(s, c, m); }
        UpsertAgrees(s.rows, m, c, userId, messages[m], now);
      }
    }
  }

  lemma OtherMessage(s: Store, step: Step, k: string)
    requires Keyed(s) && step.Upsert? && step.chatId in s.chats
    requires k in s.rows && k != Composite(step.chatId, step.messageId)
    ensures var d, m := s.rows[k].chatId, MessageId(s.rows[k].chatId, k);
            m in s.chats[d].messages ==>
              m in Apply(s, step).chats[d].messages && Apply(s, step).chats[d].messages[m] == s.chats[d].messages[m]
  {
    var c, m := s.rows[k].chatId, MessageId(s.rows[k].chatId, k);
    assert k == Composite(c, m) && (c != step.chatId || m != step.messageId);
  }

  lemma UpsertKeepsTracking(s: Store, step: Step)
    requires Keyed(s) && Tracks(s) && step.Upsert? && step.chatId in s.chats
    ensures Tracks(Apply(s, step))
  {
    var s', c, id := Apply(s, step), step.chatId, step.messageId;
    UpsertSelf(s, step);
    UpsertAgrees(s.rows, id, c, s.chats[c].userId, Merged(s.chats[c].messages, id, step.message), step.now);
    forall k | k in s'.rows
      ensures RowTracks(s', k)
    {
      if k != Composite(c, id) {
        UpsertOther(s, step, k);
        assert RowTracks(s, k);
        OtherMessage(s, step, k);
      }
    }
  }

  lemma SavedRowTracks(s: Store, step: Step, k: string)
    requires Keyed(s) && Tracks(s) && step.Save? && step.chatId in s.chats && step.messages != map[]
    requires k in Apply(s, step).rows
    ensures RowTracks(Apply(s, step), k)
  {
    if Apply(s, step).rows[k].chatId != step.chatId {
      SavedOther(s, step, k);
      assert RowTracks(s, k);
    } else {
      SavedRow(s, step, k);
    }
  }

  lemma EmptySaveTracksIff(s: Store, step: Step)
    requires Keyed(s) && Tracks(s) && step.Save? && step.chatId in s.chats && step.messages == map[]
    ensures Tracks(Apply(s, step)) <==> HasNoRows(s.rows, step.chatId)
  {
    var s' := Apply(s, step);
    forall k | k in s.rows
      ensures RowTracks(s', k) <==> s.rows[k].chatId != step.chatId
    {
      assert RowTracks(s, k);
    }
  }

  lemma SaveKeepsTrackingIff(s: Store, step: Step)
    requires Keyed(s) && Tracks(s) && step.Save? && step.chatId in s.chats
    ensures Tracks(Apply(s, step)) <==> !LeavesOrphans(s, step)
  {
    if step.messages == map[] {
      EmptySaveTracksIff(s, step);
      NoRowIdsIff(s.rows, step.chatId);
    } else {
      forall k | k in Apply(s, step).rows
        ensures RowTracks(Apply(s, step), k)
      {
        SavedRowTracks(s, step, k);
      }
    }
  }

  lemma StepTracksIff(s: Store, step: Step)
    requires Keyed(s) && Tracks(s) && Minted(s, step)
    ensures Tracks(Apply(s, step)) <==> !LeavesOrphans(s, step)
  {
    match step
    case Insert(c, chat, now) =>
      if c !in s.chats {
        var s1 := s.(chats := s.chats[c := chat]);
        forall k | k in s1.rows
          ensures RowTracks(s1, k)
        {
          assert RowTracks(s, k);
        }
        BackfillKeepsTracking(s1, c, chat.userId, chat.messages, now);
      }
    case Upsert(c, _, _, _) => if c in s.chats { UpsertKeepsTracking(s, step); }
    case ReadMap(c, now) =>
      if c in s.chats {
        forall m | m in Missing(s, c)
          ensures m in s.chats[c].messages && s.chats[c].messages[m] == Missing(s, c)[m]
        {
          MissingIsBlob(s, c, m);
        }
        BackfillKeepsTracking(s, c, s.chats[c].userId, Missing(s, c), now);
      } else {
        NothingToBackfill(s.rows, c, "", now);
      }
    case Save(c, _, _, _) => if c in s.chats { SaveKeepsTrackingIff(s, step); }
  }

  /** Rows track the blob now and after every step. */
  ghost predicate AlwaysTracks(s: Store, steps: seq<Step>)
    decreases |steps|
  {
    Tracks(s) && (steps != [] ==> AlwaysTracks(Apply(s, steps[0]), steps[1..]))
  }

  /**
   Over any run of inserts, upserts, reads and full saves, rows have blob messages and agree with the
   role-bearing ones on every key they carry, exactly as long as no save empties a chat that has rows.
   */
  lemma {:induction false} RunTracksIff(s: Store, steps: seq<Step>)
    requires Keyed(s) && Tracks(s) && AllMinted(s, steps)
    ensures AlwaysTracks(s, steps) <==> NeverOrphans(s, steps)
    decreases |steps|
  {
    if steps != [] {
      StepKeepsKeyed(s, steps[0]);
      StepTracksIff(s, steps[0]);
      if !LeavesOrphans(s, steps[0]) {
        RunTracksIff(Apply(s, steps[0]), steps[1..]);
      } else {
        assert !Tracks(Apply(s, steps[0]));
      }
    }
  }

  /** Saving a chat without messages leaves its rows behind. */
  lemma EmptySaveOrphansRows(s: Store, c: string, m: string, now: int)
    requires Keyed(s) && Tracks(s) && c in s.chats && Composite(c, m) in s.rows
    ensures var s' := Apply(s, Save(c, None, map[], now));
            Composite(c, m) in s'.rows && m !in s'.chats[c].messages && !Tracks(s')
  {
    RowIdsAre(s, c, m);
    SaveKeepsTrackingIff(s, Save(c, None, map[], now));
  }

  // ---------- the methods ----------

  /** get_unresolved_parent_ids: parents that messages name but the map lacks. */
  function GetUnresolvedParentIds(mm: map<string, Message>): set<string> {
    set m | m in mm && ParentRef(mm[m]).Some? && ParentRef(mm[m]).value !in mm :: ParentRef(mm[m]).value
  }

  lemma MessageIdsDiffer(c: string, k: string, l: string)
    requires k == Composite(c, MessageId(c, k)) && l == Composite(c, MessageId(c, l)) && k != l
    ensures MessageId(c, k) != MessageId(c, l)
  {
  }

  /** `rows` lists exactly the chat's rows, each once. */
  ghost predicate RowsOf(table: Table, c: string, rows: seq<(string, Row)>) {
    && (forall r :: r in rows ==> r.0 in table && table[r.0] == r.1 && r.1.chatId == c)
    && (forall k :: k in table && table[k].chatId == c ==> (k, table[k]) in rows)
  }

  lemma IdsAreRowIds(table: Table, c: string, rows: seq<(string, Row)>, x: string)
    requires RowsOf(table, c, rows)
    ensures x in Ids(c, rows) <==> x in RowIds(table, c)
  {
    if x in Ids(c, rows) {
      var i :| 0 <= i < |rows| && Ids(c, rows)[i] == x;
      assert rows[i] in rows;
    }
    if x in RowIds(table, c) {
      var k :| k in table && table[k].chatId == c && MessageId(c, k) == x;
      var i :| 0 <= i < |rows| && rows[i] == (k, table[k]);
      assert Ids(c, rows)[i] == x;
    }
  }

  lemma BaseStep(c: string, rows: seq<(string, Row)>)
    requires rows != []
    ensures var n := |rows| - 1;
            var id := Ids(c, rows)[n];
            Base(c, rows) == Base(c, rows[..n])[id := RowMessage(id, rows[n].1)]
  {
  }

  lemma {:induction false} BaseAt(c: string, rows: seq<(string, Row)>, i: nat)
    requires i < |rows|
    requires forall j :: i < j < |rows| ==> Ids(c, rows)[j] != Ids(c, rows)[i]
    ensures Ids(c, rows)[i] in Base(c, rows)
    ensures Base(c, rows)[Ids(c, rows)[i]] == RowMessage(Ids(c, rows)[i], rows[i].1)
    decreases |rows|
  {
    var ids, n := Ids(c, rows), |rows| - 1;
    BaseStep(c, rows);
    if i < n {
      assert Ids(c, rows[..n]) == ids[..n];
      BaseAt(c, rows[..n], i);
    }
  }

  /** A stored row's message is in the map built from the chat's rows. */
  lemma RowInBase(table: Table, c: string, rows: seq<(string, Row)>, k: string)
    requires RowsOf(table, c, rows) && NoDup(Ids(c, rows)) && k in table && table[k].chatId == c
    ensures var id := MessageId(c, k);
            id in Ids(c, rows) && id in Base(c, rows) && Base(c, rows)[id] == RowMessage(id, table[k])
  {
    var i :| 0 <= i < |rows| && rows[i] == (k, table[k]);
    BaseAt(c, rows, i);
    assert Ids(c, rows)[i] == MessageId(c, k);
  }

  lemma SelectedRows(table: Table, c: string, keys: seq<string>, rows: seq<(string, Row)>)
    requires NoDup(keys) && forall k :: k in keys <==> k in table && table[k].chatId == c
    requires forall k :: k in keys ==> k == Composite(c, MessageId(c, k))
    requires |rows| == |keys| && forall i :: 0 <= i < |rows| ==> rows[i] == (keys[i], table[keys[i]])
    ensures RowsOf(table, c, rows) && NoDup(Ids(c, rows))
  {
    forall k | k in table && table[k].chatId == c
      ensures (k, table[k]) in rows
    {
      var i :| 0 <= i < |keys| && keys[i] == k;
      assert rows[i] == (k, table[k]);
    }
    forall i, j | 0 <= i < j < |rows|
      ensures Ids(c, rows)[i] != Ids(c, rows)[j]
    {
      MessageIdsDiffer(c, keys[i], keys[j]);
    }
  }

  /** The rebuilt map has the rows' ids as keys and their parents as parents. */
  ghost predicate Mirrors(table: Table, c: string, mm: map<string, Message>) {
    && mm.Keys == RowIds(table, c)
    && forall k :: k in table && table[k].chatId == c ==>
         MessageId(c, k) in mm && ParentRef(mm[MessageId(c, k)]) == AsRef(table[k].fields.parentId)
  }

  lemma BuiltMapMirrors(table: Table, c: string, rows: seq<(string, Row)>, mm: map<string, Message>)
    requires RowsOf(table, c, rows) && NoDup(Ids(c, rows)) && Built(c, rows, mm)
    ensures Mirrors(table, c, mm)
  {
    forall x
      ensures x in mm <==> x in RowIds(table, c)
    {
      IdsAreRowIds(table, c, rows, x);
    }
    forall k | k in table && table[k].chatId == c
      ensures MessageId(c, k) in mm && ParentRef(mm[MessageId(c, k)]) == AsRef(table[k].fields.parentId)
    {
      RowInBase(table, c, rows, k);
      BuiltParents(c, rows, mm, MessageId(c, k));
      RowMessageParent(MessageId(c, k), table[k]);
    }
  }

  /** x is a message of the chat whose row names p as its parent. */
  ghost predicate ChildOf(table: Table, c: string, x: string, p: string) {
    exists k :: k in table && table[k].chatId == c && MessageId(c, k) == x && AsRef(table[k].fields.parentId) == Some(p)
  }

  /** Row k's message is rebuilt from the row, with exactly its children listed, each once. */
  ghost predicate RebuiltAt(table: Table, c: string, mm: map<string, Message>, k: string)
    requires k in table
  {
    var id := MessageId(c, k);
    id in mm && exists kids: seq<string> ::
      && mm[id] == RowMessage(id, table[k])[ChildrenIds := Strs(kids)]
      && NoDup(kids)
      && forall x :: x in kids <==> ChildOf(table, c, x, id)
  }

  lemma KidsAreChildren(table: Table, c: string, rows: seq<(string, Row)>, p: string, x: string)
    requires RowsOf(table, c, rows) && NoDup(Ids(c, rows)) && p in Base(c, rows)
    ensures x in Kids(Ids(c, rows), Base(c, rows), p) <==> ChildOf(table, c, x, p)
  {
    ChildListsInvertParents(c, rows, p, x);
    IdsAreRowIds(table, c, rows, x);
    forall k | k in table && table[k].chatId == c && MessageId(c, k) == x
      ensures x in Base(c, rows) && ParentRef(Base(c, rows)[x]) == AsRef(table[k].fields.parentId)
    {
      RowInBase(table, c, rows, k);
      RowMessageParent(x, table[k]);
    }
  }

  lemma BuiltRebuilds(table: Table, c: string, rows: seq<(string, Row)>, mm: map<string, Message>, k: string)
    requires RowsOf(table, c, rows) && NoDup(Ids(c, rows)) && Built(c, rows, mm)
    requires k in table && table[k].chatId == c
    ensures RebuiltAt(table, c, mm, k)
  {
    var id := MessageId(c, k);
    RowInBase(table, c, rows, k);
    var kids := Kids(Ids(c, rows), Base(c, rows), id);
    ChildListsInvertParents(c, rows, id, id);
    forall x
      ensures x in kids <==> ChildOf(table, c, x, id)
    {
      KidsAreChildren(table, c, rows, id, x);
    }
    assert mm[id] == RowMessage(id, table[k])[ChildrenIds := Strs(kids)];
  }

  /** The gaps seen in the rebuilt map are the unresolved parents of the rows. */
  lemma GapsAreUnresolved(table: Table, c: string, mm: map<string, Message>)
    requires Mirrors(table, c, mm)
    ensures GetUnresolvedParentIds(mm) == Unresolved(table, c)
  {
    forall p | p in GetUnresolvedParentIds(mm)
      ensures p in Unresolved(table, c)
    {
      var m :| m in mm && ParentRef(mm[m]) == Some(p) && p !in mm;
      var k :| k in table && table[k].chatId == c && MessageId(c, k) == m;
    }
    forall p | p in Unresolved(table, c)
      ensures p in GetUnresolvedParentIds(mm)
    {
      var k :| k in table && table[k].chatId == c && AsRef(table[k].fields.parentId) == Some(p)
               && p !in RowIds(table, c);
      assert MessageId(c, k) in mm;
    }
  }

  lemma RowsAndIds(table: Table, c: string, rows: seq<(string, Row)>)
    requires RowsOf(table, c, rows)
    ensures rows == [] <==> RowIds(table, c) == {}
  {
    if rows != [] {
      IdsAreRowIds(table, c, rows, Ids(c, rows)[0]);
    } else if x :| x in RowIds(table, c) {
      IdsAreRowIds(table, c, rows, x);
    }
  }

  /** What a map read returns: the rows' messages and, from the blob, the ones the rows were missing. */
  ghost predicate Answers(s: Store, c: string, r: Option<map<string, Message>>) {
    if c !in s.chats && RowIds(s.rows, c) == {} then r == None
    else
      && r.Some?
      && r.value.Keys == RowIds(s.rows, c) + Missing(s, c).Keys
      && forall m :: m in Missing(s, c) ==> r.value[m] == Missing(s, c)[m]
  }

  lemma AnswerWithRows(s: Store, c: string, mm: map<string, Message>)
    requires RowIds(s.rows, c) != {} && Mirrors(s.rows, c, mm)
    ensures var gaps := GetUnresolvedParentIds(mm);
            if gaps == {} || c !in s.chats then Missing(s, c) == map[] && Answers(s, c, Some(mm))
            else Missing(s, c) == Only(s.chats[c].messages, gaps) && Answers(s, c, Some(mm + Missing(s, c)))
  {
    GapsAreUnresolved(s.rows, c, mm);
  }

  ghost predicate AllRebuilt(table: Table, c: string, mm: map<string, Message>) {
    forall k :: k in table && table[k].chatId == c ==> RebuiltAt(table, c, mm, k)
  }

  /** Messages added from the blob do not hide rebuilt ones. */
  lemma MissingApart(s: Store, c: string, mm: map<string, Message>)
    requires RowIds(s.rows, c) != {} && AllRebuilt(s.rows, c, mm)
    ensures AllRebuilt(s.rows, c, mm + Missing(s, c))
  {
    forall k | k in s.rows && s.rows[k].chatId == c
      ensures RebuiltAt(s.rows, c, mm + Missing(s, c), k)
    {
      assert RebuiltAt(s.rows, c, mm, k);
      assert MessageId(c, k) in RowIds(s.rows, c) && MessageId(c, k) !in Missing(s, c);
    }
  }

  lemma NoRowsNothingRebuilt(table: Table, c: string, mm: map<string, Message>)
    requires RowIds(table, c) == {}
    ensures AllRebuilt(table, c, mm)
  {
    assert forall k :: k in table && table[k].chatId == c ==> MessageId(c, k) in RowIds(table, c);
  }

  lemma AnswerWithoutRows(s: Store, c: string)
    requires RowIds(s.rows, c) == {}
    ensures if c in s.chats then Missing(s, c) == s.chats[c].messages && Answers(s, c, Some(s.chats[c].messages))
            else Missing(s, c) == map[] && Answers(s, c, None)
  {
  }

  /**
   What a map read returns for a chat: the messages with rows, and from the blob, as they stand there, those
   the rows name as parents, or all of them when there are no rows.
   */
  ghost predicate Answered(s: Store, c: string, r: Option<map<string, Message>>) {
    && (r.Some? <==> c in s.chats)
    && (r.Some? ==>
          var blob := s.chats[c].messages;
          && (forall m :: m in r.value <==>
                Composite(c, m) in s.rows || (m in blob && (HasNoRows(s.rows, c) || IsParent(s.rows, c, m))))
          && (forall m :: m in r.value && Composite(c, m) !in s.rows ==> r.value[m] == blob[m]))
  }

  lemma AnswersMean(s: Store, c: string, r: Option<map<string, Message>>)
    requires Keyed(s) && Answers(s, c, r)
    ensures Answered(s, c, r)
  {
    NoRowIdsIff(s.rows, c);
    if c in s.chats {
      forall m
        ensures m in r.value <==> Composite(c, m) in s.rows
                                  || (m in s.chats[c].messages && (HasNoRows(s.rows, c) || IsParent(s.rows, c, m)))
        ensures m in r.value && Composite(c, m) !in s.rows ==> r.value[m] == s.chats[c].messages[m]
      {
        RowIdsAre(s, c, m);
        UnresolvedIff(s.rows, c, m);
      }
    }
  }

  function Deleted(rows: Table, c: string, ids: set<string>): Table {
    var doomed := set m | m in ids :: Composite(c, m);
    map k | k in rows && !(rows[k].chatId == c && k in doomed) :: rows[k]
  }

  /** Composite keys pick out exactly the rows of the given message ids. */
  lemma DeletedAt(rows: Table, c: string, ids: set<string>, k: string)
    requires forall l :: l in rows && rows[l].chatId == c ==> l == Composite(c, MessageId(c, l))
    ensures k in Deleted(rows, c, ids) <==> k in rows && !(rows[k].chatId == c && MessageId(c, k) in ids)
  {
    if k in rows && rows[k].chatId == c {
      if m :| m in ids && k == Composite(c, m) {
        MessageIdRecovers(c, m);
      }
    }
  }

  /** Deleting the rows of the orphaned ids leaves the rows whose message is kept. */
  lemma OrphansDropped(filled: Table, rows': Table, c: string, kept: set<string>)
    requires forall k :: k in rows' <==>
               k in filled && !(filled[k].chatId == c && MessageId(c, k) in RowIds(filled, c) - kept)
    requires forall k :: k in rows' ==> rows'[k] == filled[k]
    ensures rows' == map k | k in filled && (filled[k].chatId == c ==> MessageId(c, k) in kept) :: filled[k]
  {
    assert forall k :: k in filled && filled[k].chatId == c ==> MessageId(c, k) in RowIds(filled, c);
  }

  lemma DeletedRowIds(rows: Table, rows': Table, c: string, ids: set<string>)
    requires forall k :: k in rows' <==> k in rows && !(rows[k].chatId == c && MessageId(c, k) in ids)
    requires forall k :: k in rows' ==> rows'[k] == rows[k]
    ensures RowIds(rows', c) == RowIds(rows, c) - ids
  {
    forall m | m in RowIds(rows, c) - ids
      ensures m in RowIds(rows', c)
    {
      var k :| k in rows && rows[k].chatId == c && MessageId(c, k) == m;
      assert k in rows';
    }
  }

  class ChatStore {
    var chats: map<string, Chat>
    var rows: Table

    ghost function State(): Store
      reads this
    {
      Store(chats, rows)
    }

    constructor ()
      ensures State() == Store(map[], map[]) && Keyed(State()) && Agrees(State())
    {
      chats, rows := map[], map[];
    }

    method BackfillMessages(c: string, userId: string, messages: map<string, Message>, now: int)
      modifies this`rows
      ensures rows == Backfilled(old(rows), c, userId, messages, now)
    {
      var left := messages.Keys;
      NothingToBackfill(rows, c, userId, now);
      ghost var done: map<string, Message> := map[];
      while left != {}
        invariant left <= messages.Keys
        invariant done == map m | m in messages && m !in left :: messages[m]
        invariant rows == Backfilled(old(rows), c, userId, done, now)
        decreases left
      {
        var m :| m in left;
        BackfilledOne(old(rows), c, userId, done, m, messages[m], now);
        left := left - {m};
        done := done[m := messages[m]];
        if RoleBearing(messages[m]) {
          rows := Upserted(rows, m, c, userId, messages[m], now);
        }
      }
      assert done == messages;
    }

    /** Inserting a chat whose id exists violates the primary key: nothing changes. */
    method InsertNewChat(c: string, chat: Chat, now: int) returns (inserted: bool)
      modifies this
      ensures State() == Apply(old(State()), Insert(c, chat, now))
      ensures inserted <==> c !in old(chats)
    {
      if c in chats { return false; }
      chats := chats[c := chat];
      BackfillMessages(c, chat.userId, chat.messages, now);
      return true;
    }

    method UpsertMessageToChat(c: string, id: string, message: Message, now: int) returns (found: bool)
      modifies this
      ensures State() == Apply(old(State()), Upsert(c, id, message, now))
      ensures found <==> c in old(chats)
    {
      if c !in chats { return false; }
      var chat := chats[c];
      var messages := chat.messages;
      if id in messages {
        messages := messages[id := messages[id] + message];
      } else {
        messages := messages[id := message];
      }
      chat := chat.(messages := messages, currentId := Some(id));
      rows := Upserted(rows, id, c, chat.userId, messages[id], now);
      chats := chats[c := chat];
      return true;
    }

    /** SELECT id ... WHERE chat_id = c, in whatever order the database returns the rows. */
    method SelectKeys(c: string) returns (keys: seq<string>)
      ensures NoDup(keys) && forall k :: k in keys <==> k in rows && rows[k].chatId == c
    {
      var left := set k | k in rows && rows[k].chatId == c;
      keys := [];
      while left != {}
        invariant NoDup(keys) && forall k :: k in keys ==> k !in left
        invariant forall k :: k in keys || k in left <==> k in rows && rows[k].chatId == c
        decreases left
      {
        var k :| k in left;
        left := left - {k};
        keys := keys + [k];
      }
    }

    method SelectRows(c: string) returns (found: seq<(string, Row)>)
      requires Keyed(State())
      ensures RowsOf(rows, c, found) && NoDup(Ids(c, found))
    {
      var keys := SelectKeys(c);
      var table := rows;
      found := seq(|keys|, i requires 0 <= i < |keys| && keys[i] in table => (keys[i], table[keys[i]]));
      SelectedRows(rows, c, keys, found);
    }

    /** Deletes the rows whose key is made of the chat's id and one of the given message ids. */
    method DeleteMessageIds(c: string, ids: set<string>)
      requires Keyed(State())
      modifies this`rows
      ensures forall k :: k in rows <==> k in old(rows) && !(old(rows)[k].chatId == c && MessageId(c, k) in ids)
      ensures forall k :: k in rows ==> rows[k] == old(rows)[k]
      ensures RowIds(rows, c) == RowIds(old(rows), c) - ids
    {
      if ids == {} { return; }
      ghost var before := rows;
      rows := Deleted(rows, c, ids);
      forall k
        ensures k in rows <==> k in before && !(before[k].chatId == c && MessageId(c, k) in ids)
      {
        DeletedAt(before, c, ids, k);
      }
      DeletedRowIds(before, rows, c, ids);
    }

    method ExistingIds(c: string) returns (ids: set<string>)
      requires Keyed(State())
      ensures ids == RowIds(rows, c)
    {
      var found := SelectRows(c);
      ids := set x | x in Ids(c, found);
      forall x
        ensures x in ids <==> x in RowIds(rows, c)
      {
        IdsAreRowIds(rows, c, found, x);
      }
    }

    method ReconcileMessages(c: string, userId: string, messages: map<string, Message>, now: int)
      requires Keyed(State()) && c in chats
      modifies this`rows
      ensures rows == Reconciled(old(rows), c, userId, messages, now) && Keyed(State())
    {
      ReconcileKeepsKeyed(State(), c, userId, messages, now);
      BackfillKeepsKeyed(State(), c, userId, messages, now);
      BackfillMessages(c, userId, messages, now);
      ghost var filled := rows;
      var existing := ExistingIds(c);
      DeleteMessageIds(c, existing - messages.Keys);
      OrphansDropped(filled, rows, c, messages.Keys);
    }

    /** A full save: the blob's messages are replaced and, unless there are none, the rows reconciled. */
    method SaveChat(c: string, currentId: Option<string>, messages: map<string, Message>, now: int)
      returns (found: bool)
      requires Keyed(State())
      modifies this
      ensures State() == Apply(old(State()), Save(c, currentId, messages, now)) && Keyed(State())
      ensures found <==> c in old(chats)
    {
      if c !in chats { return false; }
      StepKeepsKeyed(State(), Save(c, currentId, messages, now));
      chats := chats[c := chats[c].(messages := messages, currentId := currentId)];
      if messages != map[] {
        ReconcileMessages(c, chats[c].userId, messages, now);
      }
      return true;
    }

    /** The map rebuilt from the chat's rows; None when it has none. */
    method MapFromRows(c: string) returns (r: Option<map<string, Message>>)
      requires Keyed(State())
      ensures r.None? <==> RowIds(rows, c) == {}
      ensures r.Some? ==> Mirrors(rows, c, r.value)
      ensures r.Some? ==> AllRebuilt(rows, c, r.value)
    {
      var found := SelectRows(c);
      RowsAndIds(rows, c, found);
      if found == [] { return None; }
      var mm := BuildMessagesMap(c, found);
      BuiltMapMirrors(rows, c, found, mm);
      forall k | k in rows && rows[k].chatId == c
        ensures RebuiltAt(rows, c, mm, k)
      {
        BuiltRebuilds(rows, c, found, mm, k);
      }
      return Some(mm);
    }

    /** Merges the missing parents the blob has into the map, and backfills their rows. */
    method FillGaps(c: string, mm: map<string, Message>, now: int) returns (filled: map<string, Message>)
      requires RowIds(rows, c) != {} && Mirrors(rows, c, mm)
      modifies this`rows
      ensures rows == Healed(old(State()), c, now)
      ensures filled == mm + Missing(old(State()), c) && Answers(old(State()), c, Some(filled))
    {
      AnswerWithRows(State(), c, mm);
      var gaps := GetUnresolvedParentIds(mm);
      if gaps == {} || c !in chats {
        NothingToBackfill(rows, c, if c in chats then chats[c].userId else "", now);
        assert mm + map[] == mm;
        return mm;
      }
      var missing := Only(chats[c].messages, gaps);
      BackfillMessages(c, chats[c].userId, missing, now);
      return mm + missing;
    }

    /** Reads a chat's message map, filling its gaps from the blob and backfilling the rows they lack. */
    method GetMessagesMap(c: string, now: int) returns (r: Option<map<string, Message>>)
      requires Keyed(State())
      modifies this`rows
      ensures rows == Healed(old(State()), c, now)
      ensures Answered(old(State()), c, r)
      ensures r.Some? ==> AllRebuilt(old(rows), c, r.value)
    {
      var mm := MapFromRows(c);
      if mm.Some? {
        MissingApart(State(), c, mm.value);
        var filled := FillGaps(c, mm.value, now);
        AnswersMean(old(State()), c, Some(filled));
        return Some(filled);
      }
      AnswerWithoutRows(State(), c);
      AnswersMean(State(), c, if c in chats then Some(chats[c].messages) else None);
      NoRowsNothingRebuilt(rows, c, if c in chats then chats[c].messages else map[]);
      if c !in chats {
        NothingToBackfill(rows, c, "", now);
        return None;
      }
      BackfillMessages(c, chats[c].userId, chats[c].messages, now);
      return Some(chats[c].messages);
    }
  }
}
