/**
 The chat_message table: one row per chat message, keyed by the composite id "{chat}-{message}".
 Upserting a message dict into its row, and rebuilding the message map from a chat's rows.
 */
module ChatRows {
  import opened Options
  import opened Seqs
  import opened Json

  /** Keys of a message dict. The ones the code names are constructors; any other key is Other. */
  datatype Field =
    | Id | ParentId | ParentIdSnake | ChildrenIds | Role | Content | Output | Model | ModelIdSnake
    | Files | Sources | Embeds | Done | StatusHistory | StatusHistorySnake | Error | Usage | Info | Timestamp
    | Other(name: string)

  type Message = map<Field, Value>

  function Look(m: Message, f: Field, default: Value := Null): Value {
    if f in m then m[f] else default
  }

  /** The columns copied from a message; a NULL column is Null. */
  datatype Tracked = Tracked(role: Value, parentId: Value, content: Value, output: Value, modelId: Value,
                             files: Value, sources: Value, embeds: Value, done: Value, statusHistory: Value,
                             error: Value)

  datatype Row = Row(chatId: string, userId: string, fields: Tracked, usage: Option<Dict>,
                     createdAt: Value, updatedAt: int)

  type Table = map<string, Row>

  function Composite(chatId: string, messageId: string): string {
    chatId + "-" + messageId
  }

  // ---------- usage ----------

  function TokenCount(v: Value): int {
    if v.Num? then v.n else 0
  }

  /** normalize_usage: the original entries plus three standard token counts. */
  function NormalizeUsage(usage: Dict): Dict {
    var input := TokenCount(Or(Or(Or(Get(usage, "input_tokens"), Get(usage, "prompt_tokens")),
                                  Get(usage, "prompt_eval_count")), Get(usage, "prompt_n")));
    var output := TokenCount(Or(Or(Or(Get(usage, "output_tokens"), Get(usage, "completion_tokens")),
                                   Get(usage, "eval_count")), Get(usage, "predicted_n")));
    var total := if Truthy(Get(usage, "total_tokens")) then TokenCount(Get(usage, "total_tokens")) else input + output;
    usage["input_tokens" := Num(input)]["output_tokens" := Num(output)]["total_tokens" := Num(total)]
  }

  function GetUsage(m: Message): Option<Dict> {
    var info := Look(m, Info);
    var usage := Or(Look(m, Usage), if info.Obj? then Get(info.fields, "usage") else Null);
    if usage.Obj? && Truthy(usage) then Some(NormalizeUsage(usage.fields)) else None
  }

  /** {**(old or {}), **new} when there is new usage. */
  function MergeUsage(old_: Option<Dict>, new_: Option<Dict>): Option<Dict> {
    if new_.None? then old_
    else if old_.None? then new_
    else Some(old_.value + new_.value)
  }

  // ---------- upsert ----------

  /** The columns of a freshly inserted row. */
  function Project(m: Message): Tracked {
    Tracked(Look(m, Role, Str("user")),
            Or(Look(m, ParentIdSnake), Look(m, ParentId)),
            Look(m, Content),
            Look(m, Output),
            Or(Look(m, ModelIdSnake), Look(m, Model)),
            Look(m, Files),
            Look(m, Sources),
            Look(m, Embeds),
            Look(m, Done, Bool(true)),
            Or(Look(m, StatusHistorySnake), Look(m, StatusHistory)),
            Look(m, Error))
  }

  /** The columns of an existing row after an update: only those whose key the message carries change. */
  function Updated(t: Tracked, m: Message): Tracked {
    Tracked(if Role in m then m[Role] else t.role,
            if ParentIdSnake in m || ParentId in m then Or(Look(m, ParentIdSnake), Look(m, ParentId)) else t.parentId,
            if Content in m then m[Content] else t.content,
            if Output in m then m[Output] else t.output,
            if ModelIdSnake in m || Model in m then Or(Look(m, ModelIdSnake), Look(m, Model)) else t.modelId,
            if Files in m then m[Files] else t.files,
            if Sources in m then m[Sources] else t.sources,
            if Embeds in m then m[Embeds] else t.embeds,
            if Done in m then m[Done] else t.done,
            if StatusHistorySnake in m || StatusHistory in m
            then Or(Look(m, StatusHistorySnake), Look(m, StatusHistory)) else t.statusHistory,
            if Error in m then m[Error] else t.error)
  }

  function UpsertedRow(rows: Table, messageId: string, chatId: string, userId: string, m: Message, now: int): Row {
    var key := Composite(chatId, messageId);
    if key in rows then
      rows[key].(fields := Updated(rows[key].fields, m),
                 usage := MergeUsage(rows[key].usage, GetUsage(m)),
                 updatedAt := now)
    else
      Row(chatId, userId, Project(m), GetUsage(m), Look(m, Timestamp, Num(now)), now)
  }

  function Upserted(rows: Table, messageId: string, chatId: string, userId: string, m: Message, now: int): Table {
    rows[Composite(chatId, messageId) := UpsertedRow(rows, messageId, chatId, userId, m, now)]
  }

  /**
   Updating a row with a message that has kept all its earlier keys gives the same columns as
   inserting that message afresh: incremental copying never drifts from the projection.
   */
  lemma UpdateIsProjection(before: Message, after: Message)
    requires before.Keys <= after.Keys
    ensures Updated(Project(before), after) == Project(after)
  {
    assert forall f :: f in before ==> f in after;
  }

  /** Every column whose key the message does not carry holds what an insert would give it. */
  ghost predicate UncarriedDefault(t: Tracked, m: Message) {
    && (Role !in m ==> t.role == Str("user"))
    && (ParentIdSnake !in m && ParentId !in m ==> t.parentId == Null)
    && (Content !in m ==> t.content == Null)
    && (Output !in m ==> t.output == Null)
    && (ModelIdSnake !in m && Model !in m ==> t.modelId == Null)
    && (Files !in m ==> t.files == Null)
    && (Sources !in m ==> t.sources == Null)
    && (Embeds !in m ==> t.embeds == Null)
    && (Done !in m ==> t.done == Bool(true))
    && (StatusHistorySnake !in m && StatusHistory !in m ==> t.statusHistory == Null)
    && (Error !in m ==> t.error == Null)
  }

  /** An update ends in the projection exactly when the columns it leaves alone already held their defaults. */
  lemma UpdatedIsProjectionIff(t: Tracked, m: Message)
    ensures Updated(t, m) == Project(m) <==> UncarriedDefault(t, m)
  {
  }

  /** A column with two keys takes the first's value if that is truthy, and otherwise the second's. */
  ghost predicate FirstOf(v: Value, m: Message, first: Field, second: Field) {
    if first in m && Truthy(m[first]) then v == m[first]
    else if second in m then v == m[second]
    else v == Null
  }

  /** On every tracked key a message carries, the row says what the message says. */
  ghost predicate AgreesOnCarried(t: Tracked, m: Message) {
    && (Role in m ==> t.role == m[Role])
    && (ParentIdSnake in m || ParentId in m ==> FirstOf(t.parentId, m, ParentIdSnake, ParentId))
    && (Content in m ==> t.content == m[Content])
    && (Output in m ==> t.output == m[Output])
    && (ModelIdSnake in m || Model in m ==> FirstOf(t.modelId, m, ModelIdSnake, Model))
    && (Files in m ==> t.files == m[Files])
    && (Sources in m ==> t.sources == m[Sources])
    && (Embeds in m ==> t.embeds == m[Embeds])
    && (Done in m ==> t.done == m[Done])
    && (StatusHistorySnake in m || StatusHistory in m ==>
          FirstOf(t.statusHistory, m, StatusHistorySnake, StatusHistory))
    && (Error in m ==> t.error == m[Error])
  }

  /** The columns a row keeps for good, and its update time. */
  ghost predicate IsOwnRow(before: Option<Row>, after: Row, chatId: string, userId: string, m: Message, now: int) {
    && after.updatedAt == now
    && match before
       case Some(r) => (after.chatId, after.userId, after.createdAt) == (r.chatId, r.userId, r.createdAt)
       case None => && (after.chatId, after.userId) == (chatId, userId)
                    && after.createdAt == if Timestamp in m then m[Timestamp] else Num(now)
  }

  function RowAt(rows: Table, key: string): Option<Row> {
    if key in rows then Some(rows[key]) else None
  }

  /** After any upsert the row agrees with the message, what identifies it is kept, and no other row changes. */
  lemma UpsertAgrees(rows: Table, messageId: string, chatId: string, userId: string, m: Message, now: int)
    ensures var key, rows' := Composite(chatId, messageId), Upserted(rows, messageId, chatId, userId, m, now);
            && rows'.Keys == rows.Keys + {key}
            && AgreesOnCarried(rows'[key].fields, m)
            && IsOwnRow(RowAt(rows, key), rows'[key], chatId, userId, m, now)
            && (forall k :: k in rows && k != key ==> rows'[k] == rows[k])
  {
  }

  // ---------- what an upsert does to the usage ----------

  const INPUT_COUNTS: seq<string> := ["input_tokens", "prompt_tokens", "prompt_eval_count", "prompt_n"]
  const OUTPUT_COUNTS: seq<string> := ["output_tokens", "completion_tokens", "eval_count", "predicted_n"]
  const STANDARD: set<string> := {"input_tokens", "output_tokens", "total_tokens"}

  ghost predicate Set(d: Dict, key: string) {
    key in d && Truthy(d[key])
  }

  /** The message's usage: its own when that is truthy, otherwise the one its info carries. */
  ghost predicate Reports(m: Message, u: Dict) {
    && u != map[]
    && (if Usage in m && Truthy(m[Usage]) then m[Usage] == Obj(u)
        else Info in m && m[Info].Obj? && "usage" in m[Info].fields && m[Info].fields["usage"] == Obj(u))
  }

  /** n is the first of these counts that is set, if that is a number; with none set it is 0. */
  ghost predicate Counts(u: Dict, keys: seq<string>, n: int)
    decreases |keys|
  {
    if keys == [] then n == 0
    else if Set(u, keys[0]) then n == if u[keys[0]].Num? then u[keys[0]].n else 0
    else Counts(u, keys[1..], n)
  }

  /** w holds u's entries, but for the three standard counts, which are derived from u's. */
  ghost predicate Standardised(w: Dict, u: Dict) {
    && u.Keys + STANDARD <= w.Keys
    && (forall k :: k in u && k !in STANDARD ==> w[k] == u[k])
    && (forall k :: k in STANDARD ==> w[k].Num?)
    && Counts(u, INPUT_COUNTS, w["input_tokens"].n)
    && Counts(u, OUTPUT_COUNTS, w["output_tokens"].n)
    && (if Set(u, "total_tokens") then Counts(u, ["total_tokens"], w["total_tokens"].n)
        else w["total_tokens"].n == w["input_tokens"].n + w["output_tokens"].n)
  }

  /** The stored usage w: what the message reports wins, and whatever else was stored stays. */
  ghost predicate Overlays(w: Dict, u: Dict, old_: Dict) {
    && Standardised(w, u)
    && w.Keys == old_.Keys + u.Keys + STANDARD
    && (forall k :: k in old_ && k !in u && k !in STANDARD ==> w[k] == old_[k])
  }

  lemma CountsAre(u: Dict, a: string, b: string, c: string, d: string)
    ensures Counts(u, [a, b, c, d], TokenCount(Or(Or(Or(Get(u, a), Get(u, b)), Get(u, c)), Get(u, d))))
  {
    var n := TokenCount(Or(Or(Or(Get(u, a), Get(u, b)), Get(u, c)), Get(u, d)));
    assert [a, b, c, d][1..] == [b, c, d] && [b, c, d][1..] == [c, d] && [c, d][1..] == [d] && [d][1..] == [];
    if !Set(u, a) && !Set(u, b) && !Set(u, c) {
      assert Counts(u, [d], n);
    }
    assert Set(u, a) || Set(u, b) || Counts(u, [c, d], n);
  }

  lemma NormalizedIsStandardised(u: Dict)
    ensures Standardised(NormalizeUsage(u), u) && NormalizeUsage(u).Keys == u.Keys + STANDARD
  {
    CountsAre(u, "input_tokens", "prompt_tokens", "prompt_eval_count", "prompt_n");
    CountsAre(u, "output_tokens", "completion_tokens", "eval_count", "predicted_n");
    assert ["total_tokens"][1..] == [];
  }

  lemma MergedOverlays(u: Dict, n: Dict, old_: Dict)
    requires Standardised(n, u) && n.Keys == u.Keys + STANDARD
    ensures Overlays(old_ + n, u, old_)
  {
  }

  lemma ReportedIsRead(m: Message, u: Dict)
    requires Reports(m, u)
    ensures GetUsage(m) == Some(NormalizeUsage(u))
  {
  }

  lemma NothingReported(m: Message)
    requires forall u :: !Reports(m, u)
    ensures GetUsage(m) == None
  {
    if GetUsage(m).Some? {
      var u := Or(Look(m, Usage), if Look(m, Info).Obj? then Get(Look(m, Info).fields, "usage") else Null).fields;
      assert Reports(m, u);
    }
  }

  function Stored(usage: Option<Dict>): Dict {
    if usage.Some? then usage.value else map[]
  }

  lemma MergedUsage(before: Option<Dict>, u: Dict)
    ensures MergeUsage(before, Some(NormalizeUsage(u))).Some?
    ensures Overlays(MergeUsage(before, Some(NormalizeUsage(u))).value, u, Stored(before))
  {
    NormalizedIsStandardised(u);
    MergedOverlays(u, NormalizeUsage(u), Stored(before));
    assert map[] + NormalizeUsage(u) == NormalizeUsage(u);
  }

  /**
   An upsert lays the usage its message reports over the stored one; a message that reports none leaves the
   stored one alone.
   */
  lemma UpsertMergesUsage(rows: Table, messageId: string, chatId: string, userId: string, m: Message, now: int)
    ensures var key := Composite(chatId, messageId);
            var before := if key in rows then rows[key].usage else None;
            var after := Upserted(rows, messageId, chatId, userId, m, now)[key].usage;
            && (forall u :: Reports(m, u) ==> after.Some? && Overlays(after.value, u, Stored(before)))
            && ((forall u :: !Reports(m, u)) ==> after == before)
  {
    var key := Composite(chatId, messageId);
    var before := if key in rows then rows[key].usage else None;
    var after := Upserted(rows, messageId, chatId, userId, m, now)[key].usage;
    assert after == MergeUsage(before, GetUsage(m));
    forall u | Reports(m, u)
      ensures after.Some? && Overlays(after.value, u, Stored(before))
    {
      ReportedIsRead(m, u);
      MergedUsage(before, u);
    }
    if forall u :: !Reports(m, u) {
      NothingReported(m);
    }
  }

  // ---------- composite ids ----------

  /** Chat ids of one length (UUIDs) never collide. */
  lemma SameLengthInjective(c: string, m: string, d: string, n: string)
    requires |c| == |d| && Composite(c, m) == Composite(d, n)
    ensures c == d && m == n
  {
    assert Composite(c, m)[..|c|] == c && Composite(d, n)[..|d|] == d;
    assert Composite(c, m)[|c| + 1..] == m && Composite(d, n)[|d| + 1..] == n;
  }

  /** Exactly when two chats' messages share a row: one chat id continues the other past a dash. */
  lemma CompositeCollidesIff(c: string, m: string, d: string, n: string)
    requires |c| <= |d|
    ensures Composite(c, m) == Composite(d, n)
       <==> (c == d && m == n) || (exists x :: d == c + "-" + x && m == x + "-" + n)
  {
    if Composite(c, m) == Composite(d, n) && |c| < |d| {
      var x := d[|c| + 1..];
      assert Composite(d, n)[..|d|] == d;
      assert Composite(c, m)[..|c|] == c && Composite(c, m)[|c|] == '-';
      assert d == c + "-" + x;
      assert Composite(c, m)[|c| + 1..] == m;
      assert Composite(d, n)[|c| + 1..] == x + "-" + n;
    } else if Composite(c, m) == Composite(d, n) {
      SameLengthInjective(c, m, d, n);
    }
    if x :| d == c + "-" + x && m == x + "-" + n {
      assert c + "-" + (x + "-" + n) == (c + "-" + x) + "-" + n;
    }
  }

  /** What follows the chat id and a dash, when the key starts with them. */
  function StripPrefix(chatId: string, key: string): Option<string>
    decreases |chatId|
  {
    if key == "" then None
    else if chatId == "" then if key[0] == '-' then Some(key[1..]) else None
    else if key[0] == chatId[0] then StripPrefix(chatId[1..], key[1..])
    else None
  }

  lemma {:induction false} StripPrefixMeans(chatId: string, key: string, rest: string)
    ensures StripPrefix(chatId, key) == Some(rest) <==> key == Composite(chatId, rest)
    decreases |chatId|
  {
    if chatId == "" {
      assert Composite(chatId, rest) == "-" + rest;
    } else {
      StripPrefixMeans(chatId[1..], if key == "" then key else key[1..], rest);
      assert Composite(chatId, rest) == [chatId[0]] + Composite(chatId[1..], rest);
    }
    if key != "" {
      assert key == [key[0]] + key[1..];
    }
  }

  /** The message id a row's key was made from; a key without the chat's prefix stands for itself. */
  function MessageId(chatId: string, key: string): string {
    match StripPrefix(chatId, key)
    case Some(m) => m
    case None => key
  }

  lemma MessageIdRecovers(chatId: string, messageId: string)
    ensures MessageId(chatId, Composite(chatId, messageId)) == messageId
  {
    StripPrefixMeans(chatId, Composite(chatId, messageId), messageId);
  }

  // ---------- rebuilding the message map ----------

  /** The keys a rebuilt message can have before its child list is known. */
  const REBUILT: set<Field> := {Id, Role, ParentId, Content, Output, Model, Files, Sources, Embeds, Done,
                                StatusHistory, Error, Usage, Info, Timestamp}

  /** The value rebuilt for one key; Null means the key is left out. */
  function Rebuilt(id: string, r: Row, f: Field): Value {
    match f
    case Id => Str(id)
    case Role => r.fields.role
    case ParentId => r.fields.parentId
    case Content => if r.fields.content == Null then Str("") else r.fields.content
    case Output => r.fields.output
    case Model => r.fields.modelId
    case Files => r.fields.files
    case Sources => r.fields.sources
    case Embeds => r.fields.embeds
    case Done => r.fields.done
    case StatusHistory => r.fields.statusHistory
    case Error => r.fields.error
    case Usage => if r.usage.Some? then Obj(r.usage.value) else Null
    case Info => if r.usage.Some? then Obj(map["usage" := Obj(r.usage.value)]) else Null
    case Timestamp => r.createdAt
    case _ => Null
  }

  function RowMessage(id: string, r: Row): Message {
    map f | f in REBUILT && Rebuilt(id, r, f) != Null :: Rebuilt(id, r, f)
  }

  ghost predicate ReadsAs(m: Message, id: string, r: Row) {
    forall f :: (f in m <==> Rebuilt(id, r, f) != Null) && (f in m ==> m[f] == Rebuilt(id, r, f))
  }

  function Defaulted(t: Tracked): Tracked {
    t.(role := if t.role == Null then Str("user") else t.role,
       content := if t.content == Null then Str("") else t.content,
       done := if t.done == Null then Bool(true) else t.done)
  }

  lemma ProjectRebuilt(m: Message, id: string, r: Row)
    requires ReadsAs(m, id, r)
    ensures Project(m) == Defaulted(r.fields)
  {
  }

  lemma RebuiltKeys(id: string, r: Row, f: Field)
    ensures Rebuilt(id, r, f) != Null ==> f in REBUILT
  {
  }

  lemma RowMessageReads(id: string, r: Row)
    ensures ReadsAs(RowMessage(id, r), id, r)
  {
    var m := RowMessage(id, r);
    forall f
      ensures (f in m <==> Rebuilt(id, r, f) != Null) && (f in m ==> m[f] == Rebuilt(id, r, f))
    {
      RebuiltKeys(id, r, f);
    }
  }

  /** Re-projecting a rebuilt message gives back the row, with NULL role, content and done defaulted. */
  lemma RowMessageRoundTrip(id: string, r: Row)
    ensures Project(RowMessage(id, r)) == Defaulted(r.fields)
    ensures ChildrenIds !in RowMessage(id, r)
  {
    RowMessageReads(id, r);
    ProjectRebuilt(RowMessage(id, r), id, r);
  }

  ghost predicate Carries(m: Message, f: Field, v: Value) {
    if v == Null then f !in m else f in m && m[f] == v
  }

  /** A rebuilt message says its id, and, mirrored under info, the row's usage; its time is the row's creation. */
  lemma RebuiltCarries(m: Message, id: string, r: Row)
    requires ReadsAs(m, id, r)
    ensures Carries(m, Id, Str(id)) && Carries(m, Timestamp, r.createdAt)
    ensures Carries(m, Usage, if r.usage.Some? then Obj(r.usage.value) else Null)
    ensures Carries(m, Info, if r.usage.Some? then Obj(map["usage" := Obj(r.usage.value)]) else Null)
  {
  }

  lemma RowMessageCarries(id: string, r: Row)
    ensures Carries(RowMessage(id, r), Id, Str(id)) && Carries(RowMessage(id, r), Timestamp, r.createdAt)
    ensures Carries(RowMessage(id, r), Usage, if r.usage.Some? then Obj(r.usage.value) else Null)
    ensures Carries(RowMessage(id, r), Info, if r.usage.Some? then Obj(map["usage" := Obj(r.usage.value)]) else Null)
  {
    RowMessageReads(id, r);
    RebuiltCarries(RowMessage(id, r), id, r);
  }

  function AsRef(v: Value): Option<string> {
    if v.Str? && v.s != "" then Some(v.s) else None
  }

  /** The parent a message names, if any. */
  function ParentRef(m: Message): Option<string> {
    AsRef(Look(m, ParentId))
  }

  lemma RowMessageParent(id: string, r: Row)
    ensures ParentRef(RowMessage(id, r)) == AsRef(r.fields.parentId)
  {
    RowMessageReads(id, r);
    assert Rebuilt(id, r, ParentId) == r.fields.parentId;
  }

  /** The messages naming p as their parent, in the order of `ids`. */
  function Kids(ids: seq<string>, base: map<string, Message>, p: string): seq<string>
    requires forall x :: x in ids ==> x in base
  {
    if ids == [] then []
    else
      var last := ids[|ids| - 1];
      Kids(ids[..|ids| - 1], base, p) + if ParentRef(base[last]) == Some(p) then [last] else []
  }

  lemma {:induction false} KidsMembers(ids: seq<string>, base: map<string, Message>, p: string, x: string)
    requires forall y :: y in ids ==> y in base
    ensures x in Kids(ids, base, p) <==> x in ids && ParentRef(base[x]) == Some(p)
    decreases |ids|
  {
    if ids != [] {
      KidsMembers(ids[..|ids| - 1], base, p, x);
      assert x in ids <==> x in ids[..|ids| - 1] || x == ids[|ids| - 1];
    }
  }

  lemma {:induction false} KidsNoDup(ids: seq<string>, base: map<string, Message>, p: string)
    requires NoDup(ids) && forall x :: x in ids ==> x in base
    ensures NoDup(Kids(ids, base, p))
    decreases |ids|
  {
    if ids != [] {
      KidsNoDup(ids[..|ids| - 1], base, p);
      KidsMembers(ids[..|ids| - 1], base, p, ids[|ids| - 1]);
    }
  }

  lemma KidsStep(ids: seq<string>, x: string, base: map<string, Message>, p: string)
    requires x in base && forall y :: y in ids ==> y in base
    ensures Kids(ids + [x], base, p) == Kids(ids, base, p) + if ParentRef(base[x]) == Some(p) then [x] else []
  {
    assert (ids + [x])[..|ids|] == ids;
  }

  function Strs(ids: seq<string>): Value {
    List(seq(|ids|, i requires 0 <= i < |ids| => Str(ids[i])))
  }

  /** The messages whose parent is among `ids`. */
  function Resolved(ids: seq<string>, base: map<string, Message>, parents: seq<string>): nat
    requires forall x :: x in ids ==> x in base
  {
    if ids == [] then 0
    else
      var last := ids[|ids| - 1];
      Resolved(ids[..|ids| - 1], base, parents)
      + if ParentRef(base[last]).Some? && ParentRef(base[last]).value in parents then 1 else 0
  }

  function TotalKids(ids: seq<string>, base: map<string, Message>, parents: seq<string>): nat
    requires forall x :: x in ids ==> x in base
    decreases |parents|
  {
    if parents == [] then 0
    else |Kids(ids, base, parents[0])| + TotalKids(ids, base, parents[1..])
  }

  lemma {:induction false} NoKids(base: map<string, Message>, parents: seq<string>)
    ensures TotalKids([], base, parents) == 0
    decreases |parents|
  {
    if parents != [] { NoKids(base, parents[1..]); }
  }

  lemma {:induction false} OneMoreKid(ids: seq<string>, x: string, base: map<string, Message>, parents: seq<string>)
    requires NoDup(parents) && x in base && forall y :: y in ids ==> y in base
    ensures TotalKids(ids + [x], base, parents)
         == TotalKids(ids, base, parents)
            + if ParentRef(base[x]).Some? && ParentRef(base[x]).value in parents then 1 else 0
    decreases |parents|
  {
    if parents != [] {
      KidsStep(ids, x, base, parents[0]);
      OneMoreKid(ids, x, base, parents[1..]);
      assert parents == [parents[0]] + parents[1..];
      assert parents[0] !in parents[1..];
    }
  }

  /** Child-list lengths add up to the number of messages with a resolved parent. */
  lemma {:induction false} ChildListsCountResolved(ids: seq<string>, base: map<string, Message>, parents: seq<string>)
    requires NoDup(parents) && forall x :: x in ids ==> x in base
    ensures TotalKids(ids, base, parents) == Resolved(ids, base, parents)
    decreases |ids|
  {
    if ids == [] {
      NoKids(base, parents);
    } else {
      var n := |ids| - 1;
      assert ids == ids[..n] + [ids[n]];
      ChildListsCountResolved(ids[..n], base, parents);
      OneMoreKid(ids[..n], ids[n], base, parents);
    }
  }

  function Ids(chatId: string, rows: seq<(string, Row)>): seq<string> {
    seq(|rows|, i requires 0 <= i < |rows| => MessageId(chatId, rows[i].0))
  }

  /** The rebuilt messages by id, before child lists are added. */
  function Base(chatId: string, rows: seq<(string, Row)>): (base: map<string, Message>)
    ensures forall x :: x in base <==> x in Ids(chatId, rows)
    ensures forall x :: x in base ==> ChildrenIds !in base[x]
  {
    if rows == [] then map[]
    else
      var n := |rows| - 1;
      var id := MessageId(chatId, rows[n].0);
      assert Ids(chatId, rows) == Ids(chatId, rows[..n]) + [id];
      RowMessageRoundTrip(id, rows[n].1);
      Base(chatId, rows[..n])[id := RowMessage(id, rows[n].1)]
  }

  function WithKids(m: Message, kids: seq<string>): Message {
    if kids == [] then m else m[ChildrenIds := Strs(kids)]
  }

  /** m with child x appended to its list, unless x is listed already. */
  function AddChild(m: Message, x: string): Message {
    var children := Look(m, ChildrenIds);
    if children == Null then m[ChildrenIds := List([Str(x)])]
    else if children.List? && Str(x) !in children.items then m[ChildrenIds := List(children.items + [Str(x)])]
    else m
  }

  lemma AddChildStep(m: Message, kids: seq<string>, x: string)
    requires ChildrenIds !in m && x !in kids
    ensures AddChild(WithKids(m, kids), x) == WithKids(m, kids + [x])
  {
    if kids != [] {
      assert Str(x) !in Strs(kids).items;
      assert Strs(kids + [x]).items == Strs(kids).items + [Str(x)];
    } else {
      assert kids + [x] == [x] && Strs([x]).items == [Str(x)];
    }
  }

  lemma LinkStep(ids: seq<string>, i: nat, base: map<string, Message>, p: string)
    requires i < |ids| && NoDup(ids) && p in base && ChildrenIds !in base[p]
    requires forall x :: x in ids ==> x in base
    ensures WithKids(base[p], Kids(ids[..i + 1], base, p))
         == if ParentRef(base[ids[i]]) == Some(p) then AddChild(WithKids(base[p], Kids(ids[..i], base, p)), ids[i])
            else WithKids(base[p], Kids(ids[..i], base, p))
  {
    PrefixStep(ids, i);
    KidsStep(ids[..i], ids[i], base, p);
    assert ids[i] !in ids[..i];
    if ParentRef(base[ids[i]]) == Some(p) {
      KidsMembers(ids[..i], base, p, ids[i]);
      AddChildStep(base[p], Kids(ids[..i], base, p), ids[i]);
    } else {
      assert Kids(ids[..i], base, p) + [] == Kids(ids[..i], base, p);
    }
  }

  /** Appends x to its parent's child list, when the parent is in the map. */
  function Link(mm: map<string, Message>, x: string): map<string, Message>
    requires x in mm
  {
    var parent := ParentRef(mm[x]);
    if parent.Some? && parent.value in mm then mm[parent.value := AddChild(mm[parent.value], x)] else mm
  }

  ghost predicate Linked(mm: map<string, Message>, ids: seq<string>, base: map<string, Message>)
    requires forall x :: x in ids ==> x in base
  {
    && mm.Keys == base.Keys
    && forall x :: x in base ==> mm[x] == WithKids(base[x], Kids(ids, base, x))
  }

  lemma SameParent(m: Message, kids: seq<string>)
    ensures ParentRef(WithKids(m, kids)) == ParentRef(m)
  {
  }

  lemma LinkedAt(mm: map<string, Message>, ids: seq<string>, i: nat, base: map<string, Message>, p: string)
    requires i < |ids| && NoDup(ids) && (forall x :: x in ids ==> x in base)
    requires p in base && ChildrenIds !in base[p]
    requires Linked(mm, ids[..i], base) && ids[i] in mm
    ensures p in Link(mm, ids[i]) && Link(mm, ids[i])[p] == WithKids(base[p], Kids(ids[..i + 1], base, p))
  {
    SameParent(base[ids[i]], Kids(ids[..i], base, ids[i]));
    LinkStep(ids, i, base, p);
  }

  lemma LinkedStep(mm: map<string, Message>, ids: seq<string>, i: nat, base: map<string, Message>)
    requires i < |ids| && NoDup(ids) && (forall x :: x in ids ==> x in base)
    requires forall x :: x in base ==> ChildrenIds !in base[x]
    requires Linked(mm, ids[..i], base)
    ensures ids[i] in mm && Linked(Link(mm, ids[i]), ids[..i + 1], base)
  {
    var mm' := Link(mm, ids[i]);
    assert mm'.Keys == base.Keys;
    forall p | p in base
      ensures mm'[p] == WithKids(base[p], Kids(ids[..i + 1], base, p))
    {
      LinkedAt(mm, ids, i, base, p);
    }
  }

  method LinkChildren(ids: seq<string>, base: map<string, Message>) returns (mm: map<string, Message>)
    requires NoDup(ids) && forall x :: x in base <==> x in ids
    requires forall x :: x in base ==> ChildrenIds !in base[x]
    ensures Linked(mm, ids, base)
  {
    mm := base;
    assert Linked(mm, ids[..0], base);
    for i := 0 to |ids|
      invariant Linked(mm, ids[..i], base)
    {
      LinkedStep(mm, ids, i, base);
      mm := Link(mm, ids[i]);
    }
    assert ids[..|ids|] == ids;
  }

  /** Messages that ended up without a child list get an empty one. */
  method FillLeaves(linked: map<string, Message>) returns (mm: map<string, Message>)
    ensures mm.Keys == linked.Keys
    ensures forall x :: x in mm ==>
              mm[x] == if ChildrenIds in linked[x] then linked[x] else linked[x][ChildrenIds := List([])]
  {
    mm := linked;
    var left := mm.Keys;
    while left != {}
      invariant left <= mm.Keys == linked.Keys
      invariant forall x :: x in mm ==>
                  mm[x] == if x in left || ChildrenIds in linked[x] then linked[x]
                           else linked[x][ChildrenIds := List([])]
      decreases left
    {
      var x :| x in left;
      left := left - {x};
      if ChildrenIds !in mm[x] {
        mm := mm[x := mm[x][ChildrenIds := List([])]];
      }
    }
  }

  /** Every row's message under its recovered id, with the list of messages naming it as parent, in row order. */
  ghost predicate Built(chatId: string, rows: seq<(string, Row)>, mm: map<string, Message>) {
    var ids, base := Ids(chatId, rows), Base(chatId, rows);
    mm.Keys == base.Keys && forall x :: x in mm ==> mm[x] == base[x][ChildrenIds := Strs(Kids(ids, base, x))]
  }

  lemma BuiltParents(chatId: string, rows: seq<(string, Row)>, mm: map<string, Message>, x: string)
    requires Built(chatId, rows, mm) && x in mm
    ensures ParentRef(mm[x]) == ParentRef(Base(chatId, rows)[x])
  {
  }

  lemma LeavesFilled(ids: seq<string>, base: map<string, Message>, linked: map<string, Message>,
                     mm: map<string, Message>)
    requires forall x :: x in ids ==> x in base
    requires forall x :: x in base ==> ChildrenIds !in base[x]
    requires Linked(linked, ids, base) && mm.Keys == linked.Keys
    requires forall x :: x in mm ==>
               mm[x] == if ChildrenIds in linked[x] then linked[x] else linked[x][ChildrenIds := List([])]
    ensures forall x :: x in mm ==> mm[x] == base[x][ChildrenIds := Strs(Kids(ids, base, x))]
  {
    assert Strs([]).items == [];
  }

  /**
   The message map of one chat: every row's message under its recovered id, each with the list of the
   messages that name it as parent, in row order.
   */
  method BuildMessagesMap(chatId: string, rows: seq<(string, Row)>) returns (mm: map<string, Message>)
    requires NoDup(Ids(chatId, rows))
    ensures Built(chatId, rows, mm)
  {
    var base: map<string, Message> := map[];
    for i := 0 to |rows|
      invariant base == Base(chatId, rows[..i])
    {
      assert rows[..i + 1][..i] == rows[..i];
      var id := MessageId(chatId, rows[i].0);
      base := base[id := RowMessage(id, rows[i].1)];
    }
    assert rows[..|rows|] == rows;
    var linked := LinkChildren(Ids(chatId, rows), base);
    mm := FillLeaves(linked);
    LeavesFilled(Ids(chatId, rows), base, linked, mm);
  }

  /** Child lists are the exact inverse of the resolved parent links, without repeats. */
  lemma ChildListsInvertParents(chatId: string, rows: seq<(string, Row)>, p: string, x: string)
    requires NoDup(Ids(chatId, rows)) && p in Base(chatId, rows)
    ensures var ids, base := Ids(chatId, rows), Base(chatId, rows);
            && NoDup(Kids(ids, base, p))
            && (x in Kids(ids, base, p) <==> x in base && ParentRef(base[x]) == Some(p))
  {
    KidsNoDup(Ids(chatId, rows), Base(chatId, rows), p);
    KidsMembers(Ids(chatId, rows), Base(chatId, rows), p, x);
  }
}
