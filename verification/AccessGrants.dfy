/**
 The access_grant table: the normaliser that guards its uniqueness constraint, the operations that
 change it, and the four queries that all compute one permission relation.
 */
module AccessGrants {
  import opened Options
  import opened Seqs
  import opened Sets
  import opened Json
  import opened LegacyAccess

  // ---------- normalising payloads ----------

  /** An element of an access_grants payload: a dict (or a model dumped to one), or something else. */
  datatype Raw = Junk | Fields(d: Dict)

  datatype Normal = Normal(id: string, principalType: PrincipalType, principalId: string, permission: Permission)

  type Slot = (PrincipalType, string, Permission)

  function SlotOf(n: Normal): Slot {
    (n.principalType, n.principalId, n.permission)
  }

  predicate IsText(v: Value) {
    v.Str? && v.s != ""
  }

  /** What the normaliser reads off one element: nothing usable, or a slot and an optional id. */
  datatype Mention = Unusable | Usable(slot: Slot, id: Option<string>)

  function Parse(r: Raw): Mention {
    if r.Junk? then Unusable
    else
      var t, p, who, id := Get(r.d, "principal_type"), Get(r.d, "permission"), Get(r.d, "principal_id"), Get(r.d, "id");
      if t != Str("user") && t != Str("group") then Unusable
      else if p != Str("read") && p != Str("write") then Unusable
      else if !IsText(who) then Unusable
      else Usable((if t == Str("user") then User else Group, who.s, if p == Str("read") then Read else Write),
                  if IsText(id) then Some(id.s) else None)
  }

  function ParseAll(raw: seq<Raw>): seq<Mention> {
    seq(|raw|, i requires 0 <= i < |raw| => Parse(raw[i]))
  }

  function Entry(m: Mention, uuid: string): Normal
    requires m.Usable?
  {
    Normal(if m.id.Some? then m.id.value else uuid, m.slot.0, m.slot.1, m.slot.2)
  }

  /** The slots the usable elements of a payload name, in order. */
  function Slots(ms: seq<Mention>): seq<Slot> {
    if ms == [] then []
    else Slots(ms[..|ms| - 1]) + if ms[|ms| - 1].Usable? then [ms[|ms| - 1].slot] else []
  }

  function SlotsOf(r: seq<Normal>): seq<Slot> {
    seq(|r|, i requires 0 <= i < |r| => SlotOf(r[i]))
  }

  /** The last usable element naming a slot: the one whose entry a dict keeps. */
  ghost predicate LastNaming(ms: seq<Mention>, slot: Slot, k: nat) {
    && k < |ms| && ms[k].Usable? && ms[k].slot == slot
    && forall j :: k < j < |ms| && ms[j].Usable? ==> ms[j].slot != slot
  }

  /** n is the entry for its slot's last mention. */
  ghost predicate Backed(ms: seq<Mention>, uuids: seq<string>, n: Normal)
    requires |ms| <= |uuids|
  {
    exists k: nat :: LastNaming(ms, SlotOf(n), k) && n == Entry(ms[k], uuids[k])
  }

  /** One entry per slot in order of first mention, each taken from the slot's last mention. */
  ghost predicate IsNormalForm(ms: seq<Mention>, uuids: seq<string>, r: seq<Normal>)
    requires |uuids| == |ms|
  {
    SlotsOf(r) == Dedup(Slots(ms)) && forall i :: 0 <= i < |r| ==> Backed(ms, uuids, r[i])
  }

  /** A dict whose fields spell out the slot: a known type and permission, and a principal that is some text. */
  ghost predicate Names(r: Raw, slot: Slot) {
    && r.Fields? && {"principal_type", "principal_id", "permission"} <= r.d.Keys
    && ((slot.0 == User && r.d["principal_type"] == Str("user"))
        || (slot.0 == Group && r.d["principal_type"] == Str("group")))
    && slot.1 != "" && r.d["principal_id"] == Str(slot.1)
    && ((slot.2 == Read && r.d["permission"] == Str("read"))
        || (slot.2 == Write && r.d["permission"] == Str("write")))
  }

  /** The id a dict brings along, if it is some text. */
  ghost predicate HasId(r: Raw) {
    r.Fields? && "id" in r.d && r.d["id"].Str? && r.d["id"].s != ""
  }

  ghost predicate LastNames(raw: seq<Raw>, slot: Slot, k: nat) {
    k < |raw| && Names(raw[k], slot) && forall l :: k < l < |raw| ==> !Names(raw[l], slot)
  }

  ghost predicate NamedIn(raw: seq<Raw>, slot: Slot) {
    exists k :: 0 <= k < |raw| && Names(raw[k], slot)
  }

  /** a is named before b is. */
  ghost predicate NamedBefore(raw: seq<Raw>, a: Slot, b: Slot) {
    exists n: nat :: n < |raw| && Names(raw[n], a) && forall l :: 0 <= l <= n ==> !Names(raw[l], b)
  }

  /** The entry's id is the one its slot's last mention brings along, or else a fresh one. */
  ghost predicate Identified(raw: seq<Raw>, uuids: seq<string>, n: Normal)
    requires |uuids| == |raw|
  {
    exists k: nat :: LastNames(raw, SlotOf(n), k) && n.id == if HasId(raw[k]) then raw[k].d["id"].s else uuids[k]
  }

  /**
   What normalising promises of a payload: an entry for each slot that some element names and for no other,
   once, in order of first mention, under the id its last mention brings along or else a fresh one.
   */
  ghost predicate Normalizes(raw: seq<Raw>, uuids: seq<string>, r: seq<Normal>)
    requires |uuids| == |raw|
  {
    && (forall slot :: NamedIn(raw, slot) <==> slot in SlotsOf(r))
    && (forall i :: 0 <= i < |r| ==> Identified(raw, uuids, r[i]))
    && (forall i, j :: 0 <= i < j < |r| ==> NamedBefore(raw, SlotOf(r[i]), SlotOf(r[j])))
  }

  /** Every entry of the dict is its slot's last mention. */
  ghost predicate AllBacked(ms: seq<Mention>, uuids: seq<string>, deduped: map<Slot, Normal>)
    requires |ms| <= |uuids|
  {
    forall s :: s in deduped ==> SlotOf(deduped[s]) == s && Backed(ms, uuids, deduped[s])
  }

  /** `order` is the dict's insertion order. */
  ghost predicate Ordered(order: seq<Slot>, deduped: map<Slot, Normal>) {
    forall s :: s in deduped <==> s in order
  }

  lemma SlotsStep(ms: seq<Mention>, x: Mention)
    ensures Slots(ms + [x]) == if x.Usable? then Slots(ms) + [x.slot] else Slots(ms)
  {
    assert (ms + [x])[..|ms|] == ms;
    assert Slots(ms) + [] == Slots(ms);
  }

  /** A mention of another slot, or of none, leaves an entry backed. */
  lemma BackedStep(ms: seq<Mention>, x: Mention, uuids: seq<string>, n: Normal)
    requires |ms| < |uuids| && Backed(ms, uuids, n) && (x.Usable? ==> x.slot != SlotOf(n))
    ensures Backed(ms + [x], uuids, n)
  {
    var k: nat :| LastNaming(ms, SlotOf(n), k) && n == Entry(ms[k], uuids[k]);
    assert LastNaming(ms + [x], SlotOf(n), k);
  }

  lemma SkipBacked(ms: seq<Mention>, x: Mention, uuids: seq<string>, deduped: map<Slot, Normal>)
    requires |ms| < |uuids| && x.Unusable? && AllBacked(ms, uuids, deduped)
    ensures AllBacked(ms + [x], uuids, deduped)
  {
    forall s | s in deduped
      ensures Backed(ms + [x], uuids, deduped[s])
    {
      BackedStep(ms, x, uuids, deduped[s]);
    }
  }

  lemma LastIsBacked(ms: seq<Mention>, x: Mention, uuids: seq<string>)
    requires |ms| < |uuids| && x.Usable?
    ensures SlotOf(Entry(x, uuids[|ms|])) == x.slot && Backed(ms + [x], uuids, Entry(x, uuids[|ms|]))
  {
    assert LastNaming(ms + [x], x.slot, |ms|);
  }

  lemma PutBacked(ms: seq<Mention>, x: Mention, uuids: seq<string>, deduped: map<Slot, Normal>)
    requires |ms| < |uuids| && x.Usable? && AllBacked(ms, uuids, deduped)
    ensures AllBacked(ms + [x], uuids, deduped[x.slot := Entry(x, uuids[|ms|])])
  {
    LastIsBacked(ms, x, uuids);
    forall s | s in deduped && s != x.slot
      ensures Backed(ms + [x], uuids, deduped[s])
    {
      BackedStep(ms, x, uuids, deduped[s]);
    }
  }

  lemma OrderStep(ms: seq<Mention>, x: Mention, order: seq<Slot>, deduped: map<Slot, Normal>)
    requires x.Usable? && order == Dedup(Slots(ms)) && Ordered(order, deduped)
    ensures Dedup(Slots(ms + [x])) == if x.slot in deduped then order else order + [x.slot]
  {
    SlotsStep(ms, x);
    DedupStep(Slots(ms), x.slot);
  }

  lemma OrderedStep(order: seq<Slot>, deduped: map<Slot, Normal>, slot: Slot, n: Normal)
    requires Ordered(order, deduped)
    ensures Ordered(if slot in deduped then order else order + [slot], deduped[slot := n])
  {
    assert forall s :: s in order + [slot] <==> s in order || s == slot;
  }

  /** What the normaliser reads off an element is what its fields spell out. */
  lemma ParseReads(r: Raw, slot: Slot)
    ensures Names(r, slot) <==> Parse(r).Usable? && Parse(r).slot == slot
    ensures Names(r, slot) ==> Parse(r).id == if HasId(r) then Some(r.d["id"].s) else None
  {
  }

  lemma LastNamesIff(raw: seq<Raw>, slot: Slot, k: nat)
    ensures LastNames(raw, slot, k) <==> LastNaming(ParseAll(raw), slot, k)
  {
    forall j | 0 <= j < |raw|
      ensures Names(raw[j], slot) <==> ParseAll(raw)[j].Usable? && ParseAll(raw)[j].slot == slot
    {
      ParseReads(raw[j], slot);
    }
  }

  lemma {:induction false} SlotsAre(ms: seq<Mention>, slot: Slot)
    ensures slot in Slots(ms) <==> exists k :: 0 <= k < |ms| && ms[k].Usable? && ms[k].slot == slot
    decreases |ms|
  {
    if ms != [] {
      SlotsAre(ms[..|ms| - 1], slot);
      var last := ms[|ms| - 1];
      if last.Usable? && last.slot == slot {
        assert Slots(ms)[|Slots(ms)| - 1] == slot;
      } else if slot in Slots(ms) {
        var k :| 0 <= k < |ms| - 1 && ms[..|ms| - 1][k].Usable? && ms[..|ms| - 1][k].slot == slot;
        assert ms[k].Usable? && ms[k].slot == slot;
      } else {
        assert forall k :: 0 <= k < |ms| - 1 ==> ms[k] == ms[..|ms| - 1][k];
      }
    }
  }

  /** Of two slots in a normal form, some mention of the first comes before every mention of the second. */
  lemma {:induction false} DedupInOrder(ms: seq<Mention>, i: nat, j: nat) returns (n: nat)
    requires i < j < |Dedup(Slots(ms))|
    ensures n < |ms| && ms[n].Usable? && ms[n].slot == Dedup(Slots(ms))[i]
    ensures forall l :: 0 <= l <= n && ms[l].Usable? ==> ms[l].slot != Dedup(Slots(ms))[j]
    decreases |ms|
  {
    var most, last := ms[..|ms| - 1], ms[|ms| - 1];
    assert ms == most + [last];
    SlotsStep(most, last);
    if last.Usable? { DedupStep(Slots(most), last.slot); }
    if j < |Dedup(Slots(most))| {
      n := DedupInOrder(most, i, j);
    } else {
      var a, b := Dedup(Slots(most))[i], Dedup(Slots(ms))[j];
      SlotsAre(most, a);
      SlotsAre(most, b);
      n :| 0 <= n < |most| && most[n].Usable? && most[n].slot == a;
    }
  }

  lemma NamedInIff(raw: seq<Raw>, slot: Slot)
    ensures NamedIn(raw, slot) <==> slot in Slots(ParseAll(raw))
  {
    var ms := ParseAll(raw);
    SlotsAre(ms, slot);
    if NamedIn(raw, slot) {
      var k :| 0 <= k < |raw| && Names(raw[k], slot);
      ParseReads(raw[k], slot);
      assert ms[k].Usable? && ms[k].slot == slot;
    } else if slot in Slots(ms) {
      var k :| 0 <= k < |ms| && ms[k].Usable? && ms[k].slot == slot;
      ParseReads(raw[k], slot);
    }
  }

  lemma BackedIsIdentified(raw: seq<Raw>, uuids: seq<string>, n: Normal)
    requires |uuids| == |raw| && Backed(ParseAll(raw), uuids, n)
    ensures Identified(raw, uuids, n)
  {
    var ms := ParseAll(raw);
    var k: nat :| LastNaming(ms, SlotOf(n), k) && n == Entry(ms[k], uuids[k]);
    LastNamesIff(raw, SlotOf(n), k);
    ParseReads(raw[k], SlotOf(n));
  }

  lemma DedupNamedBefore(raw: seq<Raw>, i: nat, j: nat)
    requires i < j < |Dedup(Slots(ParseAll(raw)))|
    ensures NamedBefore(raw, Dedup(Slots(ParseAll(raw)))[i], Dedup(Slots(ParseAll(raw)))[j])
  {
    var ms := ParseAll(raw);
    var a, b := Dedup(Slots(ms))[i], Dedup(Slots(ms))[j];
    var n := DedupInOrder(ms, i, j);
    ParseReads(raw[n], a);
    forall l | 0 <= l <= n
      ensures !Names(raw[l], b)
    {
      ParseReads(raw[l], b);
      assert ms[l].Usable? ==> ms[l].slot != b;
    }
  }

  lemma NormalFormNormalizes(raw: seq<Raw>, uuids: seq<string>, r: seq<Normal>)
    requires |uuids| == |raw| && IsNormalForm(ParseAll(raw), uuids, r)
    ensures Normalizes(raw, uuids, r)
  {
    forall slot
      ensures NamedIn(raw, slot) <==> slot in SlotsOf(r)
    {
      NamedInIff(raw, slot);
    }
    forall i | 0 <= i < |r|
      ensures Identified(raw, uuids, r[i])
    {
      BackedIsIdentified(raw, uuids, r[i]);
    }
    forall i, j | 0 <= i < j < |r|
      ensures NamedBefore(raw, SlotOf(r[i]), SlotOf(r[j]))
    {
      assert SlotsOf(r)[i] == SlotOf(r[i]) && SlotsOf(r)[j] == SlotOf(r[j]);
      DedupNamedBefore(raw, i, j);
    }
  }

  /** `uuids` are the fresh ids uuid4 would supply, one for each element that needs one. */
  method NormalizeAccessGrants(raw: seq<Raw>, uuids: seq<string>) returns (r: seq<Normal>)
    requires |uuids| == |raw|
    ensures IsNormalForm(ParseAll(raw), uuids, r)
    ensures Normalizes(raw, uuids, r)
  {
    var ms := ParseAll(raw);
    var order: seq<Slot> := [];
    var deduped: map<Slot, Normal> := map[];
    for i := 0 to |ms|
      invariant order == Dedup(Slots(ms[..i])) && Ordered(order, deduped)
      invariant AllBacked(ms[..i], uuids, deduped)
    {
      PrefixStep(ms, i);
      SlotsStep(ms[..i], ms[i]);
      if ms[i].Unusable? {
        SkipBacked(ms[..i], ms[i], uuids, deduped);
        continue;
      }
      var slot := ms[i].slot;
      OrderStep(ms[..i], ms[i], order, deduped);
      OrderedStep(order, deduped, slot, Entry(ms[i], uuids[i]));
      PutBacked(ms[..i], ms[i], uuids, deduped);
      if slot !in deduped {
        order := order + [slot];
      }
      deduped := deduped[slot := Entry(ms[i], uuids[i])];
    }
    assert ms[..|ms|] == ms;
    r := seq(|order|, j requires 0 <= j < |order| => deduped[order[j]]);
    assert SlotsOf(r) == order;
    NormalFormNormalizes(raw, uuids, r);
  }

  function AsRaw(n: Normal): Raw {
    Fields(map["id" := Str(n.id),
               "principal_type" := Str(if n.principalType == User then "user" else "group"),
               "principal_id" := Str(n.principalId),
               "permission" := Str(if n.permission == Read then "read" else "write")])
  }

  function AllRaw(r: seq<Normal>): seq<Raw> {
    seq(|r|, i requires 0 <= i < |r| => AsRaw(r[i]))
  }

  predicate WellFormed(n: Normal) {
    n.id != "" && n.principalId != "" && n.principalType in {User, Group} && n.permission in {Read, Write}
  }

  lemma AsRawReadsBack(n: Normal)
    requires WellFormed(n)
    ensures Parse(AsRaw(n)) == Usable(SlotOf(n), Some(n.id))
  {
  }

  ghost predicate ReadsBack(ms: seq<Mention>, r: seq<Normal>) {
    |ms| == |r| && forall i :: 0 <= i < |r| ==> ms[i] == Usable(SlotOf(r[i]), Some(r[i].id))
  }

  lemma AllRawReadsBack(r: seq<Normal>)
    requires forall n :: n in r ==> WellFormed(n)
    ensures ReadsBack(ParseAll(AllRaw(r)), r)
  {
    forall i | 0 <= i < |r|
      ensures ParseAll(AllRaw(r))[i] == Usable(SlotOf(r[i]), Some(r[i].id))
    {
      AsRawReadsBack(r[i]);
    }
  }

  lemma {:induction false} SlotsOfNormal(ms: seq<Mention>, r: seq<Normal>)
    requires ReadsBack(ms, r)
    ensures Slots(ms) == SlotsOf(r)
    decreases |r|
  {
    if r != [] {
      SlotsOfNormal(ms[..|ms| - 1], r[..|r| - 1]);
    }
  }

  lemma {:induction false} SlotsShort(ms: seq<Mention>)
    ensures |Slots(ms)| <= |ms|
    decreases |ms|
  {
    if ms != [] { SlotsShort(ms[..|ms| - 1]); }
  }

  lemma NormalFormWellFormed(raw: seq<Raw>, uuids: seq<string>, r: seq<Normal>)
    requires |uuids| == |raw| && "" !in uuids && IsNormalForm(ParseAll(raw), uuids, r)
    ensures forall n :: n in r ==> WellFormed(n)
    ensures forall i, j :: 0 <= i < j < |r| ==> SlotOf(r[i]) != SlotOf(r[j])
    ensures |r| <= |raw|
  {
    forall i | 0 <= i < |r|
      ensures WellFormed(r[i])
    {
      var k: nat :| LastNaming(ParseAll(raw), SlotOf(r[i]), k) && r[i] == Entry(ParseAll(raw)[k], uuids[k]);
      assert ParseAll(raw)[k] == Parse(raw[k]);
    }
    forall i, j | 0 <= i < j < |r|
      ensures SlotOf(r[i]) != SlotOf(r[j])
    {
      assert SlotsOf(r)[i] != SlotsOf(r)[j];
    }
    SlotsShort(ParseAll(raw));
  }

  /** The result of normalising has one entry per (type, id, permission), and normalising it again changes nothing. */
  lemma NormalizeIsIdempotent(raw: seq<Raw>, uuids: seq<string>, r: seq<Normal>, uuids': seq<string>, r': seq<Normal>)
    requires |uuids| == |raw| && "" !in uuids && IsNormalForm(ParseAll(raw), uuids, r)
    requires |uuids'| == |r| && IsNormalForm(ParseAll(AllRaw(r)), uuids', r')
    ensures NoDup(SlotsOf(r))
    ensures r' == r
  {
    NormalFormWellFormed(raw, uuids, r);
    AllRawReadsBack(r);
    var ms := ParseAll(AllRaw(r));
    SlotsOfNormal(ms, r);
    DedupShorterIff(SlotsOf(r));
    assert SlotsOf(r') == SlotsOf(r);
    forall i | 0 <= i < |r|
      ensures r'[i] == r[i]
    {
      assert SlotsOf(r')[i] == SlotsOf(r)[i];
      var k: nat :| LastNaming(ms, SlotOf(r'[i]), k) && r'[i] == Entry(ms[k], uuids'[k]);
      assert SlotsOf(r)[k] == SlotsOf(r)[i];
    }
  }

  // ---------- the table ----------

  datatype Grant = Grant(key: Key, createdAt: int)

  /** access_grant rows by id. */
  type Table = map<string, Grant>

  predicate UniqueGrants(t: Table) {
    forall i, j :: i in t && j in t && i != j ==> t[i].key != t[j].key
  }

  predicate HasKey(t: Table, key: Key) {
    exists i :: i in t && t[i].key == key
  }

  predicate ForResource(key: Key, rt: string, rid: string) {
    key.resourceType == rt && key.resourceId == rid
  }

  function WithoutKey(t: Table, key: Key): Table {
    map i | i in t && t[i].key != key :: t[i]
  }

  function WithoutResource(t: Table, rt: string, rid: string): Table {
    map i | i in t && !ForResource(t[i].key, rt, rid) :: t[i]
  }

  /** Rows added one by one, each under its own fresh id. */
  function Inserted(t: Table, keys: seq<Key>, ids: seq<string>, now: int): Table
    requires |ids| == |keys|
  {
    if keys == [] then t
    else Inserted(t, keys[..|keys| - 1], ids[..|keys| - 1], now)[ids[|keys| - 1] := Grant(keys[|keys| - 1], now)]
  }

  /** Ids that uuid4 mints: pairwise different and not yet in the table. */
  ghost predicate FreshIds(t: Table, ids: seq<string>) {
    NoDup(ids) && forall id :: id in ids ==> id !in t
  }

  lemma {:induction false} InsertedRows(t: Table, keys: seq<Key>, ids: seq<string>, now: int)
    requires |ids| == |keys| && FreshIds(t, ids)
    ensures var t' := Inserted(t, keys, ids, now);
            && (forall i :: i in t' <==> i in t || i in ids)
            && (forall i :: i in t ==> t'[i] == t[i])
            && (forall k :: 0 <= k < |ids| ==> t'[ids[k]] == Grant(keys[k], now))
    decreases |keys|
  {
    if keys != [] {
      var n := |keys| - 1;
      InsertedRows(t, keys[..n], ids[..n], now);
      assert ids == ids[..n] + [ids[n]];
      assert ids[n] !in ids[..n];
    }
  }

  /** Replacing a resource's grants by `keys` satisfies the uniqueness constraint exactly when `keys` repeats none. */
  lemma InsertedUniqueIff(t: Table, rt: string, rid: string, keys: seq<Key>, ids: seq<string>, now: int)
    requires UniqueGrants(t) && |ids| == |keys| && FreshIds(t, ids)
    requires forall k :: k in keys ==> ForResource(k, rt, rid)
    ensures UniqueGrants(Inserted(WithoutResource(t, rt, rid), keys, ids, now)) <==> NoDup(keys)
  {
    var kept := WithoutResource(t, rt, rid);
    var t' := Inserted(kept, keys, ids, now);
    InsertedRows(kept, keys, ids, now);
    if UniqueGrants(t') {
      forall a, b | 0 <= a < b < |keys|
        ensures keys[a] != keys[b]
      {
        assert t'[ids[a]].key == keys[a] && t'[ids[b]].key == keys[b] && ids[a] != ids[b];
      }
    }
    if NoDup(keys) {
      forall i, j | i in t' && j in t' && i != j
        ensures t'[i].key != t'[j].key
      {
        if i in kept && j in kept {
        } else if i in kept {
          var b :| 0 <= b < |ids| && ids[b] == j;
          assert keys[b] in keys;
        } else if j in kept {
          var a :| 0 <= a < |ids| && ids[a] == i;
          assert keys[a] in keys;
        } else {
          var a :| 0 <= a < |ids| && ids[a] == i;
          var b :| 0 <= b < |ids| && ids[b] == j;
        }
      }
    }
  }

  /** Replacing a resource's grants leaves it exactly `keys`, and every other resource exactly what it had. */
  lemma ReplaceMeans(t: Table, rt: string, rid: string, keys: seq<Key>, ids: seq<string>, now: int, key: Key)
    requires |ids| == |keys| && FreshIds(t, ids)
    requires forall k :: k in keys ==> ForResource(k, rt, rid)
    ensures HasKey(Inserted(WithoutResource(t, rt, rid), keys, ids, now), key)
       <==> if ForResource(key, rt, rid) then key in keys else HasKey(t, key)
  {
    var kept := WithoutResource(t, rt, rid);
    var t' := Inserted(kept, keys, ids, now);
    InsertedRows(kept, keys, ids, now);
    if HasKey(t', key) {
      var i :| i in t' && t'[i].key == key;
      if i !in kept {
        var k :| 0 <= k < |ids| && ids[k] == i;
        assert keys[k] in keys;
      }
    }
    if ForResource(key, rt, rid) && key in keys {
      var k :| 0 <= k < |keys| && keys[k] == key;
      assert t'[ids[k]].key == key;
    } else if !ForResource(key, rt, rid) && HasKey(t, key) {
      var i :| i in t && t[i].key == key;
      assert t'[i].key == key;
    }
  }

  function NormalKeys(rt: string, rid: string, r: seq<Normal>): seq<Key> {
    seq(|r|, i requires 0 <= i < |r| => Key(rt, rid, r[i].principalType, r[i].principalId, r[i].permission))
  }

  lemma NormalKeysDiffer(rt: string, rid: string, r: seq<Normal>)
    requires forall i, j :: 0 <= i < j < |r| ==> SlotOf(r[i]) != SlotOf(r[j])
    ensures NoDup(NormalKeys(rt, rid, r))
  {
    forall i, j | 0 <= i < j < |r|
      ensures NormalKeys(rt, rid, r)[i] != NormalKeys(rt, rid, r)[j]
    {
      assert SlotOf(r[i]) != SlotOf(r[j]);
    }
  }

  /** The resource's keys are those the payload's elements name. */
  lemma NormalKeysMean(rt: string, rid: string, raw: seq<Raw>, uuids: seq<string>, r: seq<Normal>, key: Key)
    requires |uuids| == |raw| && Normalizes(raw, uuids, r)
    ensures key in NormalKeys(rt, rid, r)
       <==> ForResource(key, rt, rid) && NamedIn(raw, (key.principalType, key.principalId, key.permission))
  {
    var slot := (key.principalType, key.principalId, key.permission);
    if key in NormalKeys(rt, rid, r) {
      var i :| 0 <= i < |r| && NormalKeys(rt, rid, r)[i] == key;
      assert SlotsOf(r)[i] == slot;
    }
    if ForResource(key, rt, rid) && NamedIn(raw, slot) {
      var i :| 0 <= i < |r| && SlotsOf(r)[i] == slot;
      assert NormalKeys(rt, rid, r)[i] == key;
    }
  }

  // ---------- runs ----------
  // ---------- runs ----------

  datatype Step =
    | GrantKey(id: string, key: Key, now: int)
    | RevokeKey(key: Key)
    | RevokeAll(rt: string, rid: string)
    | ReplaceAll(rt: string, rid: string, keys: seq<Key>, ids: seq<string>, now: int)

  ghost predicate Enabled(t: Table, step: Step) {
    match step
    case GrantKey(id, _, _) => id !in t
    case ReplaceAll(rt, rid, keys, ids, _) =>
      |ids| == |keys| && FreshIds(t, ids) && forall k :: k in keys ==> ForResource(k, rt, rid)
    case _ => true
  }

  /** A replacement whose keys repeat one violates the constraint and is rolled back. */
  ghost function Apply(t: Table, step: Step): Table
    requires Enabled(t, step)
  {
    match step
    case GrantKey(id, key, now) => if HasKey(t, key) then t else t[id := Grant(key, now)]
    case RevokeKey(key) => WithoutKey(t, key)
    case RevokeAll(rt, rid) => WithoutResource(t, rt, rid)
    case ReplaceAll(rt, rid, keys, ids, now) =>
      if NoDup(keys) then Inserted(WithoutResource(t, rt, rid), keys, ids, now) else t
  }

  /** The keys a table holds after a step, by the keys it held before. */
  ghost predicate Holds(held: Key -> bool, step: Step, key: Key) {
    match step
    case GrantKey(_, k, _) => held(key) || key == k
    case RevokeKey(k) => held(key) && key != k
    case RevokeAll(rt, rid) => held(key) && !ForResource(key, rt, rid)
    case ReplaceAll(rt, rid, keys, _, _) =>
      if NoDup(keys) && ForResource(key, rt, rid) then key in keys else held(key)
  }

  lemma StepKeepsUnique(t: Table, step: Step)
    requires UniqueGrants(t) && Enabled(t, step)
    ensures UniqueGrants(Apply(t, step))
  {
    if step.ReplaceAll? {
      var kept := WithoutResource(t, step.rt, step.rid);
      InsertedUniqueIff(t, step.rt, step.rid, step.keys, step.ids, step.now);
    }
  }

  lemma StepHolds(t: Table, step: Step, key: Key)
    requires Enabled(t, step)
    ensures HasKey(Apply(t, step), key) <==> Holds(k => HasKey(t, k), step, key)
  {
    match step
    case GrantKey(id, k, now) =>
      if !HasKey(t, k) {
        assert Apply(t, step)[id].key == k;
        if HasKey(t, key) {
          var i :| i in t && t[i].key == key;
          assert Apply(t, step)[i].key == key;
        }
      }
    case RevokeKey(k) =>
      if HasKey(t, key) && key != k {
        var i :| i in t && t[i].key == key;
        assert i in Apply(t, step);
      }
    case RevokeAll(rt, rid) =>
      if HasKey(t, key) && !ForResource(key, rt, rid) {
        var i :| i in t && t[i].key == key;
        assert i in Apply(t, step);
      }
    case ReplaceAll(rt, rid, keys, ids, now) =>
      if NoDup(keys) { ReplaceMeans(t, rt, rid, keys, ids, now, key); }
  }

  ghost predicate IsRun(t: Table, steps: seq<Step>)
    decreases |steps|
  {
    steps != [] ==> Enabled(t, steps[0]) && IsRun(Apply(t, steps[0]), steps[1..])
  }

  ghost function Run(t: Table, steps: seq<Step>): Table
    requires IsRun(t, steps)
    decreases |steps|
  {
    if steps == [] then t else Run(Apply(t, steps[0]), steps[1..])
  }

  /** Whether a key is granted after the steps, going by the requests alone. */
  ghost predicate GrantedAfter(steps: seq<Step>, before: bool, key: Key)
    decreases |steps|
  {
    if steps == [] then before else GrantedAfter(steps[1..], Holds(_ => before, steps[0], key), key)
  }

  /**
   Any run of grants, revocations and replacements keeps the keys unique, and a key is in the table
   exactly when the last request about it, or about its resource, granted it.
   */
  lemma {:induction false} RunKeepsGrants(t: Table, steps: seq<Step>, key: Key)
    requires UniqueGrants(t) && IsRun(t, steps)
    ensures UniqueGrants(Run(t, steps))
    ensures HasKey(Run(t, steps), key) <==> GrantedAfter(steps, HasKey(t, key), key)
    decreases |steps|
  {
    if steps != [] {
      StepKeepsUnique(t, steps[0]);
      StepHolds(t, steps[0], key);
      RunKeepsGrants(Apply(t, steps[0]), steps[1..], key);
    }
  }

  predicate ListsRepeatNobody(d: AccessControl) {
    NoDup(Groups(d.read)) && NoDup(Users(d.read)) && NoDup(Groups(d.write)) && NoDup(Users(d.write))
  }

  lemma KeysForNoDupIff(rt: string, rid: string, t: PrincipalType, p: Permission, ids: seq<string>)
    ensures NoDup(KeysFor(rt, rid, t, p, ids)) <==> NoDup(ids)
  {
    var keys := KeysFor(rt, rid, t, p, ids);
    if NoDup(keys) {
      forall i, j | 0 <= i < j < |ids|
        ensures ids[i] != ids[j]
      {
        assert keys[i] != keys[j];
      }
    }
  }

  lemma GrantsNoDupIff(rt: string, rid: string, d: AccessControl)
    ensures NoDup(ToGrants(rt, rid, Some(d))) <==> ListsRepeatNobody(d)
  {
    KeysForNoDupIff(rt, rid, Group, Read, Groups(d.read));
    KeysForNoDupIff(rt, rid, User, Read, Users(d.read));
    KeysForNoDupIff(rt, rid, Group, Write, Groups(d.write));
    KeysForNoDupIff(rt, rid, User, Write, Users(d.write));
    NoDupConcat(KeysFor(rt, rid, Group, Read, Groups(d.read)), KeysFor(rt, rid, User, Read, Users(d.read)));
    NoDupConcat(KeysFor(rt, rid, Group, Write, Groups(d.write)), KeysFor(rt, rid, User, Write, Users(d.write)));
    NoDupConcat(PermissionKeys(rt, rid, Read, d.read), PermissionKeys(rt, rid, Write, d.write));
  }

  class AccessGrantsTable {
    var rows: Table

    constructor ()
      ensures rows == map[]
    {
      rows := map[];
    }

    method GrantAccess(id: string, key: Key, now: int) returns (granted: string)
      requires UniqueGrants(rows) && id !in rows
      modifies this
      ensures UniqueGrants(rows)
      ensures granted in rows && rows[granted].key == key
      ensures rows == Apply(old(rows), GrantKey(id, key, now))
    {
      if i :| i in rows && rows[i].key == key {
        return i;
      }
      rows := rows[id := Grant(key, now)];
      return id;
    }

    method RevokeAccess(key: Key) returns (removed: bool)
      requires UniqueGrants(rows)
      modifies this
      ensures UniqueGrants(rows)
      ensures rows == Apply(old(rows), RevokeKey(key)) && !HasKey(rows, key)
      ensures removed <==> HasKey(old(rows), key)
    {
      removed := exists i :: i in rows && rows[i].key == key;
      rows := WithoutKey(rows, key);
    }

    method RevokeAllAccess(rt: string, rid: string) returns (count: nat)
      requires UniqueGrants(rows)
      modifies this
      ensures UniqueGrants(rows)
      ensures rows == Apply(old(rows), RevokeAll(rt, rid))
      ensures count == |old(rows)| - |rows|
    {
      var kept := WithoutResource(rows, rt, rid);
      SubsetSize(kept.Keys, rows.Keys);
      count := |rows| - |kept|;
      rows := kept;
    }

    /** DELETE the resource's rows, add the new ones, commit; a violated constraint rolls everything back. */
    method Replace(rt: string, rid: string, keys: seq<Key>, ids: seq<string>, now: int) returns (ok: bool)
      requires UniqueGrants(rows) && |ids| == |keys| && FreshIds(rows, ids)
      requires forall k :: k in keys ==> ForResource(k, rt, rid)
      modifies this
      ensures UniqueGrants(rows)
      ensures ok <==> NoDup(keys)
      ensures rows == Apply(old(rows), ReplaceAll(rt, rid, keys, ids, now))
    {
      var staged := WithoutResource(rows, rt, rid);
      for i := 0 to |keys|
        invariant rows == old(rows)
        invariant staged == Inserted(WithoutResource(rows, rt, rid), keys[..i], ids[..i], now)
      {
        PrefixStep(keys, i);
        PrefixStep(ids, i);
        assert keys[..i + 1][..i] == keys[..i] && ids[..i + 1][..i] == ids[..i];
        staged := staged[ids[i] := Grant(keys[i], now)];
      }
      assert keys[..|keys|] == keys && ids[..|ids|] == ids;
      InsertedUniqueIff(rows, rt, rid, keys, ids, now);
      if !UniqueGrants(staged) { return false; }
      rows := staged;
      return true;
    }

    /** Fails, changing nothing, exactly when a legacy list names a principal twice. */
    method SetAccessControl(rt: string, rid: string, ac: Option<AccessControl>, ids: seq<string>, now: int)
      returns (ok: bool)
      requires UniqueGrants(rows) && |ids| == |ToGrants(rt, rid, ac)| && FreshIds(rows, ids)
      modifies this
      ensures UniqueGrants(rows)
      ensures ok <==> ac.None? || ListsRepeatNobody(ac.value)
      ensures Enabled(old(rows), ReplaceAll(rt, rid, ToGrants(rt, rid, ac), ids, now))
      ensures rows == Apply(old(rows), ReplaceAll(rt, rid, ToGrants(rt, rid, ac), ids, now))
      ensures ok ==> forall key :: HasKey(rows, key) <==>
                       if ForResource(key, rt, rid)
                       then Gives(rt, ac, key.principalType, key.permission, key.principalId)
                       else HasKey(old(rows), key)
    {
      var keys := AccessControlToGrants(rt, rid, ac);
      if ac.Some? { GrantsNoDupIff(rt, rid, ac.value); }
      ok := Replace(rt, rid, keys, ids, now);
      if ok {
        forall key
          ensures HasKey(rows, key) <==>
                    if ForResource(key, rt, rid) then Gives(rt, ac, key.principalType, key.permission, key.principalId)
                    else HasKey(old(rows), key)
        {
          ReplaceMeans(old(rows), rt, rid, keys, ids, now, key);
          ToGrantsMeans(rt, rid, ac, key);
        }
      }
    }

    /** Always succeeds: normalised grants never repeat a key. */
    method SetAccessGrants(rt: string, rid: string, raw: seq<Raw>, uuids: seq<string>, ids: seq<string>, now: int)
      returns (normal: seq<Normal>)
      requires UniqueGrants(rows) && |ids| == |uuids| == |raw| && "" !in uuids && FreshIds(rows, ids)
      modifies this
      ensures UniqueGrants(rows)
      ensures Normalizes(raw, uuids, normal) && |normal| <= |raw|
      ensures NoDup(NormalKeys(rt, rid, normal))
      ensures Enabled(old(rows), ReplaceAll(rt, rid, NormalKeys(rt, rid, normal), ids[..|normal|], now))
      ensures rows == Apply(old(rows), ReplaceAll(rt, rid, NormalKeys(rt, rid, normal), ids[..|normal|], now))
      ensures forall key :: HasKey(rows, key) <==>
                if ForResource(key, rt, rid) then NamedIn(raw, (key.principalType, key.principalId, key.permission))
                else HasKey(old(rows), key)
    {
      normal := NormalizeAccessGrants(raw, uuids);
      NormalFormWellFormed(raw, uuids, normal);
      var keys := NormalKeys(rt, rid, normal);
      NormalKeysDiffer(rt, rid, normal);
      var ok := Replace(rt, rid, keys, ids[..|normal|], now);
      forall key
        ensures HasKey(rows, key) <==>
                  if ForResource(key, rt, rid) then NamedIn(raw, (key.principalType, key.principalId, key.permission))
                  else HasKey(old(rows), key)
      {
        ReplaceMeans(old(rows), rt, rid, keys, ids[..|normal|], now, key);
        NormalKeysMean(rt, rid, raw, uuids, normal, key);
      }
    }
  }

  // ---------- one permission relation, four computations ----------

  /** Users with their roles, existing groups, and (group, user) memberships. */
  datatype Org = Org(roles: map<string, string>, groups: set<string>, members: set<(string, string)>)

  /** group_member.group_id is a foreign key. */
  ghost predicate MembershipsResolve(org: Org) {
    forall m :: m in org.members ==> m.0 in org.groups
  }

  /** The groups a user belongs to: memberships joined with existing groups. */
  function GroupsOf(org: Org, user: string): set<string> {
    set m | m in org.members && m.1 == user && m.0 in org.groups :: m.0
  }

  function GroupIds(org: Org, user: string, given: Option<set<string>>): set<string> {
    if given.Some? then given.value else GroupsOf(org, user)
  }

  predicate IsPublic(key: Key) {
    key.principalType == User && key.principalId == "*"
  }

  predicate Covers(key: Key, rt: string, rid: string, p: Permission) {
    ForResource(key, rt, rid) && key.permission == p
  }

  /** A condition on a grant's principal columns, as the queries build them. */
  datatype Clause = Principal(principalType: PrincipalType, id: string) | GroupIn(ids: set<string>)

  const PUBLIC: Clause := Principal(User, "*")

  predicate Meets(key: Key, clause: Clause) {
    match clause
    case Principal(t, id) => key.principalType == t && key.principalId == id
    case GroupIn(ids) => key.principalType == Group && key.principalId in ids
  }

  /** or_(*clauses) */
  predicate MeetsOne(key: Key, clauses: seq<Clause>) {
    exists clause :: clause in clauses && Meets(key, clause)
  }

  /** SELECT ... WHERE resource_type = rt AND resource_id IN rids AND permission = p AND or_(*clauses) */
  function Select(t: Table, rt: string, rids: set<string>, p: Permission, clauses: seq<Clause>): set<string> {
    set i | i in t && t[i].key.resourceType == rt && t[i].key.resourceId in rids && t[i].key.permission == p
            && MeetsOne(t[i].key, clauses)
  }

  /** The conditions of the single and the batch check: the group clause only for a user with groups. */
  function CheckClauses(user: string, groups: set<string>): seq<Clause> {
    [PUBLIC, Principal(User, user)] + if groups == {} then [] else [GroupIn(groups)]
  }

  /** has_access: the single check asks for a first row. */
  predicate HasAccess(t: Table, org: Org, user: string, rt: string, rid: string, p: Permission,
                      given: Option<set<string>>)
  {
    Select(t, rt, {rid}, p, CheckClauses(user, GroupIds(org, user, given))) != {}
  }

  /** get_accessible_resource_ids: the batch check asks for the distinct resource ids. */
  function AccessibleIds(t: Table, org: Org, user: string, rt: string, rids: seq<string>, p: Permission,
                         given: Option<set<string>>): set<string>
  {
    if rids == [] then {}
    else set i | i in Select(t, rt, (set r | r in rids), p, CheckClauses(user, GroupIds(org, user, given)))
           :: t[i].key.resourceId
  }

  datatype Document = Document(id: string, userId: string)

  /** A condition has_permission_filter collects: on a grant, or on the document's owner. */
  datatype Condition = OnGrant(clause: Clause) | OnOwner(userId: string)

  function PrincipalConditions(userId: string, groupIds: set<string>): seq<Condition> {
    (if groupIds != {} || userId != "" then [OnGrant(PUBLIC)] else [])
    + (if userId != "" then [OnOwner(userId), OnGrant(Principal(User, userId))] else [])
    + (if groupIds != {} then [OnGrant(GroupIn(groupIds))] else [])
  }

  /** The clauses naming a user or groups, each only when there is one. */
  function NamedClauses(userId: string, groupIds: set<string>): seq<Clause> {
    (if userId != "" then [Principal(User, userId)] else []) + if groupIds != {} then [GroupIn(groupIds)] else []
  }

  predicate GrantExists(t: Table, rt: string, rid: string, p: Permission, clauses: seq<Clause>) {
    Select(t, rt, {rid}, p, clauses) != {}
  }

  /** has_permission_filter for one document: without any condition the query is left unfiltered. */
  predicate FilterKeeps(t: Table, doc: Document, rt: string, p: Permission, userId: string, groupIds: set<string>) {
    PrincipalConditions(userId, groupIds) != [] ==>
      || GrantExists(t, rt, doc.id, p, [PUBLIC] + NamedClauses(userId, groupIds))
      || (userId != "" && doc.userId == userId)
  }

  /** The read_only filter for one document; with neither a user nor groups its conditions would be empty. */
  predicate ReadOnlyKeeps(t: Table, doc: Document, rt: string, userId: string, groupIds: set<string>)
    requires userId != "" || groupIds != {}
  {
    && GrantExists(t, rt, doc.id, Read, NamedClauses(userId, groupIds))
    && !GrantExists(t, rt, doc.id, Write, NamedClauses(userId, groupIds))
    && !GrantExists(t, rt, doc.id, Read, [PUBLIC])
    && (userId != "" ==> doc.userId != userId)
  }

  // What the queries mean, in terms of the grants themselves.

  predicate PublicGrant(t: Table, rt: string, rid: string, p: Permission) {
    exists i :: i in t && Covers(t[i].key, rt, rid, p) && IsPublic(t[i].key)
  }

  predicate UserGrant(t: Table, rt: string, rid: string, p: Permission, user: string) {
    exists i :: i in t && Covers(t[i].key, rt, rid, p) && t[i].key.principalType == User && t[i].key.principalId == user
  }

  predicate GroupGrant(t: Table, rt: string, rid: string, p: Permission, groups: set<string>) {
    exists i :: i in t && Covers(t[i].key, rt, rid, p)
                && t[i].key.principalType == Group && t[i].key.principalId in groups
  }

  /** The grant names u, or a group u is a member of. */
  predicate ReachesUser(org: Org, key: Key, u: string) {
    || (key.principalType == User && key.principalId == u)
    || (key.principalType == Group && (key.principalId, u) in org.members)
  }

  /** u is among the users get_users_with_access returns. */
  predicate Listed(t: Table, org: Org, rt: string, rid: string, p: Permission, u: string) {
    && u in org.roles
    && if PublicGrant(t, rt, rid, p) then org.roles[u] != "pending"
       else exists i :: i in t && Covers(t[i].key, rt, rid, p) && ReachesUser(org, t[i].key, u)
  }

  /** get_users_with_access: collects the users behind each grant. The result is the set of listed ids. */
  method UsersWithAccess(t: Table, org: Org, rt: string, rid: string, p: Permission) returns (users: set<string>)
    ensures forall u :: u in users <==> Listed(t, org, rt, rid, p, u)
  {
    var ids := set i | i in t && Covers(t[i].key, rt, rid, p);
    if exists i :: i in ids && IsPublic(t[i].key) {
      return set u | u in org.roles && org.roles[u] != "pending";
    }
    var found: set<string> := {};
    var left := ids;
    while left != {}
      invariant left <= ids
      invariant forall u :: u in found <==> exists i :: i in ids - left && ReachesUser(org, t[i].key, u)
      decreases left
    {
      var i :| i in left;
      left := left - {i};
      var key := t[i].key;
      ghost var before := found;
      if key.principalType == User {
        found := found + {key.principalId};
      } else if key.principalType == Group {
        found := found + set m | m in org.members && m.0 == key.principalId :: m.1;
      }
      assert forall u :: u in found <==> u in before || ReachesUser(org, key, u);
    }
    users := set u | u in found && u in org.roles;
  }

  /** An EXISTS over some clauses is one of its clauses finding a grant. */
  lemma GrantExistsIff(t: Table, rt: string, rid: string, p: Permission, clauses: seq<Clause>)
    ensures GrantExists(t, rt, rid, p, clauses)
       <==> exists i, clause :: i in t && clause in clauses && Covers(t[i].key, rt, rid, p) && Meets(t[i].key, clause)
  {
    if GrantExists(t, rt, rid, p, clauses) {
      var i :| i in Select(t, rt, {rid}, p, clauses);
      assert Covers(t[i].key, rt, rid, p);
    }
    if i, clause :| i in t && clause in clauses && Covers(t[i].key, rt, rid, p) && Meets(t[i].key, clause) {
      assert i in Select(t, rt, {rid}, p, clauses);
    }
  }

  lemma GrantExistsOne(t: Table, rt: string, rid: string, p: Permission, clause: Clause)
    ensures GrantExists(t, rt, rid, p, [clause])
       <==> match clause
            case Principal(User, id) => UserGrant(t, rt, rid, p, id)
            case Principal(k, id) => exists i :: i in t && Covers(t[i].key, rt, rid, p) && Meets(t[i].key, clause)
            case GroupIn(ids) => GroupGrant(t, rt, rid, p, ids)
  {
    GrantExistsIff(t, rt, rid, p, [clause]);
    assert clause in [clause];
  }

  lemma GrantExistsConcat(t: Table, rt: string, rid: string, p: Permission, a: seq<Clause>, b: seq<Clause>)
    ensures GrantExists(t, rt, rid, p, a + b) <==> GrantExists(t, rt, rid, p, a) || GrantExists(t, rt, rid, p, b)
  {
    GrantExistsIff(t, rt, rid, p, a);
    GrantExistsIff(t, rt, rid, p, b);
    GrantExistsIff(t, rt, rid, p, a + b);
  }

  lemma NamedMeans(t: Table, rt: string, rid: string, p: Permission, userId: string, groupIds: set<string>)
    ensures GrantExists(t, rt, rid, p, NamedClauses(userId, groupIds))
       <==> (userId != "" && UserGrant(t, rt, rid, p, userId)) || GroupGrant(t, rt, rid, p, groupIds)
    ensures GrantExists(t, rt, rid, p, [PUBLIC]) <==> PublicGrant(t, rt, rid, p)
  {
    GrantExistsOne(t, rt, rid, p, PUBLIC);
    GrantExistsOne(t, rt, rid, p, Principal(User, userId));
    GrantExistsOne(t, rt, rid, p, GroupIn(groupIds));
    GrantExistsIff(t, rt, rid, p, []);
    GrantExistsConcat(t, rt, rid, p, if userId != "" then [Principal(User, userId)] else [],
                      if groupIds != {} then [GroupIn(groupIds)] else []);
  }

  /** A grant for one of the given groups or, when none are given, for an existing group the user is a member of. */
  ghost predicate MemberGrant(t: Table, org: Org, user: string, rt: string, rid: string, p: Permission,
                              given: Option<set<string>>)
  {
    exists i :: i in t && t[i].key.principalType == Group
                && t[i].key == Key(rt, rid, Group, t[i].key.principalId, p)
                && if given.Some? then t[i].key.principalId in given.value
                   else t[i].key.principalId in org.groups && (t[i].key.principalId, user) in org.members
  }

  lemma MemberGrantIff(t: Table, org: Org, user: string, rt: string, rid: string, p: Permission,
                       given: Option<set<string>>)
    ensures GroupGrant(t, rt, rid, p, GroupIds(org, user, given)) <==> MemberGrant(t, org, user, rt, rid, p, given)
  {
    forall g
      ensures g in GroupIds(org, user, given)
         <==> if given.Some? then g in given.value else g in org.groups && (g, user) in org.members
    {
      if given.None? && g in org.groups && (g, user) in org.members {
        assert (g, user).0 in GroupsOf(org, user);
      }
    }
  }

  /** The single check: a public grant, one for the user, or one for a group. */
  lemma AccessMeans(t: Table, org: Org, user: string, rt: string, rid: string, p: Permission,
                    given: Option<set<string>>)
    ensures HasAccess(t, org, user, rt, rid, p, given)
       <==> || PublicGrant(t, rt, rid, p)
            || UserGrant(t, rt, rid, p, user)
            || GroupGrant(t, rt, rid, p, GroupIds(org, user, given))
    ensures HasAccess(t, org, user, rt, rid, p, given)
       <==> || HasKey(t, Key(rt, rid, User, "*", p))
            || HasKey(t, Key(rt, rid, User, user, p))
            || MemberGrant(t, org, user, rt, rid, p, given)
  {
    MemberGrantIff(t, org, user, rt, rid, p, given);
    var groups := GroupIds(org, user, given);
    GrantExistsOne(t, rt, rid, p, PUBLIC);
    GrantExistsOne(t, rt, rid, p, Principal(User, user));
    GrantExistsOne(t, rt, rid, p, GroupIn(groups));
    GrantExistsIff(t, rt, rid, p, []);
    GrantExistsConcat(t, rt, rid, p, [PUBLIC], [Principal(User, user)]);
    assert [PUBLIC] + [Principal(User, user)] == [PUBLIC, Principal(User, user)];
    GrantExistsConcat(t, rt, rid, p, [PUBLIC, Principal(User, user)], if groups == {} then [] else [GroupIn(groups)]);
  }

  /** The batch check returns exactly the requested ids that pass the single check. */
  lemma BatchAgrees(t: Table, org: Org, user: string, rt: string, rids: seq<string>, p: Permission,
                    given: Option<set<string>>, rid: string)
    ensures rid in AccessibleIds(t, org, user, rt, rids, p, given)
       <==> rid in rids && HasAccess(t, org, user, rt, rid, p, given)
  {
    var clauses := CheckClauses(user, GroupIds(org, user, given));
    var all := set r | r in rids;
    forall i
      ensures i in Select(t, rt, all, p, clauses) && t[i].key.resourceId == rid
         <==> rid in rids && i in Select(t, rt, {rid}, p, clauses)
    {
    }
    if rid in rids && HasAccess(t, org, user, rt, rid, p, given) {
      var i :| i in Select(t, rt, {rid}, p, clauses);
      assert i in Select(t, rt, all, p, clauses);
    }
  }

  lemma FilterMeans(t: Table, doc: Document, rt: string, p: Permission, userId: string, groupIds: set<string>)
    ensures FilterKeeps(t, doc, rt, p, userId, groupIds)
       <==> || (userId == "" && groupIds == {})
            || PublicGrant(t, rt, doc.id, p)
            || (userId != "" && (doc.userId == userId || UserGrant(t, rt, doc.id, p, userId)))
            || GroupGrant(t, rt, doc.id, p, groupIds)
  {
    NamedMeans(t, rt, doc.id, p, userId, groupIds);
    GrantExistsConcat(t, rt, doc.id, p, [PUBLIC], NamedClauses(userId, groupIds));
  }

  /**
   For any user id and group ids a caller may pass, the filter keeps a document iff its user owns it or
   passes the single check for those groups, with exactly two exceptions, both without a user id: with
   no groups either everything is kept, and a grant that names the empty user id is not looked at.
   */
  lemma FilterAgreesIff(t: Table, org: Org, doc: Document, rt: string, p: Permission, userId: string,
                        groupIds: set<string>)
    ensures (FilterKeeps(t, doc, rt, p, userId, groupIds)
             <==> (userId != "" && doc.userId == userId) || HasAccess(t, org, userId, rt, doc.id, p, Some(groupIds)))
       <==> || userId != ""
            || (if groupIds == {} then PublicGrant(t, rt, doc.id, p) || UserGrant(t, rt, doc.id, p, "")
                else UserGrant(t, rt, doc.id, p, "") ==>
                       PublicGrant(t, rt, doc.id, p) || GroupGrant(t, rt, doc.id, p, groupIds))
  {
    FilterMeans(t, doc, rt, p, userId, groupIds);
    AccessMeans(t, org, userId, rt, doc.id, p, Some(groupIds));
  }

  /** Without a user or groups the filter keeps a document that nobody was granted. */
  lemma UnfilteredKeepsPrivate(org: Org)
    ensures FilterKeeps(map[], Document("n", "owner"), "note", Read, "", {})
    ensures !HasAccess(map[], org, "", "note", "n", Read, Some({}))
  {
    AccessMeans(map[], org, "", "note", "n", Read, Some({}));
  }

  /**
   An existing user is listed iff the single check holds, except that a pending user is left out of a
   public resource's listing.
   */
  lemma ListingAgrees(t: Table, org: Org, rt: string, rid: string, p: Permission, u: string)
    requires MembershipsResolve(org) && u in org.roles
    ensures Listed(t, org, rt, rid, p, u)
       <==> HasAccess(t, org, u, rt, rid, p, None) && (org.roles[u] == "pending" ==> !PublicGrant(t, rt, rid, p))
  {
    AccessMeans(t, org, u, rt, rid, p, None);
    forall g
      ensures (g, u) in org.members <==> g in GroupsOf(org, u)
    {
      if (g, u) in org.members { assert (g, u).0 in GroupsOf(org, u); }
    }
    if Listed(t, org, rt, rid, p, u) && !PublicGrant(t, rt, rid, p) {
      var i :| i in t && Covers(t[i].key, rt, rid, p) && ReachesUser(org, t[i].key, u);
      assert UserGrant(t, rt, rid, p, u) || GroupGrant(t, rt, rid, p, GroupsOf(org, u));
    }
  }

  /**
   One permission relation, four computations: for an existing, signed-in user who is not pending and
   does not own the document, all four say the same.
   */
  lemma FourAgree(t: Table, org: Org, doc: Document, rt: string, rids: seq<string>, p: Permission, u: string)
    requires MembershipsResolve(org) && u in org.roles && org.roles[u] != "pending" && u != ""
    requires doc.id in rids && doc.userId != u
    ensures HasAccess(t, org, u, rt, doc.id, p, None) <==> doc.id in AccessibleIds(t, org, u, rt, rids, p, None)
    ensures HasAccess(t, org, u, rt, doc.id, p, None) <==> FilterKeeps(t, doc, rt, p, u, GroupsOf(org, u))
    ensures HasAccess(t, org, u, rt, doc.id, p, None) <==> Listed(t, org, rt, doc.id, p, u)
  {
    BatchAgrees(t, org, u, rt, rids, p, None, doc.id);
    FilterAgreesIff(t, org, doc, rt, p, u, GroupsOf(org, u));
    ListingAgrees(t, org, rt, doc.id, p, u);
  }

  /** What the read_only filter is documented to keep: "read but not write", neither public nor the user's own. */
  predicate ReadNotWrite(t: Table, org: Org, doc: Document, rt: string, user: string) {
    && HasAccess(t, org, user, rt, doc.id, Read, None) && !HasAccess(t, org, user, rt, doc.id, Write, None)
    && !PublicGrant(t, rt, doc.id, Read) && doc.userId != user
  }

  /** A grant for the user or one of the user's groups. */
  predicate NamedGrant(t: Table, org: Org, rt: string, rid: string, p: Permission, user: string) {
    UserGrant(t, rt, rid, p, user) || GroupGrant(t, rt, rid, p, GroupsOf(org, user))
  }

  /**
   For a signed-in user the read_only filter is what it is documented to be on exactly these documents:
   those without a public write grant, and those it drops for another reason anyway.
   */
  lemma ReadOnlyAgreesIff(t: Table, org: Org, doc: Document, rt: string, user: string)
    requires user != ""
    ensures (ReadOnlyKeeps(t, doc, rt, user, GroupsOf(org, user)) <==> ReadNotWrite(t, org, doc, rt, user))
       <==> || !PublicGrant(t, rt, doc.id, Write) || PublicGrant(t, rt, doc.id, Read) || doc.userId == user
            || !NamedGrant(t, org, rt, doc.id, Read, user) || NamedGrant(t, org, rt, doc.id, Write, user)
  {
    NamedMeans(t, rt, doc.id, Read, user, GroupsOf(org, user));
    NamedMeans(t, rt, doc.id, Write, user, GroupsOf(org, user));
    AccessMeans(t, org, user, rt, doc.id, Read, None);
    AccessMeans(t, org, user, rt, doc.id, Write, None);
  }

  /** A document the read_only filter keeps although its user may write it. */
  lemma ReadOnlyKeepsWritableDocument()
    ensures var t: Table := map["g1" := Grant(Key("note", "n", User, "u", Read), 0),
                                "g2" := Grant(Key("note", "n", User, "*", Write), 0)];
            && ReadOnlyKeeps(t, Document("n", "owner"), "note", "u", {})
            && HasAccess(t, Org(map[], {}, {}), "u", "note", "n", Write, None)
  {
    var t: Table := map["g1" := Grant(Key("note", "n", User, "u", Read), 0),
                        "g2" := Grant(Key("note", "n", User, "*", Write), 0)];
    var org := Org(map[], {}, {});
    assert UserGrant(t, "note", "n", Read, "u") by {
      assert "g1" in t && Covers(t["g1"].key, "note", "n", Read);
    }
    assert PublicGrant(t, "note", "n", Write) by {
      assert "g2" in t && Covers(t["g2"].key, "note", "n", Write);
    }
    NamedMeans(t, "note", "n", Read, "u", {});
    NamedMeans(t, "note", "n", Write, "u", {});
    AccessMeans(t, org, "u", "note", "n", Write, None);
  }
}
