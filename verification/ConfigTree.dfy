/**
 The configuration blob: a JSON tree addressed by dotted paths, committed path by path and mirrored
 in the config table.
 */
module ConfigTree {
  import opened Options
  import opened Json

  type Keys = ks: seq<string> | ks != [] witness [""]

  /** path.split('.') */
  function Split(path: string): Keys {
    if path == "" then [""]
    else
      var rest := Split(path[1..]);
      if path[0] == '.' then [""] + rest else [[path[0]] + rest[0]] + rest[1..]
  }

  function Join(ks: Keys): string
    decreases |ks|
  {
    if |ks| == 1 then ks[0] else ks[0] + "." + Join(ks[1..])
  }

  ghost predicate DotFree(key: string) {
    forall i :: 0 <= i < |key| ==> key[i] != '.'
  }

  /** Different dotted paths have different keys. */
  lemma {:induction false} JoinSplit(path: string)
    ensures Join(Split(path)) == path
    decreases |path|
  {
    if path != "" {
      JoinSplit(path[1..]);
      var rest := Split(path[1..]);
      if path[0] == '.' {
        assert ([""] + rest)[1..] == rest;
        assert path == "." + path[1..];
      } else {
        assert ([[path[0]] + rest[0]] + rest[1..])[1..] == rest[1..];
        assert path == [path[0]] + path[1..];
      }
    }
  }

  lemma {:induction false} KeysDotFree(path: string)
    ensures forall key :: key in Split(path) ==> DotFree(key)
    decreases |path|
  {
    if path != "" {
      KeysDotFree(path[1..]);
      var rest := Split(path[1..]);
      assert rest[0] in rest;
      forall key | key in Split(path)
        ensures DotFree(key)
      {
        if path[0] != '.' && key == [path[0]] + rest[0] {
          assert forall i :: 0 < i < |key| ==> key[i] == rest[0][i - 1];
        }
      }
    }
  }

  lemma {:induction false} SplitDotFree(key: string)
    requires DotFree(key)
    ensures Split(key) == [key]
    decreases |key|
  {
    if key != "" {
      SplitDotFree(key[1..]);
      assert [key[0]] + key[1..] == key;
    }
  }

  lemma {:induction false} SplitAtDot(key: string, rest: string)
    requires DotFree(key)
    ensures Split(key + "." + rest) == [key] + Split(rest)
    decreases |key|
  {
    var path := key + "." + rest;
    if key == "" {
      assert path[1..] == rest;
    } else {
      assert path[1..] == key[1..] + "." + rest;
      SplitAtDot(key[1..], rest);
      assert [key[0]] + key[1..] == key;
      assert ([key[1..]] + Split(rest))[1..] == Split(rest);
    }
  }

  lemma {:induction false} SplitJoin(ks: Keys)
    requires forall key :: key in ks ==> DotFree(key)
    ensures Split(Join(ks)) == ks
    decreases |ks|
  {
    if |ks| == 1 {
      SplitDotFree(ks[0]);
    } else {
      SplitJoin(ks[1..]);
      SplitAtDot(ks[0], Join(ks[1..]));
      assert ks == [ks[0]] + ks[1..];
    }
  }

  /** The keys of a path are the dot-free strings that, joined by dots, spell it: those and no others. */
  lemma SplitIff(path: string, ks: Keys)
    ensures Split(path) == ks <==> Join(ks) == path && forall key :: key in ks ==> DotFree(key)
  {
    JoinSplit(path);
    KeysDotFree(path);
    if forall key :: key in ks ==> DotFree(key) {
      SplitJoin(ks);
    }
  }

  /** The fold in ConfigState.read: anything but a dict on the way reads as None. */
  function Read(v: Value, ks: seq<string>): Value
    decreases |ks|
  {
    if ks == [] then v
    else Read(if v.Obj? then Get(v.fields, ks[0]) else Null, ks[1..])
  }

  /** d.setdefault(key, {}) */
  function Child(fields: Dict, key: string): Value {
    Get(fields, key, Obj(map[]))
  }

  /** ConfigState.write; None where the source raises because a value on the way is not a dict. */
  function Write(v: Value, ks: Keys, x: Value): Option<Value>
    decreases |ks|
  {
    if !v.Obj? then None
    else if |ks| == 1 then Some(Obj(v.fields[ks[0] := x]))
    else
      match Write(Child(v.fields, ks[0]), ks[1..], x)
      case None => None
      case Some(c) => Some(Obj(v.fields[ks[0] := c]))
  }

  ghost predicate Comparable(a: seq<string>, b: seq<string>) {
    a <= b || b <= a
  }

  /** A write is defined whatever is being written: it depends only on the tree and the path. */
  predicate Writable(v: Value, ks: Keys) {
    Write(v, ks, Null).Some?
  }

  // ---------- the laws of the tree ----------

  /** Of the value under a proper prefix of the path, the write asks that it be a dict or absent. */
  ghost predicate Open(v: Value, ks: Keys, n: nat)
    requires n < |ks|
  {
    if n == 0 then v.Obj?
    else
      var above := Read(v, ks[..n - 1]);
      above.Obj? && ks[n - 1] in above.fields ==> above.fields[ks[n - 1]].Obj?
  }

  lemma {:induction false} ReadNothing(v: Value, ks: seq<string>)
    requires ks != [] && (v == Null || v == Obj(map[]))
    ensures Read(v, ks) == Null
    decreases |ks|
  {
    if |ks| > 1 { ReadNothing(Null, ks[1..]); }
  }

  /** A write goes through exactly when every proper prefix of its path holds a dict or nothing. */
  lemma {:induction false} WritableIff(v: Value, ks: Keys)
    ensures Writable(v, ks) <==> forall n: nat :: n < |ks| ==> Open(v, ks, n)
    decreases |ks|
  {
    if v.Obj? && |ks| > 1 {
      var c := Child(v.fields, ks[0]);
      WritableIff(c, ks[1..]);
      assert ks[..0] == [];
      forall n: nat | 0 < n < |ks|
        ensures Open(v, ks, n) <==> Open(c, ks[1..], n - 1)
      {
        if n == 1 {
          assert Read(v, ks[..0]) == v;
        } else {
          assert ks[..n - 1][0] == ks[0] && ks[..n - 1][1..] == ks[1..][..n - 2];
          assert Read(v, ks[..n - 1]) == Read(Get(v.fields, ks[0]), ks[1..][..n - 2]);
          if ks[0] in v.fields {
          } else if n == 2 {
            assert ks[1..][..0] == [];
          } else {
            ReadNothing(Null, ks[1..][..n - 2]);
            ReadNothing(Obj(map[]), ks[1..][..n - 2]);
          }
        }
      }
      if forall n: nat :: n < |ks| ==> Open(v, ks, n) {
        forall n: nat | n < |ks| - 1
          ensures Open(c, ks[1..], n)
        {
          assert Open(v, ks, n + 1);
        }
      }
    } else {
      assert v.Obj? <==> Open(v, ks, 0);
    }
  }

  lemma {:induction false} WritableForAnyValue(v: Value, ks: Keys, x: Value)
    ensures Write(v, ks, x).Some? <==> Writable(v, ks)
    decreases |ks|
  {
    if v.Obj? && |ks| > 1 {
      WritableForAnyValue(Child(v.fields, ks[0]), ks[1..], x);
    }
  }

  /** At and below the written path one reads the written value. */
  lemma {:induction false} ReadAfterWrite(v: Value, ks: Keys, x: Value, more: seq<string>)
    requires Write(v, ks, x).Some?
    ensures Read(Write(v, ks, x).value, ks + more) == Read(x, more)
    decreases |ks|
  {
    assert (ks + more)[1..] == ks[1..] + more;
    if |ks| == 1 {
      assert ks[1..] + more == more;
    } else {
      ReadAfterWrite(Child(v.fields, ks[0]), ks[1..], x, more);
    }
  }

  lemma TailsIncomparable(js: seq<string>, ks: seq<string>)
    requires |js| > 0 && |ks| > 0 && js[0] == ks[0] && !Comparable(js, ks)
    ensures |js| > 1 && |ks| > 1 && !Comparable(js[1..], ks[1..])
  {
    assert [ks[0]] <= js && [js[0]] <= ks;
    assert js == [js[0]] + js[1..] && ks == [ks[0]] + ks[1..];
  }

  /** Paths that are neither above nor below the written one read as before. */
  lemma {:induction false} ReadElsewhere(v: Value, ks: Keys, x: Value, js: seq<string>)
    requires Write(v, ks, x).Some? && !Comparable(js, ks)
    ensures Read(Write(v, ks, x).value, js) == Read(v, js)
    decreases |ks|
  {
    if js[0] == ks[0] {
      TailsIncomparable(js, ks);
      var c := Child(v.fields, ks[0]);
      ReadElsewhere(c, ks[1..], x, js[1..]);
      if ks[0] !in v.fields {
        ReadNothing(Null, js[1..]);
        ReadNothing(Obj(map[]), js[1..]);
      }
    }
  }

  /** Above the written path one reads what was there with the rest of the path written into it. */
  lemma {:induction false} ReadAbove(v: Value, ks: Keys, x: Value, n: nat)
    requires Write(v, ks, x).Some? && n < |ks|
    ensures Read(v, ks[..n]) == Null || Read(v, ks[..n]).Obj?
    ensures Some(Read(Write(v, ks, x).value, ks[..n]))
         == Write(if Read(v, ks[..n]).Obj? then Read(v, ks[..n]) else Obj(map[]), ks[n..], x)
    decreases n
  {
    if n > 0 {
      assert ks[..n][1..] == ks[1..][..n - 1] && ks[n..] == ks[1..][n - 1..];
      var c := Child(v.fields, ks[0]);
      ReadAbove(c, ks[1..], x, n - 1);
      if ks[0] !in v.fields && n > 1 {
        ReadNothing(Null, ks[1..][..n - 1]);
        ReadNothing(Obj(map[]), ks[1..][..n - 1]);
      }
    } else {
      assert ks[..0] == [] && ks[0..] == ks;
    }
  }

  /** A write keeps every incomparable path, and its own, writable. */
  lemma {:induction false} WriteKeepsWritable(v: Value, ks: Keys, x: Value, js: Keys)
    requires Write(v, ks, x).Some? && Writable(v, js) && (js == ks || !Comparable(js, ks))
    ensures Writable(Write(v, ks, x).value, js)
    decreases |ks|
  {
    if js[0] == ks[0] {
      if js != ks { TailsIncomparable(js, ks); }
      if |ks| > 1 {
        WriteKeepsWritable(Child(v.fields, ks[0]), ks[1..], x, js[1..]);
      }
    }
  }

  // ---------- runs of commits ----------

  datatype Commit = Commit(path: string, value: Value)

  /** No registered path lies above another. */
  ghost predicate PrefixFree(paths: set<string>) {
    forall a, b :: a in paths && b in paths && a != b ==> !Comparable(Split(a), Split(b))
  }

  ghost predicate AllWritable(v: Value, paths: set<string>) {
    forall p :: p in paths ==> Writable(v, Split(p))
  }

  function CommitAll(v: Value, cs: seq<Commit>): Option<Value>
    decreases |cs|
  {
    if cs == [] then Some(v)
    else
      match Write(v, Split(cs[0].path), cs[0].value)
      case None => None
      case Some(w) => CommitAll(w, cs[1..])
  }

  /** The last value committed for a path, or what the tree held before. */
  function LastCommitted(v: Value, cs: seq<Commit>, path: string): Value
    decreases |cs|
  {
    if cs == [] then Read(v, Split(path))
    else if cs[|cs| - 1].path == path then cs[|cs| - 1].value
    else LastCommitted(v, cs[..|cs| - 1], path)
  }

  lemma {:induction false} CommitAllStep(v: Value, cs: seq<Commit>, c: Commit)
    ensures CommitAll(v, cs + [c])
         == if CommitAll(v, cs).None? then None else Write(CommitAll(v, cs).value, Split(c.path), c.value)
    decreases |cs|
  {
    if cs == [] {
      assert (cs + [c])[1..] == [];
    } else {
      assert (cs + [c])[1..] == cs[1..] + [c];
      var w := Write(v, Split(cs[0].path), cs[0].value);
      if w.Some? { CommitAllStep(w.value, cs[1..], c); }
    }
  }

  /**
   Over a prefix-free registry whose paths can be written to begin with, every commit of any run
   succeeds, and every path reads its last committed value.
   */
  lemma {:induction false} CommitsHold(v: Value, paths: set<string>, cs: seq<Commit>)
    requires PrefixFree(paths) && AllWritable(v, paths)
    requires forall c :: c in cs ==> c.path in paths
    ensures CommitAll(v, cs).Some? && AllWritable(CommitAll(v, cs).value, paths)
    ensures forall p :: p in paths ==> Read(CommitAll(v, cs).value, Split(p)) == LastCommitted(v, cs, p)
    decreases |cs|
  {
    if cs != [] {
      var most, c := cs[..|cs| - 1], cs[|cs| - 1];
      assert cs == most + [c];
      CommitsHold(v, paths, most);
      CommitAllStep(v, most, c);
      var w := CommitAll(v, most).value;
      var ks := Split(c.path);
      WritableForAnyValue(w, ks, c.value);
      forall p | p in paths
        ensures Writable(Write(w, ks, c.value).value, Split(p))
        ensures Read(Write(w, ks, c.value).value, Split(p)) == LastCommitted(v, cs, p)
      {
        WriteKeepsWritable(w, ks, c.value, Split(p));
        if p == c.path {
          ReadAfterWrite(w, ks, c.value, []);
          assert ks + [] == ks;
        } else {
          ReadElsewhere(w, ks, c.value, Split(p));
        }
      }
    }
  }

  lemma NextCommitDefined(v: Value, paths: set<string>, cs: seq<Commit>, i: nat)
    requires PrefixFree(paths) && AllWritable(v, paths)
    requires i < |cs| && forall c :: c in cs ==> c.path in paths
    ensures CommitAll(v, cs[..i]).Some? && Writable(CommitAll(v, cs[..i]).value, Split(cs[i].path))
    ensures CommitAll(v, cs[..i + 1]) == Write(CommitAll(v, cs[..i]).value, Split(cs[i].path), cs[i].value)
  {
    CommitsHold(v, paths, cs[..i]);
    CommitAllStep(v, cs[..i], cs[i]);
    assert cs[..i + 1] == cs[..i] + [cs[i]];
  }

  // ---------- the config table ----------

  const DEFAULT: Value := Obj(map["version" := Num(0), "ui" := Obj(map[])])

  /** The rows after the tree is stored in row `pick`, or in a first row. */
  function Persisted(table: seq<Value>, pick: nat, data: Value): seq<Value>
    requires table != [] ==> pick < |table|
  {
    if table == [] then [data] else table[pick := data]
  }

  function Loaded(table: seq<Value>): Value {
    if table == [] then DEFAULT else table[|table| - 1]
  }

  /** Loading after persisting yields the tree just stored exactly when both hit one row, or the rows agree. */
  lemma ReloadIff(table: seq<Value>, pick: nat, data: Value)
    requires table != [] ==> pick < |table|
    ensures Loaded(Persisted(table, pick, data)) == data
       <==> |table| <= 1 || pick == |table| - 1 || Loaded(table) == data
  {
  }

  /** With two rows, a persist that hits the first is lost on reload. */
  lemma ReloadMissesFirstRow(other: Value, last: Value, data: Value)
    requires last != data
    ensures Loaded(Persisted([other, last], 0, data)) == last
  {
    ReloadIff([other, last], 0, data);
  }

  /** Config rows in id order. `first()` has no ORDER BY: `pick` is the row the database happens to return. */
  class ConfigState {
    var data: Value
    var table: seq<Value>

    constructor ()
      ensures data == Obj(map[]) && table == []
    {
      data, table := Obj(map[]), [];
    }

    method Persist(pick: nat)
      requires table != [] ==> pick < |table|
      modifies this`table
      ensures table == Persisted(old(table), pick, data)
    {
      if table == [] {
        table := [data];
      } else {
        table := table[pick := data];
      }
    }

    /** Reads the row with the highest id. */
    method Load()
      modifies this`data
      ensures data == Loaded(table)
    {
      data := if table == [] then DEFAULT else table[|table| - 1];
    }

    /** A restart: what was persisted is read back exactly when both hit one row, or the rows agree. */
    method PersistAndReload(pick: nat)
      requires table != [] ==> pick < |table|
      modifies this
      ensures data == old(data) <==>
                |old(table)| <= 1 || pick == |old(table)| - 1 || old(table)[|old(table)| - 1] == old(data)
    {
      ReloadIff(table, pick, data);
      Persist(pick);
      Load();
    }

    /** ConfigVar.commit: write, then persist; fails with nothing changed when the path is blocked. */
    method CommitVar(path: string, value: Value, pick: nat) returns (ok: bool)
      requires table != [] ==> pick < |table|
      modifies this
      ensures ok <==> Writable(old(data), Split(path))
      ensures ok ==> Some(data) == Write(old(data), Split(path), value)
      ensures ok ==> table == Persisted(old(table), pick, data)
      ensures !ok ==> data == old(data) && table == old(table)
    {
      WritableForAnyValue(data, Split(path), value);
      var written := Write(data, Split(path), value);
      if written.None? { return false; }
      data := written.value;
      Persist(pick);
      return true;
    }

    /**
     Commits a whole run and reloads. When persist hits the row that load reads, every path then reads its
     last committed value; no other row changes.
     */
    method CommitRunAndReload(paths: set<string>, cs: seq<Commit>, pick: nat)
      requires PrefixFree(paths) && AllWritable(data, paths) && pick < if table == [] then 1 else |table|
      requires cs != [] && forall c :: c in cs ==> c.path in paths
      modifies this
      ensures |table| == if old(table) == [] then 1 else |old(table)|
      ensures forall i :: 0 <= i < |table| && i != pick ==> table[i] == old(table)[i]
      ensures forall p :: p in paths ==> Read(table[pick], Split(p)) == LastCommitted(old(data), cs, p)
      ensures pick == |table| - 1 ==> data == table[pick]
    {
      ghost var before, rows := data, table;
      for i := 0 to |cs|
        invariant table == if i == 0 then rows else Persisted(rows, pick, data)
        invariant CommitAll(before, cs[..i]) == Some(data)
      {
        NextCommitDefined(before, paths, cs, i);
        var ok := CommitVar(cs[i].path, cs[i].value, pick);
      }
      assert cs[..|cs|] == cs;
      CommitsHold(before, paths, cs);
      Load();
    }
  }
}
