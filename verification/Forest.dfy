/**
 Parent-pointer graphs: the shape shared by knowledge directories, folders and chat messages.
 Nothing here assumes a tree; acyclicity is a predicate that operations have to preserve.
 */
module Forest {
  import opened Options

  type Id = string

  type Parents = map<Id, Option<Id>>

  /** The node reached from d by following n parent links, if there is one. */
  function Up(p: Parents, d: Id, n: nat): Option<Id>
    decreases n
  {
    if n == 0 then Some(d)
    else if d in p && p[d].Some? then Up(p, p[d].value, n - 1)
    else None
  }

  /** d is a itself or lies somewhere under a. */
  ghost predicate Below(p: Parents, d: Id, a: Id) {
    exists n: nat :: Up(p, d, n) == Some(a)
  }

  ghost predicate Acyclic(p: Parents) {
    forall d: Id, n: nat :: n > 0 ==> Up(p, d, n) != Some(d)
  }

  /** Every parent link leads to an existing node. */
  ghost predicate Closed(p: Parents) {
    forall d :: d in p && p[d].Some? ==> p[d].value in p
  }

  ghost predicate IsForest(p: Parents) {
    Closed(p) && Acyclic(p)
  }

  ghost function Subtree(p: Parents, a: Id): set<Id> {
    set d | d in p && Below(p, d, a)
  }

  ghost function Ancestors(p: Parents, d: Id): set<Id> {
    set a | a in p && Below(p, d, a)
  }

  function Children(p: Parents, a: Id): set<Id> {
    set c | c in p && p[c] == Some(a)
  }

  // ---------- walking ----------

  lemma {:induction false} UpAdd(p: Parents, d: Id, m: nat, n: nat)
    ensures Up(p, d, m + n) == if Up(p, d, m).Some? then Up(p, Up(p, d, m).value, n) else None
    decreases m
  {
    if m > 0 && d in p && p[d].Some? {
      UpAdd(p, p[d].value, m - 1, n);
    }
  }

  lemma BelowSelf(p: Parents, d: Id)
    ensures Below(p, d, d)
  {
    assert Up(p, d, 0) == Some(d);
  }

  lemma BelowTransitive(p: Parents, x: Id, y: Id, z: Id)
    requires Below(p, x, y) && Below(p, y, z)
    ensures Below(p, x, z)
  {
    var m: nat :| Up(p, x, m) == Some(y);
    var n: nat :| Up(p, y, n) == Some(z);
    UpAdd(p, x, m, n);
  }

  /** One step of Below: either the node itself, or below through its parent. */
  lemma BelowStep(p: Parents, d: Id, a: Id)
    ensures Below(p, d, a) <==> d == a || (d in p && p[d].Some? && Below(p, p[d].value, a))
  {
    if Below(p, d, a) && d != a {
      var n: nat :| Up(p, d, n) == Some(a);
      assert Up(p, p[d].value, n - 1) == Some(a);
    }
    if d == a {
      BelowSelf(p, d);
    } else if d in p && p[d].Some? && Below(p, p[d].value, a) {
      var n: nat :| Up(p, p[d].value, n) == Some(a);
      assert Up(p, d, n + 1) == Some(a);
    }
  }

  /** Once a walk returns to a node it has seen, it never leaves the nodes seen so far. */
  lemma {:induction false} WalkRepeats(p: Parents, x: Id, j: nat, k: nat, n: nat)
    requires j < k && Up(p, x, j) == Up(p, x, k)
    ensures exists i: nat :: i < k && Up(p, x, n) == Up(p, x, i)
    decreases n
  {
    if n >= k {
      UpAdd(p, x, k, n - k);
      UpAdd(p, x, j, n - k);
      WalkRepeats(p, x, j, k, n - (k - j));
    }
  }

  lemma WalkEnded(p: Parents, x: Id, k: nat, n: nat)
    requires Up(p, x, k) == None && k <= n
    ensures Up(p, x, n) == None
  {
    UpAdd(p, x, k, n - k);
  }

  /** A walk that has ended or repeated without meeting a never meets a. */
  lemma WalkExhausted(p: Parents, x: Id, k: nat, a: Id)
    requires forall i: nat :: i < k ==> Up(p, x, i) != Some(a)
    requires Up(p, x, k) == None || exists j: nat :: j < k && Up(p, x, j) == Up(p, x, k)
    ensures !Below(p, x, a)
  {
    forall n: nat
      ensures Up(p, x, n) != Some(a)
    {
      if Up(p, x, k) == None {
        if n >= k { WalkEnded(p, x, k, n); }
      } else {
        var j: nat :| j < k && Up(p, x, j) == Up(p, x, k);
        WalkRepeats(p, x, j, k, n);
      }
    }
  }

  /** Relinking d does not disturb a walk that has not yet left d. */
  lemma {:induction false} RelinkKeepsWalk(p: Parents, d: Id, v: Option<Id>, x: Id, n: nat)
    requires forall i: nat :: i < n ==> Up(p, x, i) != Some(d)
    ensures Up(p[d := v], x, n) == Up(p, x, n)
    decreases n
  {
    if n > 0 {
      assert Up(p, x, 0) == Some(x);
      if x in p && p[x].Some? {
        forall i: nat | i < n - 1
          ensures Up(p, p[x].value, i) != Some(d)
        {
          assert Up(p, x, i + 1) == Up(p, p[x].value, i);
        }
        RelinkKeepsWalk(p, d, v, p[x].value, n - 1);
      }
    }
  }

  // ---------- acyclicity ----------

  /** In an acyclic graph the parent of d is not below d. */
  lemma ParentNotBelow(p: Parents, d: Id)
    requires Acyclic(p) && d in p && p[d].Some?
    ensures !Below(p, p[d].value, d)
  {
    forall n: nat
      ensures Up(p, p[d].value, n) != Some(d)
    {
      assert Up(p, d, n + 1) == Up(p, p[d].value, n);
    }
  }

  lemma BelowAntisymmetric(p: Parents, x: Id, y: Id)
    requires Acyclic(p) && Below(p, x, y) && Below(p, y, x)
    ensures x == y
  {
    var m: nat :| Up(p, x, m) == Some(y);
    var n: nat :| Up(p, y, n) == Some(x);
    UpAdd(p, x, m, n);
  }

  lemma FirstVisit(p: Parents, x: Id, a: Id) returns (n: nat)
    requires Below(p, x, a)
    ensures Up(p, x, n) == Some(a)
    ensures forall i: nat :: i < n ==> Up(p, x, i) != Some(a)
  {
    n :| Up(p, x, n) == Some(a);
    while exists i: nat :: i < n && Up(p, x, i) == Some(a)
      invariant Up(p, x, n) == Some(a)
      decreases n
    {
      var i: nat :| i < n && Up(p, x, i) == Some(a);
      n := i;
    }
  }

  lemma RelinkCycleNeedsBelow(p: Parents, d: Id, q: Id, x: Id, n: nat)
    requires Acyclic(p) && n > 0
    requires Up(p[d := Some(q)], x, n) == Some(x)
    ensures Below(p, q, d)
  {
    var p' := p[d := Some(q)];
    if i: nat :| i < n && Up(p, x, i) == Some(d) {
      var k := FirstVisit(p, x, d);
      RelinkKeepsWalk(p, d, Some(q), x, k);
      UpAdd(p', x, k, n - k);
      UpAdd(p', d, n - k, k);
      assert Up(p', d, n) == Some(d);
      assert Up(p', q, n - 1) == Some(d);
      if !Below(p, q, d) {
        RelinkKeepsWalk(p, d, Some(q), q, n - 1);
      }
    } else {
      RelinkKeepsWalk(p, d, Some(q), x, n);
    }
  }

  /** Linking d under q closes a cycle exactly when q is d or lies under d. */
  lemma RelinkAcyclicIff(p: Parents, d: Id, q: Id)
    requires Acyclic(p)
    ensures Acyclic(p[d := Some(q)]) <==> !Below(p, q, d)
  {
    var p' := p[d := Some(q)];
    if Below(p, q, d) {
      var n := FirstVisit(p, q, d);
      RelinkKeepsWalk(p, d, Some(q), q, n);
      assert Up(p', d, n + 1) == Up(p', q, n) == Some(d);
    } else {
      forall x: Id, n: nat | n > 0
        ensures Up(p', x, n) != Some(x)
      {
        if Up(p', x, n) == Some(x) {
          RelinkCycleNeedsBelow(p, d, q, x, n);
        }
      }
    }
  }

  lemma {:induction false} RootKeepsAcyclicWalk(p: Parents, d: Id, x: Id, n: nat)
    requires Up(p[d := None], x, n).Some?
    ensures Up(p[d := None], x, n) == Up(p, x, n)
    decreases n
  {
    if n > 0 {
      RootKeepsAcyclicWalk(p, d, p[x].value, n - 1);
    }
  }

  /** Making d a root never closes a cycle. */
  lemma RootKeepsAcyclic(p: Parents, d: Id)
    requires Acyclic(p)
    ensures Acyclic(p[d := None])
  {
    var p' := p[d := None];
    forall x: Id, n: nat | n > 0
      ensures Up(p', x, n) != Some(x)
    {
      if Up(p', x, n) == Some(x) {
        RootKeepsAcyclicWalk(p, d, x, n);
      }
    }
  }

  lemma {:induction false} SubgraphWalk(p: Parents, q: Parents, x: Id, n: nat)
    requires forall d :: d in q ==> d in p && p[d] == q[d]
    requires Up(q, x, n).Some?
    ensures Up(q, x, n) == Up(p, x, n)
    decreases n
  {
    if n > 0 {
      SubgraphWalk(p, q, q[x].value, n - 1);
    }
  }

  /** Dropping nodes keeps a graph acyclic. */
  lemma SubgraphAcyclic(p: Parents, q: Parents)
    requires Acyclic(p)
    requires forall d :: d in q ==> d in p && p[d] == q[d]
    ensures Acyclic(q)
  {
    forall x: Id, n: nat | n > 0
      ensures Up(q, x, n) != Some(x)
    {
      if Up(q, x, n) == Some(x) {
        SubgraphWalk(p, q, x, n);
      }
    }
  }

  lemma {:induction false} NeverReached(p: Parents, x: Id, c: Id, n: nat)
    requires x != c
    requires forall d :: d in p ==> p[d] != Some(c)
    ensures Up(p, x, n) != Some(c)
    decreases n
  {
    if n > 0 && x in p && p[x].Some? {
      NeverReached(p, p[x].value, c, n - 1);
    }
  }

  /** Adding a node nobody points at, under a parent other than itself, keeps a graph acyclic. */
  lemma AddLeafAcyclic(p: Parents, c: Id, v: Option<Id>)
    requires Acyclic(p) && c !in p && v != Some(c)
    requires forall d :: d in p ==> p[d] != Some(c)
    ensures Acyclic(p[c := v])
  {
    if v.Some? {
      if Below(p, v.value, c) {
        var n: nat :| Up(p, v.value, n) == Some(c);
        NeverReached(p, v.value, c, n);
      }
      RelinkAcyclicIff(p, c, v.value);
    } else {
      RootKeepsAcyclic(p, c);
    }
  }

  /** The graph with each of the leaves hanging under v. */
  function WithLeaves(p: Parents, leaves: set<Id>, v: Option<Id>): Parents {
    p + map a | a in leaves :: v
  }

  /** No node outside the set has its parent in it. */
  ghost predicate NobodyUnder(p: Parents, leaves: set<Id>) {
    forall d :: d in p && d !in leaves && p[d].Some? ==> p[d].value !in leaves
  }

  /** A walk that starts outside such a set stays outside and does not notice the set being rehung. */
  lemma {:induction false} WalkStaysOutside(p: Parents, leaves: set<Id>, v: Option<Id>, x: Id, n: nat)
    requires NobodyUnder(p, leaves) && x !in leaves
    ensures Up(WithLeaves(p, leaves, v), x, n) == Up(p, x, n)
    ensures Up(p, x, n).Some? ==> Up(p, x, n).value !in leaves
    decreases n
  {
    if n > 0 && x in p && p[x].Some? {
      WalkStaysOutside(p, leaves, v, p[x].value, n - 1);
    }
  }

  /** Hanging nodes that nobody else is under somewhere outside them keeps a graph acyclic. */
  lemma WithLeavesAcyclic(p: Parents, leaves: set<Id>, v: Option<Id>)
    requires Acyclic(p) && NobodyUnder(p, leaves) && (v.Some? ==> v.value !in leaves)
    ensures Acyclic(WithLeaves(p, leaves, v))
  {
    var q := WithLeaves(p, leaves, v);
    forall x: Id, n: nat | n > 0
      ensures Up(q, x, n) != Some(x)
    {
      if x !in leaves {
        WalkStaysOutside(p, leaves, v, x, n);
      } else if v.Some? {
        WalkStaysOutside(p, leaves, v, v.value, n - 1);
        assert Up(q, x, n) == Up(q, v.value, n - 1);
      }
    }
  }

  // ---------- subtrees ----------

  /** The subtree of a child is a proper part of its parent's: the measure of every recursive descent. */
  lemma ChildSubtreeShrinks(p: Parents, a: Id, c: Id)
    requires Acyclic(p) && a in p && c in Children(p, a)
    ensures Subtree(p, c) < Subtree(p, a)
    ensures a !in Subtree(p, c)
  {
    ParentNotBelow(p, c);
    BelowSelf(p, a);
    BelowSelf(p, c);
    BelowStep(p, c, a);
    forall d | d in Subtree(p, c)
      ensures d in Subtree(p, a)
    {
      BelowTransitive(p, d, c, a);
    }
    assert a in Subtree(p, a) && a !in Subtree(p, c);
  }

  ghost function SubtreesOf(p: Parents, cs: set<Id>): set<Id> {
    set d | d in p && exists c :: c in cs && Below(p, d, c)
  }

  lemma SubtreeIsRootAndChildren(p: Parents, a: Id)
    ensures Subtree(p, a) == (if a in p then {a} else {}) + SubtreesOf(p, Children(p, a))
  {
    BelowSelf(p, a);
    forall d | d in p
      ensures Below(p, d, a) <==> d == a || d in SubtreesOf(p, Children(p, a))
    {
      if Below(p, d, a) && d != a {
        var n := FirstVisit(p, d, a);
        UpAdd(p, d, n - 1, 1);
        assert Up(p, Up(p, d, n - 1).value, 1) == Some(a);
        var c := Up(p, d, n - 1).value;
        assert c in Children(p, a) && Below(p, d, c);
      }
      if d in SubtreesOf(p, Children(p, a)) {
        var c :| c in Children(p, a) && Below(p, d, c);
        BelowStep(p, c, a);
        BelowTransitive(p, d, c, a);
      }
    }
  }

  lemma SubtreesOfAdd(p: Parents, cs: set<Id>, c: Id)
    ensures SubtreesOf(p, cs + {c}) == SubtreesOf(p, cs) + Subtree(p, c)
  {
  }

  // ---------- root paths ----------

  lemma AncestorsShrink(p: Parents, d: Id)
    requires Acyclic(p) && d in p && p[d].Some?
    ensures Ancestors(p, p[d].value) < Ancestors(p, d)
  {
    ParentNotBelow(p, d);
    BelowSelf(p, d);
    forall a | a in Ancestors(p, p[d].value)
      ensures a in Ancestors(p, d)
    {
      BelowStep(p, d, a);
    }
    assert d in Ancestors(p, d) && d !in Ancestors(p, p[d].value);
  }

  /** The nodes from the root of d's tree down to d. */
  ghost function RootPath(p: Parents, d: Id): (s: seq<Id>)
    requires IsForest(p) && d in p
    ensures |s| > 0 && s[|s| - 1] == d
    decreases Ancestors(p, d)
  {
    if p[d].None? then [d]
    else
      AncestorsShrink(p, d);
      RootPath(p, p[d].value) + [d]
  }

  /** RootPath is the one parent-linked sequence from a root to d. */
  lemma {:induction false} RootPathIsChain(p: Parents, d: Id)
    requires IsForest(p) && d in p
    ensures var s := RootPath(p, d);
            && s[0] in p && p[s[0]] == None
            && (forall i :: 0 < i < |s| ==> s[i] in p && p[s[i]] == Some(s[i - 1]))
    decreases Ancestors(p, d)
  {
    if p[d].Some? {
      AncestorsShrink(p, d);
      RootPathIsChain(p, p[d].value);
    }
  }

  /** A walk upwards that has just ended lists RootPath backwards. */
  lemma {:induction false} EndedWalkIsRootPath(p: Parents, d: Id, k: nat)
    requires IsForest(p) && d in p
    requires Up(p, d, k).Some? && Up(p, d, k + 1) == None
    ensures |RootPath(p, d)| == k + 1
    ensures forall i :: 0 <= i <= k ==> Up(p, d, k - i) == Some(RootPath(p, d)[i])
    decreases k
  {
    if k > 0 {
      EndedWalkIsRootPath(p, p[d].value, k - 1);
      forall i | 0 <= i <= k
        ensures Up(p, d, k - i) == Some(RootPath(p, d)[i])
      {
        if i < k {
          assert Up(p, d, k - i) == Up(p, p[d].value, k - 1 - i);
        }
      }
    } else {
      UpAdd(p, d, 0, 1);
    }
  }

  /** A walk in an acyclic graph never repeats a node. */
  lemma AcyclicWalkDistinct(p: Parents, d: Id, j: nat, k: nat)
    requires Acyclic(p) && j < k && Up(p, d, k).Some?
    ensures Up(p, d, j) != Up(p, d, k)
  {
    UpAdd(p, d, j, k - j);
  }

  /** Two graphs that agree on d's ancestors give d the same root path. */
  lemma {:induction false} RootPathFrame(p: Parents, q: Parents, d: Id)
    requires IsForest(p) && d in p && IsForest(q)
    requires forall a :: a in Ancestors(p, d) ==> a in q && q[a] == p[a]
    ensures d in q && RootPath(q, d) == RootPath(p, d)
    decreases Ancestors(p, d)
  {
    BelowSelf(p, d);
    assert d in Ancestors(p, d);
    if p[d].Some? {
      AncestorsShrink(p, d);
      RootPathFrame(p, q, p[d].value);
    }
  }

  /** q may become d's parent: it is no node (d becomes a root) or a node outside d's subtree. */
  ghost predicate CanRelink(p: Parents, d: Id, q: Option<Id>) {
    d in p && (q.Some? ==> q.value in p && !Below(p, q.value, d))
  }

  lemma RelinkIsForest(p: Parents, d: Id, q: Option<Id>)
    requires IsForest(p) && CanRelink(p, d, q)
    ensures IsForest(p[d := q])
  {
    if q.Some? { RelinkAcyclicIff(p, d, q.value); } else { RootKeepsAcyclic(p, d); }
  }

  lemma RelinkPathOutside(p: Parents, d: Id, q: Option<Id>, x: Id)
    requires IsForest(p) && CanRelink(p, d, q) && IsForest(p[d := q])
    requires x in p && !Below(p, x, d)
    ensures RootPath(p[d := q], x) == RootPath(p, x)
  {
    RootPathFrame(p, p[d := q], x);
  }

  lemma RelinkedPath(p: Parents, d: Id, q: Option<Id>)
    requires IsForest(p) && CanRelink(p, d, q) && IsForest(p[d := q])
    ensures RootPath(p[d := q], d) == (if q.Some? then RootPath(p, q.value) else []) + [d]
  {
    if q.Some? { RelinkPathOutside(p, d, q, q.value); }
  }

  /** `moved` is `top` followed by `path` from the end of `stem` on. */
  ghost predicate Moves(moved: seq<Id>, top: seq<Id>, path: seq<Id>, stem: seq<Id>) {
    |stem| > 0 && stem <= path && moved == top + path[|stem| - 1..]
  }

  lemma MovesRoot(top: seq<Id>, stem: seq<Id>, d: Id)
    requires |stem| > 0 && stem[|stem| - 1] == d
    ensures Moves(top + [d], top, stem, stem)
  {
    assert stem[|stem| - 1..] == [d];
  }

  lemma ExtendPath(moved: seq<Id>, top: seq<Id>, path: seq<Id>, stem: seq<Id>, x: Id)
    requires Moves(moved, top, path, stem)
    ensures Moves(moved + [x], top, path + [x], stem)
  {
    assert (path + [x])[|stem| - 1..] == path[|stem| - 1..] + [x];
  }

  lemma {:induction false} RelinkPathInside(p: Parents, d: Id, q: Option<Id>, x: Id)
    requires IsForest(p) && CanRelink(p, d, q) && IsForest(p[d := q])
    requires x in p && Below(p, x, d)
    ensures Moves(RootPath(p[d := q], x), if q.Some? then RootPath(p, q.value) else [], RootPath(p, x), RootPath(p, d))
    decreases Ancestors(p, x)
  {
    var top := if q.Some? then RootPath(p, q.value) else [];
    if x == d {
      RelinkedPath(p, d, q);
      MovesRoot(top, RootPath(p, d), d);
    } else {
      BelowStep(p, x, d);
      AncestorsShrink(p, x);
      RelinkPathInside(p, d, q, p[x].value);
      ExtendPath(RootPath(p[d := q], p[x].value), top, RootPath(p, p[x].value), RootPath(p, d), x);
    }
  }
}
