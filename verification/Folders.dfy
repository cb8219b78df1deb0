/**
 Chat folders: a forest per user. Listing a folder's descendants and deleting it walk the children
 recursively, committing one row at a time on the way back up.
 */
module Folders {
  import opened Options
  import opened Seqs
  import opened Forest

  datatype Folder = Folder(userId: string, parentId: Option<Id>, name: string)

  type Table = map<Id, Folder>

  /** One user's folders; a parent that belongs to somebody else is outside this graph. */
  function UserParents(folders: Table, user: string): Parents {
    map f | f in folders && folders[f].userId == user :: folders[f].parentId
  }

  // ---------- post-order ----------

  /** s lists everything strictly below a once, every folder after all of its own descendants. */
  ghost predicate PostOrder(p: Parents, a: Id, s: seq<Id>) {
    && NoDup(s)
    && (forall x :: x in s <==> x in Subtree(p, a) && x != a)
    && (forall i, j :: 0 <= i < j < |s| ==> !Below(p, s[j], s[i]))
  }

  /** The same for the subtrees of the children handled so far, children included. */
  ghost predicate PostOrderOf(p: Parents, cs: set<Id>, s: seq<Id>) {
    && NoDup(s)
    && (forall x :: x in s <==> x in SubtreesOf(p, cs))
    && (forall i, j :: 0 <= i < j < |s| ==> !Below(p, s[j], s[i]))
  }

  /** Two nodes above a common node are one above the other. */
  lemma AncestorsComparable(p: Parents, x: Id, a: Id, b: Id)
    requires Below(p, x, a) && Below(p, x, b)
    ensures Below(p, a, b) || Below(p, b, a)
  {
    var m: nat :| Up(p, x, m) == Some(a);
    var n: nat :| Up(p, x, n) == Some(b);
    if m <= n {
      UpAdd(p, x, m, n - m);
      assert Up(p, a, n - m) == Some(b);
    } else {
      UpAdd(p, x, n, m - n);
      assert Up(p, b, m - n) == Some(a);
    }
  }

  /** Different children of one folder have disjoint subtrees. */
  lemma SiblingsDisjoint(p: Parents, a: Id, c: Id, d: Id, x: Id)
    requires Acyclic(p) && c in Children(p, a) && d in Children(p, a) && c != d
    requires Below(p, x, c)
    ensures !Below(p, x, d)
  {
    if Below(p, x, d) {
      AncestorsComparable(p, x, c, d);
      ParentNotBelow(p, c);
      ParentNotBelow(p, d);
      BelowStep(p, c, d);
      BelowStep(p, d, c);
    }
  }

  lemma AppendOrdered(p: Parents, s: seq<Id>, u: seq<Id>)
    requires NoDup(s) && NoDup(u)
    requires forall i, j :: 0 <= i < j < |s| ==> !Below(p, s[j], s[i])
    requires forall i, j :: 0 <= i < j < |u| ==> !Below(p, u[j], u[i])
    requires forall x, y :: x in s && y in u ==> x != y && !Below(p, y, x)
    ensures NoDup(s + u)
    ensures forall i, j :: 0 <= i < j < |s + u| ==> !Below(p, (s + u)[j], (s + u)[i])
  {
    forall i, j | 0 <= i < j < |s + u|
      ensures (s + u)[i] != (s + u)[j] && !Below(p, (s + u)[j], (s + u)[i])
    {
      if i < |s| <= j {
        assert s[i] in s && u[j - |s|] in u;
      }
    }
  }

  /** Appending a further child's subtree, and then the child, keeps the order. */
  lemma AppendChild(p: Parents, a: Id, done: set<Id>, s: seq<Id>, c: Id, t: seq<Id>)
    requires Acyclic(p) && PostOrderOf(p, done, s) && PostOrder(p, c, t)
    requires done <= Children(p, a) && c in Children(p, a) && c !in done
    ensures PostOrderOf(p, done + {c}, s + (t + [c]))
  {
    BelowSelf(p, c);
    SubtreesOfAdd(p, done, c);
    var u := t + [c];
    forall x
      ensures x in u <==> x in Subtree(p, c)
    {
    }
    forall x | x in s
      ensures forall y :: y in Subtree(p, c) ==> !Below(p, y, x) && y != x
    {
      var d :| d in done && Below(p, x, d);
      forall y | y in Subtree(p, c)
        ensures !Below(p, y, x) && y != x
      {
        SiblingsDisjoint(p, a, c, d, y);
        if Below(p, y, x) { BelowTransitive(p, y, x, d); }
      }
    }
    forall i, j | 0 <= i < j < |u|
      ensures u[i] != u[j] && !Below(p, u[j], u[i])
    {
      if j == |t| {
        assert u[i] in t;
        if Below(p, c, u[i]) { BelowAntisymmetric(p, c, u[i]); }
      }
    }
    AppendOrdered(p, s, u);
  }

  lemma AllChildrenDone(p: Parents, a: Id, s: seq<Id>)
    requires Acyclic(p) && a in p && PostOrderOf(p, Children(p, a), s)
    ensures PostOrder(p, a, s)
  {
    SubtreeIsRootAndChildren(p, a);
    forall c | c in Children(p, a)
      ensures !Below(p, a, c)
    {
      ParentNotBelow(p, c);
    }
  }

  // ---------- removing finished subtrees ----------

  lemma {:induction false} WalkStays(p: Parents, gone: set<Id>, x: Id, c: Id, n: nat)
    requires Up(p, x, n) == Some(c)
    requires forall y :: Below(p, y, c) ==> y !in gone
    ensures Up(p - gone, x, n) == Some(c)
    decreases n
  {
    assert Below(p, x, c);
    if n > 0 {
      assert Below(p, p[x].value, c);
      WalkStays(p, gone, p[x].value, c, n - 1);
    }
  }

  /** Removing folders outside c's subtree does not change what is below c, nor the order there. */
  lemma PostOrderFrame(p: Parents, gone: set<Id>, c: Id, t: seq<Id>)
    requires forall y :: Below(p, y, c) ==> y !in gone
    requires PostOrder(p - gone, c, t)
    ensures PostOrder(p, c, t)
  {
    var q := p - gone;
    forall x
      ensures x in Subtree(q, c) <==> x in Subtree(p, c)
    {
      if x in Subtree(p, c) {
        var n: nat :| Up(p, x, n) == Some(c);
        WalkStays(p, gone, x, c, n);
      }
      if x in Subtree(q, c) {
        var n: nat :| Up(q, x, n) == Some(c);
        SubgraphWalk(p, q, x, n);
      }
    }
    forall i, j | 0 <= i < j < |t|
      ensures !Below(p, t[j], t[i])
    {
      assert t[i] in t && t[j] in t;
      if Below(p, t[j], t[i]) {
        var n: nat :| Up(p, t[j], n) == Some(t[i]);
        forall y | Below(p, y, t[i])
          ensures y !in gone
        {
          BelowTransitive(p, y, t[i], c);
        }
        WalkStays(p, gone, t[j], t[i], n);
      }
    }
  }

  /** Deleting in post-order never leaves a folder of the subtree without its parent. */
  lemma PrefixLeavesNoOrphan(p: Parents, a: Id, s: seq<Id>, k: nat, x: Id)
    requires a in p && PostOrder(p, a, s) && k <= |s|
    requires x in Subtree(p, a) && x != a && x !in s[..k]
    ensures p[x].Some? && p[x].value in p && p[x].value !in s[..k]
  {
    BelowStep(p, x, a);
    var y := p[x].value;
    var n: nat :| Up(p, y, n) == Some(a);
    if y in s[..k] {
      var i :| 0 <= i < k && s[i] == y;
      var j :| 0 <= j < |s| && s[j] == x;
      BelowSelf(p, y);
      BelowStep(p, x, y);
    }
  }

  function Elements(s: seq<Id>): set<Id> {
    set x | x in s
  }

  /** The tables left after deleting the folders of s one by one. */
  function Snapshots(t: Table, s: seq<Id>): seq<Table> {
    seq(|s|, i requires 0 <= i < |s| => t - Elements(s[..i + 1]))
  }

  lemma SnapshotsConcat(t: Table, a: seq<Id>, b: seq<Id>)
    ensures Snapshots(t, a + b) == Snapshots(t, a) + Snapshots(t - Elements(a), b)
    ensures t - Elements(a + b) == t - Elements(a) - Elements(b)
  {
    forall i | 0 <= i < |a + b|
      ensures Snapshots(t, a + b)[i] == (Snapshots(t, a) + Snapshots(t - Elements(a), b))[i]
    {
      if i < |a| {
        assert (a + b)[..i + 1] == a[..i + 1];
      } else {
        assert (a + b)[..i + 1] == a + b[..i - |a| + 1];
        assert Elements(a + b[..i - |a| + 1]) == Elements(a) + Elements(b[..i - |a| + 1]);
      }
    }
    assert Elements(a + b) == Elements(a) + Elements(b);
  }

  /** Subtree members of a that survive in t have their parents there. */
  ghost predicate NoOrphans(p: Parents, a: Id, t: Table) {
    forall x :: x in t && x in Subtree(p, a) && x != a ==> p[x].Some? && p[x].value in t
  }

  lemma SnapshotsLeaveNoOrphan(folders: Table, user: string, a: Id, s: seq<Id>)
    requires a in UserParents(folders, user) && PostOrder(UserParents(folders, user), a, s)
    ensures forall t :: t in Snapshots(folders, s) ==> NoOrphans(UserParents(folders, user), a, t)
  {
    var p := UserParents(folders, user);
    forall k | 0 <= k < |s|
      ensures NoOrphans(p, a, Snapshots(folders, s)[k])
    {
      var t := Snapshots(folders, s)[k];
      forall x | x in t && x in Subtree(p, a) && x != a
        ensures p[x].Some? && p[x].value in t
      {
        PrefixLeavesNoOrphan(p, a, s, k + 1, x);
      }
    }
  }

  /** While the children of a are being deleted, the next child's subtree is still whole. */
  lemma NextChildIntact(p: Parents, a: Id, done: set<Id>, found: seq<Id>, c: Id)
    requires Acyclic(p) && a in p && PostOrderOf(p, done, found)
    requires done <= Children(p, a) && c in Children(p, a) && c !in done
    ensures forall y :: Below(p, y, c) ==> y !in Elements(found)
    ensures c in p - Elements(found) && Acyclic(p - Elements(found))
    ensures Subtree(p - Elements(found), c) < Subtree(p, a)
  {
    forall y | Below(p, y, c)
      ensures y !in found
    {
      if y in found {
        var d :| d in done && Below(p, y, d);
        SiblingsDisjoint(p, a, c, d, y);
      }
    }
    BelowSelf(p, c);
    var q := p - Elements(found);
    SubgraphAcyclic(p, q);
    ChildSubtreeShrinks(p, a, c);
    forall x | x in Subtree(q, c)
      ensures x in Subtree(p, c)
    {
      var n: nat :| Up(q, x, n) == Some(c);
      SubgraphWalk(p, q, x, n);
    }
  }

  ghost predicate NameMatches(normalize: string -> string, queries: seq<string>, name: string) {
    exists q :: q in queries && normalize(q) == normalize(name)
  }

  lemma UserParentsWithout(folders: Table, user: string, gone: set<Id>)
    ensures UserParents(folders - gone, user) == UserParents(folders, user) - gone
  {
  }

  lemma ChildDeleted(before: Table, ids: seq<Id>, below: seq<Id>, c: Id)
    ensures before - Elements(ids) - Elements(below) - {c} == before - Elements(ids + (below + [c]))
    ensures Snapshots(before, ids) + Snapshots(before - Elements(ids), below)
            + [before - Elements(ids) - Elements(below) - {c}]
         == Snapshots(before, ids + (below + [c]))
  {
    SnapshotsConcat(before, ids, below + [c]);
    SnapshotsConcat(before - Elements(ids), below, [c]);
    assert Elements([c]) == {c};
    assert [c][..1] == [c];
    assert Snapshots(before - Elements(ids) - Elements(below), [c]) == [before - Elements(ids) - Elements(below) - {c}];
  }

  lemma NotYetDone(s: seq<Id>, i: nat)
    requires NoDup(s) && i < |s|
    ensures s[i] !in s[..i] && s[..i + 1] == s[..i] + [s[i]]
  {
  }

  /** One child's subtree and then the child have been deleted. */
  lemma ChildFinished(before: Table, log: seq<Table>, user: string, a: Id, done: set<Id>, ids: seq<Id>, c: Id,
                      below: seq<Id>)
    requires var p := UserParents(before, user);
             && Acyclic(p) && PostOrderOf(p, done, ids)
             && done <= Children(p, a) && c in Children(p, a) && c !in done
             && (forall y :: Below(p, y, c) ==> y !in Elements(ids))
             && PostOrder(p - Elements(ids), c, below)
    ensures PostOrderOf(UserParents(before, user), done + {c}, ids + (below + [c]))
    ensures before - Elements(ids) - Elements(below) - {c} == before - Elements(ids + (below + [c]))
    ensures log + Snapshots(before, ids) + Snapshots(before - Elements(ids), below)
            + [before - Elements(ids) - Elements(below) - {c}]
         == log + Snapshots(before, ids + (below + [c]))
  {
    PostOrderFrame(UserParents(before, user), Elements(ids), c, below);
    ChildDeleted(before, ids, below, c);
    AppendChild(UserParents(before, user), a, done, ids, c, below);
  }

  // ---------- runs ----------

  datatype Step =
    | Insert(id: Id, row: Folder)
    | SetParent(id: Id, user: string, parent: Option<Id>)
    | Delete(id: Id, user: string)

  predicate Owns(folders: Table, user: string, id: Id) {
    id in folders && folders[id].userId == user
  }

  ghost function Apply(folders: Table, step: Step): Table {
    match step
    case Insert(id, row) => folders[id := row]
    case SetParent(id, user, parent) =>
      if Owns(folders, user, id) then folders[id := folders[id].(parentId := parent)] else folders
    case Delete(id, user) =>
      if Owns(folders, user, id) then folders - Subtree(UserParents(folders, user), id) else folders
  }

  /** A new folder's id is minted: no folder has it, or has it for a parent. */
  ghost predicate Minted(folders: Table, step: Step) {
    step.Insert? ==>
      && step.id !in folders && step.row.parentId != Some(step.id)
      && forall f :: f in folders ==> folders[f].parentId != Some(step.id)
  }

  ghost predicate AllAcyclic(folders: Table) {
    forall user :: Acyclic(UserParents(folders, user))
  }

  /** Nothing tests whether the new parent lies in the folder's own subtree. */
  ghost predicate ClosesLoop(folders: Table, step: Step) {
    step.SetParent? && Owns(folders, step.user, step.id) && step.parent.Some?
    && Below(UserParents(folders, step.user), step.parent.value, step.id)
  }

  lemma SetParentIsRelink(folders: Table, step: Step, user: string)
    requires step.SetParent? && Owns(folders, step.user, step.id)
    ensures UserParents(Apply(folders, step), user)
         == if user == step.user then UserParents(folders, user)[step.id := step.parent] else UserParents(folders, user)
  {
  }

  lemma StepStaysAcyclicIff(folders: Table, step: Step)
    requires AllAcyclic(folders) && Minted(folders, step)
    ensures AllAcyclic(Apply(folders, step)) <==> !ClosesLoop(folders, step)
  {
    forall user
      ensures !ClosesLoop(folders, step) ==> Acyclic(UserParents(Apply(folders, step), user))
      ensures ClosesLoop(folders, step) && user == step.user ==> !Acyclic(UserParents(Apply(folders, step), user))
    {
      var p, q := UserParents(folders, user), UserParents(Apply(folders, step), user);
      assert Acyclic(p);
      match step
      case Insert(id, row) =>
        if row.userId == user {
          AddLeafAcyclic(p, id, row.parentId);
          assert q == p[id := row.parentId];
        } else {
          assert q == p;
        }
      case SetParent(id, owner, parent) =>
        if Owns(folders, owner, id) {
          SetParentIsRelink(folders, step, user);
          if parent.Some? { RelinkAcyclicIff(p, id, parent.value); } else { RootKeepsAcyclic(p, id); }
        }
      case Delete(_, _) => SubgraphAcyclic(p, q);
    }
    if ClosesLoop(folders, step) { assert !Acyclic(UserParents(Apply(folders, step), step.user)); }
  }

  ghost predicate AllMinted(folders: Table, steps: seq<Step>)
    decreases |steps|
  {
    steps != [] ==> Minted(folders, steps[0]) && AllMinted(Apply(folders, steps[0]), steps[1..])
  }

  ghost predicate AlwaysAcyclic(folders: Table, steps: seq<Step>)
    decreases |steps|
  {
    AllAcyclic(folders) && (steps != [] ==> AlwaysAcyclic(Apply(folders, steps[0]), steps[1..]))
  }

  ghost predicate NeverLoops(folders: Table, steps: seq<Step>)
    decreases |steps|
  {
    steps != [] ==> !ClosesLoop(folders, steps[0]) && NeverLoops(Apply(folders, steps[0]), steps[1..])
  }

  /**
   Over any run of inserts, parent changes and deletes every user's folders stay free of cycles exactly
   as long as no folder is put under itself or one of its own descendants.
   */
  lemma {:induction false} RunStaysAcyclicIff(folders: Table, steps: seq<Step>)
    requires AllAcyclic(folders) && AllMinted(folders, steps)
    ensures AlwaysAcyclic(folders, steps) <==> NeverLoops(folders, steps)
    decreases |steps|
  {
    if steps != [] {
      StepStaysAcyclicIff(folders, steps[0]);
      if ClosesLoop(folders, steps[0]) {
        assert !AllAcyclic(Apply(folders, steps[0]));
      } else {
        RunStaysAcyclicIff(Apply(folders, steps[0]), steps[1..]);
      }
    }
  }

  /** A folder put under itself becomes its own descendant. */
  lemma FolderUnderItself(folders: Table, id: Id)
    requires AllAcyclic(folders) && id in folders
    ensures !AllAcyclic(Apply(folders, SetParent(id, folders[id].userId, Some(id))))
  {
    var step := SetParent(id, folders[id].userId, Some(id));
    BelowSelf(UserParents(folders, folders[id].userId), id);
    StepStaysAcyclicIff(folders, step);
  }

  class FolderTable {
    var folders: Table
    ghost var commits: seq<Table>  // the table after each commit

    /** SELECT ... WHERE parent_id = id AND user_id = user, in any order. */
    method ChildFolders(id: Id, user: string) returns (ids: seq<Id>)
      ensures NoDup(ids) && forall c :: c in ids <==> c in Children(UserParents(folders, user), id)
    {
      var left := set c | c in folders && folders[c].userId == user && folders[c].parentId == Some(id);
      ids := [];
      while left != {}
        invariant NoDup(ids) && forall c :: c in ids ==> c !in left
        invariant forall c :: c in ids || c in left <==> c in Children(UserParents(folders, user), id)
        decreases left
      {
        var c :| c in left;
        left := left - {c};
        ids := ids + [c];
      }
    }

    /** get_children: every child's descendants, then the child. */
    method GetChildren(id: Id, user: string) returns (found: seq<Id>)
      requires Acyclic(UserParents(folders, user)) && id in UserParents(folders, user)
      ensures PostOrder(UserParents(folders, user), id, found)
      decreases Subtree(UserParents(folders, user), id)
    {
      ghost var p := UserParents(folders, user);
      var children := ChildFolders(id, user);
      found := [];
      ghost var done := {};
      for i := 0 to |children|
        invariant done == set c | c in children[..i]
        invariant PostOrderOf(p, done, found)
      {
        var c := children[i];
        assert c in children;
        ChildSubtreeShrinks(p, id, c);
        var below := GetChildren(c, user);
        NotYetDone(children, i);
        AppendChild(p, id, done, found, c, below);
        found := found + (below + [c]);
        done := done + {c};
      }
      assert done == Children(p, id);
      AllChildrenDone(p, id, found);
    }

    /** Changes the parent of a folder of the user, without looking at where the new parent is. */
    method UpdateParent(id: Id, user: string, parent: Option<Id>) returns (found: bool)
      modifies this
      ensures folders == Apply(old(folders), SetParent(id, user, parent))
      ensures found <==> Owns(old(folders), user, id)
      ensures commits == if found then old(commits) + [folders] else old(commits)
    {
      if id !in folders || folders[id].userId != user { return false; }
      folders := folders[id := folders[id].(parentId := parent)];
      commits := commits + [folders];
      return true;
    }

    /** Deletes one row and commits. */
    method DeleteAndCommit(id: Id)
      modifies this
      ensures folders == old(folders) - {id} && commits == old(commits) + [folders]
    {
      folders := folders - {id};
      commits := commits + [folders];
    }

    /** delete_children: for each child, its descendants first, then the child's own row. */
    method DeleteChildren(id: Id, user: string) returns (ids: seq<Id>)
      requires Acyclic(UserParents(folders, user)) && id in UserParents(folders, user)
      modifies this
      ensures PostOrder(UserParents(old(folders), user), id, ids)
      ensures folders == old(folders) - Elements(ids)
      ensures commits == old(commits) + Snapshots(old(folders), ids)
      decreases Subtree(UserParents(folders, user), id)
    {
      ghost var before, log := folders, commits;
      ghost var p := UserParents(before, user);
      var children := ChildFolders(id, user);
      ids := [];
      ghost var done := {};
      for i := 0 to |children|
        invariant done == set c | c in children[..i]
        invariant PostOrderOf(p, done, ids)
        invariant folders == before - Elements(ids) && commits == log + Snapshots(before, ids)
      {
        var c := children[i];
        assert c in children;
        NotYetDone(children, i);
        NextChildIntact(p, id, done, ids, c);
        UserParentsWithout(before, user, Elements(ids));
        var below := DeleteChildren(c, user);
        DeleteAndCommit(c);
        ChildFinished(before, log, user, id, done, ids, c, below);
        ids := ids + (below + [c]);
        done := done + {c};
      }
      assert done == Children(p, id);
      AllChildrenDone(p, id, ids);
    }

    /**
     Returns the folder's id followed by every descendant's, each after its own descendants; deletes
     exactly those rows, and after no commit is a surviving folder of the subtree without its parent.
     */
    method DeleteFolder(id: Id, user: string) returns (ids: seq<Id>)
      requires Acyclic(UserParents(folders, user))
      modifies this
      ensures folders == Apply(old(folders), Delete(id, user))
      ensures id !in UserParents(old(folders), user) ==> ids == [] && folders == old(folders) && commits == old(commits)
      ensures id in UserParents(old(folders), user) ==>
                var p := UserParents(old(folders), user);
                && |ids| > 0 && ids[0] == id && PostOrder(p, id, ids[1..])
                && folders == old(folders) - Subtree(p, id)
                && |commits| == |old(commits)| + |ids| && commits[..|old(commits)|] == old(commits)
                && commits[|commits| - 1] == folders
                && forall i :: |old(commits)| <= i < |commits| ==> NoOrphans(p, id, commits[i])
    {
      if id !in folders || folders[id].userId != user { return []; }
      ghost var p := UserParents(folders, user);
      var below := DeleteChildren(id, user);
      SnapshotsLeaveNoOrphan(old(folders), user, id, below);
      DeleteAndCommit(id);
      ids := [id] + below;
      BelowSelf(p, id);
      assert Elements(below) + {id} == Subtree(p, id);
      assert ids[1..] == below;
      ghost var log := old(commits);
      forall i | |log| <= i < |commits|
        ensures NoOrphans(p, id, commits[i])
      {
        if i < |log| + |below| {
          assert commits[i] == Snapshots(old(folders), below)[i - |log|];
        }
      }
    }

    /** Folders whose normalised name is among the normalised queries, with all their descendants. */
    method SearchByNames(user: string, normalize: string -> string, queries: seq<string>) returns (found: set<Id>)
      requires Acyclic(UserParents(folders, user))
      ensures forall x :: x in found <==>
                (exists f :: f in UserParents(folders, user)
                          && NameMatches(normalize, queries, folders[f].name)
                          && x in Subtree(UserParents(folders, user), f))
    {
      ghost var p := UserParents(folders, user);
      found := {};
      if queries == [] { return; }
      var left := set f | f in folders && folders[f].userId == user;
      while left != {}
        invariant left <= p.Keys
        invariant forall x :: x in found <==>
                    (exists f :: f in p.Keys - left
                              && NameMatches(normalize, queries, folders[f].name) && x in Subtree(p, f))
        decreases left
      {
        var f :| f in left;
        left := left - {f};
        ghost var before := found;
        if exists q :: q in queries && normalize(q) == normalize(folders[f].name) {
          var below := GetChildren(f, user);
          found := found + {f} + (set x | x in below);
          BelowSelf(p, f);
        }
        assert forall x :: x in found <==>
                 x in before || (NameMatches(normalize, queries, folders[f].name) && x in Subtree(p, f));
      }
    }
  }
}
