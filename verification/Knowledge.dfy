/**
 The directory tables of a knowledge base: a mutable parent-pointer forest with files attached.
 `Apply` says what each operation does to the tables; the class KnowledgeTable does it the way the
 source does, with chain walks, per-child UPDATEs and a cascading DELETE, and is proved to refine it.
 */
module Knowledge {
  import opened Options
  import opened Forest

  datatype Directory = Directory(knowledgeId: string, parentId: Option<Id>, name: string,
                                 userId: string, createdAt: int, updatedAt: int)

  datatype FileLink = FileLink(knowledgeId: string, fileId: string, directoryId: Option<Id>,
                               userId: string, createdAt: int, updatedAt: int)

  /** The rows of knowledge_directory and knowledge_file, and the ids their foreign keys refer to. */
  datatype Tables = Tables(bases: set<string>, stored: set<string>,
                           dirs: map<Id, Directory>, links: map<string, FileLink>)

  function ParentsOf(dirs: map<Id, Directory>): Parents {
    map d | d in dirs :: dirs[d].parentId
  }

  // ---------- the declared constraints ----------

  /** Two rows that the unique constraint on (knowledge_id, parent_id, name) forbids; NULL parents never clash. */
  predicate SameSlot(a: Directory, b: Directory) {
    a.parentId.Some? && a.parentId == b.parentId && a.knowledgeId == b.knowledgeId && a.name == b.name
  }

  /** The commit of directory row `row` under key id violates no constraint. */
  predicate DirectoryCommits(bases: set<string>, dirs: map<Id, Directory>, id: Id, row: Directory) {
    && row.knowledgeId in bases
    && (row.parentId.Some? ==> row.parentId.value in dirs || row.parentId.value == id)
    && (forall b :: b in dirs && b != id ==> !SameSlot(row, dirs[b]))
  }

  predicate InDirectory(link: FileLink, s: set<Id>) {
    link.directoryId.Some? && link.directoryId.value in s
  }

  predicate DirectoryExists(dirs: map<Id, Directory>, d: Option<Id>) {
    d.Some? ==> d.value in dirs
  }

  ghost predicate DirectoriesValid(bases: set<string>, dirs: map<Id, Directory>) {
    && "" !in dirs
    && IsForest(ParentsOf(dirs))
    && (forall d :: d in dirs ==> dirs[d].knowledgeId in bases)
    && (forall d, e :: d in dirs && e in dirs && d != e && dirs[d].parentId.Some? ==>
          dirs[d].parentId != dirs[e].parentId || dirs[d].knowledgeId != dirs[e].knowledgeId
          || dirs[d].name != dirs[e].name)
  }

  ghost predicate LinksValid(t: Tables) {
    && (forall f :: f in t.links ==>
          && t.links[f].knowledgeId in t.bases
          && t.links[f].fileId in t.stored
          && (t.links[f].directoryId.Some? ==> t.links[f].directoryId.value in t.dirs))
    && (forall f, g :: f in t.links && g in t.links && f != g ==>
          t.links[f].knowledgeId != t.links[g].knowledgeId || t.links[f].fileId != t.links[g].fileId)
  }

  ghost predicate Valid(t: Tables) {
    DirectoriesValid(t.bases, t.dirs) && LinksValid(t)
  }

  // ---------- what each operation does ----------

  datatype Step =
    | CreateDirectory(id: Id, row: Directory)
    | RenameDirectory(id: Id, name: string, now: int)
    | MoveDirectory(id: Id, parent: Option<Id>, now: int)
    | DeleteDirectory(id: Id, moveFiles: bool)
    | AddFile(linkId: string, link: FileLink)
    | MoveFile(knowledgeId: string, fileId: string, directory: Option<Id>, now: int)

  /** A new directory's id is minted after its caller chose the parent. */
  predicate Minted(s: Step) {
    s.CreateDirectory? ==> s.id != "" && s.row.parentId != Some(s.id)
  }

  /** SQL: UPDATE knowledge_file SET directory_id = target WHERE directory_id IN s. */
  function Rehome(links: map<string, FileLink>, s: set<Id>, target: Option<Id>): map<string, FileLink> {
    map f | f in links :: if InDirectory(links[f], s) then links[f].(directoryId := target) else links[f]
  }

  /** SQL: DELETE FROM knowledge_file WHERE directory_id IN s. */
  function DropFiles(links: map<string, FileLink>, s: set<Id>): map<string, FileLink> {
    map f | f in links && !InDirectory(links[f], s) :: links[f]
  }

  function Evicted(links: map<string, FileLink>, s: set<Id>, moveFiles: bool, target: Option<Id>)
    : map<string, FileLink>
  {
    if moveFiles then Rehome(links, s, target) else DropFiles(links, s)
  }

  function Relocate(links: map<string, FileLink>, knowledgeId: string, fileId: string, d: Option<Id>, now: int)
    : map<string, FileLink>
  {
    map f | f in links ::
      if links[f].knowledgeId == knowledgeId && links[f].fileId == fileId
      then links[f].(directoryId := d, updatedAt := now) else links[f]
  }

  predicate HasFile(links: map<string, FileLink>, knowledgeId: string, fileId: string) {
    exists f :: f in links && links[f].knowledgeId == knowledgeId && links[f].fileId == fileId
  }

  predicate LinkCommits(t: Tables, id: string, link: FileLink) {
    && id !in t.links
    && link.knowledgeId in t.bases
    && link.fileId in t.stored
    && DirectoryExists(t.dirs, link.directoryId)
    && !HasFile(t.links, link.knowledgeId, link.fileId)
  }

  /** The cycle test refuses a move exactly when the new parent lies in the moved directory's subtree. */
  ghost predicate ClosesCycle(dirs: map<Id, Directory>, id: Id, parent: Option<Id>) {
    parent.Some? && Below(ParentsOf(dirs), parent.value, id)
  }

  /** The step takes effect; otherwise the operation reports failure and changes nothing. */
  ghost predicate Accepted(t: Tables, s: Step) {
    match s
    case CreateDirectory(id, row) => id !in t.dirs && DirectoryCommits(t.bases, t.dirs, id, row)
    case RenameDirectory(id, name, now) =>
      id in t.dirs && DirectoryCommits(t.bases, t.dirs, id, t.dirs[id].(name := name))
    case MoveDirectory(id, parent, now) =>
      id in t.dirs && !ClosesCycle(t.dirs, id, parent)
      && DirectoryCommits(t.bases, t.dirs, id, t.dirs[id].(parentId := parent))
    case DeleteDirectory(id, moveFiles) => id in t.dirs
    case AddFile(linkId, link) => LinkCommits(t, linkId, link)
    case MoveFile(kb, file, d, now) => HasFile(t.links, kb, file) ==> DirectoryExists(t.dirs, d)
  }

  /** The directory the step names is there; the row it creates is not. */
  predicate Named(t: Tables, s: Step) {
    match s
    case CreateDirectory(id, _) => id !in t.dirs
    case AddFile(linkId, _) => linkId !in t.links
    case MoveFile(_, _, _, _) => true
    case _ => s.id in t.dirs
  }

  /** What the step writes. */
  ghost function Written(t: Tables, s: Step): Tables
    requires Named(t, s)
  {
    match s
    case CreateDirectory(id, row) => t.(dirs := t.dirs[id := row])
    case RenameDirectory(id, name, now) => t.(dirs := t.dirs[id := t.dirs[id].(name := name, updatedAt := now)])
    case MoveDirectory(id, parent, now) =>
      t.(dirs := t.dirs[id := t.dirs[id].(parentId := parent, updatedAt := now)])
    case DeleteDirectory(id, moveFiles) =>
      var gone := Subtree(ParentsOf(t.dirs), id);
      t.(dirs := t.dirs - gone,
         links := Evicted(t.links, gone, moveFiles, t.dirs[id].parentId))
    case AddFile(linkId, link) => t.(links := t.links[linkId := link])
    case MoveFile(kb, file, d, now) => t.(links := Relocate(t.links, kb, file, d, now))
  }

  ghost function Apply(t: Tables, s: Step): Tables {
    if Accepted(t, s) then Written(t, s) else t
  }

  // ---------- every run keeps the tables valid ----------

  lemma DeleteKeepsDirectories(bases: set<string>, dirs: map<Id, Directory>, id: Id)
    requires DirectoriesValid(bases, dirs) && id in dirs
    ensures DirectoriesValid(bases, dirs - Subtree(ParentsOf(dirs), id))
    ensures DirectoryExists(dirs - Subtree(ParentsOf(dirs), id), dirs[id].parentId)
  {
    var p := ParentsOf(dirs);
    var dirs' := dirs - Subtree(p, id);
    if p[id].Some? { ParentNotBelow(p, id); }
    SubgraphAcyclic(p, ParentsOf(dirs'));
    forall d | d in dirs' && dirs'[d].parentId.Some?
      ensures dirs'[d].parentId.value in dirs'
    {
      BelowStep(p, d, id);
    }
  }

  lemma DeleteKeepsValid(t: Tables, id: Id, moveFiles: bool)
    requires Valid(t) && id in t.dirs
    ensures Valid(Apply(t, DeleteDirectory(id, moveFiles)))
    ensures DirectoryExists(Apply(t, DeleteDirectory(id, moveFiles)).dirs, t.dirs[id].parentId)
  {
    DeleteKeepsDirectories(t.bases, t.dirs, id);
  }

  lemma MovedParents(t: Tables, s: Step)
    requires Valid(t) && s.MoveDirectory? && Accepted(t, s)
    ensures CanRelink(ParentsOf(t.dirs), s.id, s.parent)
    ensures ParentsOf(Apply(t, s).dirs) == ParentsOf(t.dirs)[s.id := s.parent]
  {
    BelowSelf(ParentsOf(t.dirs), s.id);
  }

  lemma MoveKeepsValid(t: Tables, s: Step)
    requires Valid(t) && s.MoveDirectory? && Accepted(t, s)
    ensures Valid(Apply(t, s))
  {
    MovedParents(t, s);
    RelinkIsForest(ParentsOf(t.dirs), s.id, s.parent);
  }

  lemma CreateKeepsValid(t: Tables, s: Step)
    requires Valid(t) && s.CreateDirectory? && Minted(s) && Accepted(t, s)
    ensures Valid(Apply(t, s))
  {
    var p := ParentsOf(t.dirs);
    AddLeafAcyclic(p, s.id, s.row.parentId);
    assert ParentsOf(Apply(t, s).dirs) == p[s.id := s.row.parentId];
  }

  lemma StepKeepsValid(t: Tables, s: Step)
    requires Valid(t) && Minted(s)
    ensures Valid(Apply(t, s))
  {
    if Accepted(t, s) {
      match s
      case CreateDirectory(_, _) => CreateKeepsValid(t, s);
      case RenameDirectory(_, _, _) => assert ParentsOf(Apply(t, s).dirs) == ParentsOf(t.dirs);
      case MoveDirectory(_, _, _) => MoveKeepsValid(t, s);
      case DeleteDirectory(id, moveFiles) => DeleteKeepsValid(t, id, moveFiles);
      case AddFile(_, _) =>
      case MoveFile(_, _, _, _) =>
    }
  }

  ghost function Run(t: Tables, steps: seq<Step>): Tables
    decreases |steps|
  {
    if steps == [] then t else Run(Apply(t, steps[0]), steps[1..])
  }

  /** Any run of directory and file operations keeps the graph a forest and every reference resolved. */
  lemma {:induction false} RunKeepsValid(t: Tables, steps: seq<Step>)
    requires Valid(t)
    requires forall s :: s in steps ==> Minted(s)
    ensures Valid(Run(t, steps))
    decreases |steps|
  {
    if steps != [] {
      StepKeepsValid(t, steps[0]);
      RunKeepsValid(Apply(t, steps[0]), steps[1..]);
    }
  }

  // ---------- directories and files of one knowledge base ----------

  /** A place named by a row of base k is a directory of base k. */
  predicate InBase(dirs: map<Id, Directory>, k: string, place: Option<Id>) {
    place.Some? ==> place.value in dirs && dirs[place.value].knowledgeId == k
  }

  /** Every parent and every file's directory lies in the row's own knowledge base. */
  ghost predicate Homed(t: Tables) {
    && (forall d :: d in t.dirs ==> InBase(t.dirs, t.dirs[d].knowledgeId, t.dirs[d].parentId))
    && (forall f :: f in t.links ==> InBase(t.dirs, t.links[f].knowledgeId, t.links[f].directoryId))
  }

  /** The place a step puts something, if it is accepted, lies in that thing's own base. */
  ghost predicate NamesOwnBase(t: Tables, s: Step) {
    Accepted(t, s) ==>
      match s
      case CreateDirectory(_, row) => InBase(t.dirs, row.knowledgeId, row.parentId)
      case MoveDirectory(id, parent, _) => InBase(t.dirs, t.dirs[id].knowledgeId, parent)
      case AddFile(_, link) => InBase(t.dirs, link.knowledgeId, link.directoryId)
      case MoveFile(kb, file, d, _) => HasFile(t.links, kb, file) ==> InBase(t.dirs, kb, d)
      case _ => true
  }

  lemma {:induction false} SubtreeInOneBase(t: Tables, x: Id, id: Id, n: nat)
    requires Homed(t) && x in t.dirs && Up(ParentsOf(t.dirs), x, n) == Some(id)
    ensures id in t.dirs && t.dirs[id].knowledgeId == t.dirs[x].knowledgeId
    decreases n
  {
    if n > 0 {
      assert InBase(t.dirs, t.dirs[x].knowledgeId, t.dirs[x].parentId);
      SubtreeInOneBase(t, t.dirs[x].parentId.value, id, n - 1);
    }
  }

  lemma DeleteStaysHomed(t: Tables, id: Id, moveFiles: bool)
    requires Valid(t) && Homed(t) && id in t.dirs
    ensures Homed(Apply(t, DeleteDirectory(id, moveFiles)))
  {
    var t', gone := Apply(t, DeleteDirectory(id, moveFiles)), Subtree(ParentsOf(t.dirs), id);
    DeleteKeepsValid(t, id, moveFiles);
    forall f | f in t'.links
      ensures InBase(t'.dirs, t'.links[f].knowledgeId, t'.links[f].directoryId)
    {
      assert InBase(t.dirs, t.links[f].knowledgeId, t.links[f].directoryId);
      assert InBase(t.dirs, t.dirs[id].knowledgeId, t.dirs[id].parentId);
      if InDirectory(t.links[f], gone) {
        var x := t.links[f].directoryId.value;
        var n: nat :| Up(ParentsOf(t.dirs), x, n) == Some(id);
        SubtreeInOneBase(t, x, id, n);
      }
    }
    forall d | d in t'.dirs
      ensures InBase(t'.dirs, t'.dirs[d].knowledgeId, t'.dirs[d].parentId)
    {
      assert InBase(t.dirs, t.dirs[d].knowledgeId, t.dirs[d].parentId);
      assert ParentsOf(t'.dirs)[d] == t.dirs[d].parentId;
    }
  }

  /** Changing one directory's parent or adding one moves nobody else to another base. */
  lemma PlacedIsHomedIff(t: Tables, id: Id, row: Directory)
    requires Homed(t) && row.parentId != Some(id) && (id in t.dirs ==> row.knowledgeId == t.dirs[id].knowledgeId)
    ensures Homed(t.(dirs := t.dirs[id := row])) <==> InBase(t.dirs, row.knowledgeId, row.parentId)
  {
    var t' := t.(dirs := t.dirs[id := row]);
    assert InBase(t'.dirs, row.knowledgeId, row.parentId) <==> InBase(t.dirs, row.knowledgeId, row.parentId);
    if InBase(t.dirs, row.knowledgeId, row.parentId) {
      forall d | d in t'.dirs
        ensures InBase(t'.dirs, t'.dirs[d].knowledgeId, t'.dirs[d].parentId)
      {
        if d != id { assert InBase(t.dirs, t.dirs[d].knowledgeId, t.dirs[d].parentId); }
      }
      forall f | f in t'.links
        ensures InBase(t'.dirs, t'.links[f].knowledgeId, t'.links[f].directoryId)
      {
        assert InBase(t.dirs, t.links[f].knowledgeId, t.links[f].directoryId);
      }
    } else {
      assert !InBase(t'.dirs, t'.dirs[id].knowledgeId, t'.dirs[id].parentId);
    }
  }

  lemma FilesAreHomedIff(t: Tables, s: Step)
    requires Homed(t) && (s.AddFile? || s.MoveFile?) && Accepted(t, s)
    ensures Homed(Apply(t, s)) <==> NamesOwnBase(t, s)
  {
    var t' := Apply(t, s);
    forall d | d in t'.dirs
      ensures InBase(t'.dirs, t'.dirs[d].knowledgeId, t'.dirs[d].parentId)
    {
      assert InBase(t.dirs, t.dirs[d].knowledgeId, t.dirs[d].parentId);
    }
    if NamesOwnBase(t, s) {
      forall f | f in t'.links
        ensures InBase(t'.dirs, t'.links[f].knowledgeId, t'.links[f].directoryId)
      {
        if f in t.links { assert InBase(t.dirs, t.links[f].knowledgeId, t.links[f].directoryId); }
      }
    } else if s.AddFile? {
      assert !InBase(t'.dirs, t'.links[s.linkId].knowledgeId, t'.links[s.linkId].directoryId);
    } else {
      var f :| f in t.links && t.links[f].knowledgeId == s.knowledgeId && t.links[f].fileId == s.fileId;
      assert !InBase(t'.dirs, t'.links[f].knowledgeId, t'.links[f].directoryId);
    }
  }

  lemma ParentIsAnother(t: Tables, id: Id)
    requires Valid(t) && id in t.dirs
    ensures t.dirs[id].parentId != Some(id)
  {
    assert Up(ParentsOf(t.dirs), id, 1) == t.dirs[id].parentId;
  }

  lemma StepStaysHomedIff(t: Tables, s: Step)
    requires Valid(t) && Homed(t) && Minted(s)
    ensures Homed(Apply(t, s)) <==> NamesOwnBase(t, s)
  {
    if Accepted(t, s) {
      match s
      case CreateDirectory(id, row) => PlacedIsHomedIff(t, id, row);
      case RenameDirectory(id, name, now) =>
        assert InBase(t.dirs, t.dirs[id].knowledgeId, t.dirs[id].parentId);
        ParentIsAnother(t, id);
        PlacedIsHomedIff(t, id, t.dirs[id].(name := name, updatedAt := now));
      case MoveDirectory(id, parent, now) =>
        BelowSelf(ParentsOf(t.dirs), id);
        PlacedIsHomedIff(t, id, t.dirs[id].(parentId := parent, updatedAt := now));
      case DeleteDirectory(id, moveFiles) => DeleteStaysHomed(t, id, moveFiles);
      case _ => FilesAreHomedIff(t, s);
    }
  }

  ghost predicate AlwaysHomed(t: Tables, steps: seq<Step>)
    decreases |steps|
  {
    Homed(t) && (steps != [] ==> AlwaysHomed(Apply(t, steps[0]), steps[1..]))
  }

  ghost predicate AlwaysOwnBase(t: Tables, steps: seq<Step>)
    decreases |steps|
  {
    steps != [] ==> NamesOwnBase(t, steps[0]) && AlwaysOwnBase(Apply(t, steps[0]), steps[1..])
  }

  /**
   Over any run, every parent and every file's directory stays in its own knowledge base exactly as long
   as every accepted create, move and add names a place of that base. The tables' constraints do not ask for it.
   */
  lemma {:induction false} RunStaysHomedIff(t: Tables, steps: seq<Step>)
    requires Valid(t) && Homed(t) && forall s :: s in steps ==> Minted(s)
    ensures AlwaysHomed(t, steps) <==> AlwaysOwnBase(t, steps)
    decreases |steps|
  {
    if steps != [] {
      StepKeepsValid(t, steps[0]);
      StepStaysHomedIff(t, steps[0]);
      if NamesOwnBase(t, steps[0]) {
        RunStaysHomedIff(Apply(t, steps[0]), steps[1..]);
      } else {
        assert !Homed(Apply(t, steps[0]));
      }
    }
  }

  /** A directory of one base created under a directory of another is accepted. */
  lemma CreateCrossesBases()
    ensures var d := Directory("k1", None, "a", "u", 0, 0);
            var t := Tables({"k1", "k2"}, {}, map["d" := d], map[]);
            var s := CreateDirectory("e", Directory("k2", Some("d"), "b", "u", 0, 0));
            Valid(t) && Homed(t) && Minted(s) && Accepted(t, s) && !Homed(Apply(t, s))
  {
    var d := Directory("k1", None, "a", "u", 0, 0);
    var t := Tables({"k1", "k2"}, {}, map["d" := d], map[]);
    var none: Parents := map[];
    assert Acyclic(none);
    RootKeepsAcyclic(none, "d");
    assert ParentsOf(t.dirs) == none["d" := None];
    StepStaysHomedIff(t, CreateDirectory("e", Directory("k2", Some("d"), "b", "u", 0, 0)));
  }

  // ---------- what each step means ----------

  lemma RowCommits(bases: set<string>, dirs: map<Id, Directory>, id: Id, row: Directory)
    requires DirectoriesValid(bases, dirs[id := row])
    ensures DirectoryCommits(bases, dirs, id, row)
  {
    var dirs' := dirs[id := row];
    assert ParentsOf(dirs')[id] == row.parentId;
    forall b | b in dirs && b != id
      ensures !SameSlot(row, dirs[b])
    {
      assert dirs'[id] == row && dirs'[b] == dirs[b];
    }
  }

  /** The cycle test is exact: it refuses precisely the moves that would leave the tables no forest. */
  lemma CycleTestIsExact(t: Tables, id: Id, parent: Option<Id>)
    requires Valid(t) && id in t.dirs && DirectoryExists(t.dirs, parent)
    ensures ClosesCycle(t.dirs, id, parent)
       <==> !IsForest(ParentsOf(t.dirs)[id := parent])
  {
    var p := ParentsOf(t.dirs);
    if parent.Some? {
      RelinkAcyclicIff(p, id, parent.value);
    } else {
      RootKeepsAcyclic(p, id);
    }
  }

  lemma ValidMoveAccepted(t: Tables, s: Step)
    requires Valid(t) && s.MoveDirectory? && Named(t, s) && Valid(Written(t, s))
    ensures Accepted(t, s)
  {
    RowCommits(t.bases, t.dirs, s.id, t.dirs[s.id].(parentId := s.parent, updatedAt := s.now));
    assert ParentsOf(Written(t, s).dirs) == ParentsOf(t.dirs)[s.id := s.parent];
    BelowSelf(ParentsOf(t.dirs), s.id);
    CycleTestIsExact(t, s.id, s.parent);
  }

  lemma ValidLinksAccepted(t: Tables, s: Step)
    requires (s.AddFile? || s.MoveFile?) && Named(t, s) && LinksValid(Written(t, s))
    ensures Accepted(t, s)
  {
    var links' := Written(t, s).links;
    if s.AddFile? {
      assert links'[s.linkId] == s.link;
      forall f | f in t.links
        ensures t.links[f].knowledgeId != s.link.knowledgeId || t.links[f].fileId != s.link.fileId
      {
        assert links'[f] == t.links[f];
      }
    } else {
      forall f | f in t.links && t.links[f].knowledgeId == s.knowledgeId && t.links[f].fileId == s.fileId
        ensures DirectoryExists(t.dirs, s.directory)
      {
        assert links'[f].directoryId == s.directory;
      }
    }
  }

  /** A step is refused exactly when it names no such row or what it writes would break the tables. */
  lemma AcceptedIff(t: Tables, s: Step)
    requires Valid(t) && Minted(s)
    ensures Accepted(t, s) <==> Named(t, s) && Valid(Written(t, s))
  {
    StepKeepsValid(t, s);
    if Named(t, s) && Valid(Written(t, s)) {
      match s
      case CreateDirectory(id, row) => RowCommits(t.bases, t.dirs, id, row);
      case RenameDirectory(id, name, now) =>
        RowCommits(t.bases, t.dirs, id, t.dirs[id].(name := name, updatedAt := now));
      case MoveDirectory(id, parent, now) => ValidMoveAccepted(t, s);
      case DeleteDirectory(_, _) =>
      case _ => ValidLinksAccepted(t, s);
    }
  }

  /** An accepted create, rename or move of a directory writes that one row, and of it only what it names. */
  lemma DirectoryStepMeans(t: Tables, s: Step)
    requires Accepted(t, s) && (s.CreateDirectory? || s.RenameDirectory? || s.MoveDirectory?)
    ensures var t' := Apply(t, s);
            && (t'.bases, t'.stored, t'.links) == (t.bases, t.stored, t.links)
            && t'.dirs.Keys == t.dirs.Keys + {s.id}
            && (forall d :: d in t.dirs && d != s.id ==> t'.dirs[d] == t.dirs[d])
            && (s.id !in t.dirs ==> t'.dirs[s.id] == s.row)
            && (s.id in t.dirs ==>
                  var was := t.dirs[s.id];
                  t'.dirs[s.id] == Directory(was.knowledgeId, if s.MoveDirectory? then s.parent else was.parentId,
                                             if s.RenameDirectory? then s.name else was.name,
                                             was.userId, was.createdAt, s.now))
  {
  }

  /** An accepted add writes one new link. */
  lemma AddFileMeans(t: Tables, s: Step)
    requires Accepted(t, s) && s.AddFile?
    ensures Apply(t, s) == Tables(t.bases, t.stored, t.dirs, Apply(t, s).links)
    ensures Apply(t, s).links.Keys == t.links.Keys + {s.linkId} && s.linkId !in t.links
    ensures Apply(t, s).links[s.linkId] == s.link
    ensures forall f :: f in t.links ==> Apply(t, s).links[f] == t.links[f]
  {
  }

  /** An accepted move of a file gives its link, which is the only one, the directory; nothing else changes. */
  lemma MoveFileMeans(t: Tables, s: Step)
    requires Valid(t) && Accepted(t, s) && s.MoveFile?
    ensures Apply(t, s) == Tables(t.bases, t.stored, t.dirs, Apply(t, s).links)
    ensures Apply(t, s).links.Keys == t.links.Keys
    ensures forall f :: f in t.links && t.links[f].knowledgeId == s.knowledgeId && t.links[f].fileId == s.fileId ==>
              && Apply(t, s).links[f]
              == FileLink(s.knowledgeId, s.fileId, s.directory, t.links[f].userId, t.links[f].createdAt, s.now)
              && (forall g :: g in t.links && g != f ==> Apply(t, s).links[g] == t.links[g])
    ensures forall f :: f in t.links && (t.links[f].knowledgeId != s.knowledgeId || t.links[f].fileId != s.fileId) ==>
              Apply(t, s).links[f] == t.links[f]
  {
  }

  /** Deleting with move_files_to_parent removes exactly the subtree and re-homes exactly its files. */
  lemma DeleteRehomes(t: Tables, id: Id)
    requires Valid(t) && id in t.dirs
    ensures var t' := Apply(t, DeleteDirectory(id, true));
            && (forall d :: d in t'.dirs <==> d in t.dirs && !Below(ParentsOf(t.dirs), d, id))
            && (forall d :: d in t'.dirs ==> t'.dirs[d] == t.dirs[d])
            && t'.links.Keys == t.links.Keys
            && DirectoryExists(t'.dirs, t.dirs[id].parentId)
            && (forall f :: f in t.links ==>
                  t'.links[f] == if t.links[f].directoryId.Some? && t.links[f].directoryId.value !in t'.dirs
                                 then t.links[f].(directoryId := t.dirs[id].parentId) else t.links[f])
  {
    DeleteKeepsValid(t, id, true);
  }

  /** Deleting without it removes exactly the files whose directory is gone, and touches no other. */
  lemma DeleteDrops(t: Tables, id: Id)
    requires Valid(t) && id in t.dirs
    ensures var t' := Apply(t, DeleteDirectory(id, false));
            && t'.dirs == Apply(t, DeleteDirectory(id, true)).dirs
            && (forall f :: f in t'.links <==> f in t.links && DirectoryExists(t'.dirs, t.links[f].directoryId))
            && (forall f :: f in t'.links ==> t'.links[f] == t.links[f])
  {
  }

  /** Surviving directories keep their breadcrumbs. */
  lemma DeleteKeepsBreadcrumbs(t: Tables, id: Id, moveFiles: bool, x: Id)
    requires Valid(t) && id in t.dirs
    requires x in Apply(t, DeleteDirectory(id, moveFiles)).dirs
    ensures IsForest(ParentsOf(Apply(t, DeleteDirectory(id, moveFiles)).dirs))
    ensures RootPath(ParentsOf(Apply(t, DeleteDirectory(id, moveFiles)).dirs), x)
         == RootPath(ParentsOf(t.dirs), x)
  {
    var p := ParentsOf(t.dirs);
    DeleteKeepsValid(t, id, moveFiles);
    forall a | a in Ancestors(p, x)
      ensures a !in Subtree(p, id)
    {
      if Below(p, a, id) { BelowTransitive(p, x, a, id); }
    }
    RootPathFrame(p, ParentsOf(Apply(t, DeleteDirectory(id, moveFiles)).dirs), x);
  }

  /**
   An accepted move rewrites the breadcrumbs of exactly the moved subtree: the new parent's path,
   then the old path from the moved directory down. Every other path is unchanged.
   */
  lemma MoveRewritesBreadcrumbs(t: Tables, s: Step, x: Id)
    requires Valid(t) && s.MoveDirectory? && Accepted(t, s) && x in t.dirs
    ensures IsForest(ParentsOf(Apply(t, s).dirs))
    ensures var p, q := ParentsOf(t.dirs), ParentsOf(Apply(t, s).dirs);
            if Below(p, x, s.id) then
              Moves(RootPath(q, x), if s.parent.Some? then RootPath(p, s.parent.value) else [],
                    RootPath(p, x), RootPath(p, s.id))
            else RootPath(q, x) == RootPath(p, x)
  {
    var p := ParentsOf(t.dirs);
    MovedParents(t, s);
    RelinkIsForest(p, s.id, s.parent);
    if Below(p, x, s.id) {
      RelinkPathInside(p, s.id, s.parent, x);
    } else {
      RelinkPathOutside(p, s.id, s.parent, x);
    }
  }

  // ---------- the methods ----------

  lemma RehomeTwice(links: map<string, FileLink>, s: set<Id>, r: set<Id>, target: Option<Id>)
    ensures Rehome(Rehome(links, s, target), r, target) == Rehome(links, s + r, target)
  {
  }

  lemma DropTwice(links: map<string, FileLink>, s: set<Id>, r: set<Id>)
    ensures DropFiles(DropFiles(links, s), r) == DropFiles(links, s + r)
  {
  }

  /** Acyclicity puts the new home outside the subtree, so the foreign key's SET NULL finds no file. */
  lemma NothingLeftToNull(t: Tables, id: Id, moveFiles: bool)
    requires Valid(t) && id in t.dirs
    ensures var gone := Subtree(ParentsOf(t.dirs), id);
            var links := Evicted(t.links, gone, moveFiles, t.dirs[id].parentId);
            Rehome(links, gone, None) == links
  {
    var p := ParentsOf(t.dirs);
    if p[id].Some? { ParentNotBelow(p, id); }
  }

  /** Everything below a node that is gone, in a graph with no dangling parents, is gone. */
  lemma {:induction false} NothingLeftBelow(p: Parents, left: set<Id>, id: Id, d: Id, n: nat)
    requires id !in left
    requires forall c :: c in left && c in p && p[c].Some? ==> p[c].value in left
    requires d in p && Up(p, d, n) == Some(id)
    ensures d !in left
    decreases n
  {
    if n > 0 && d in left {
      if p[d].value in p {
        NothingLeftBelow(p, left, id, p[d].value, n - 1);
      }
    }
  }

  lemma ChildrenAreRest(p: Parents, id: Id)
    requires Acyclic(p) && id in p
    ensures SubtreesOf(p, Children(p, id)) == Subtree(p, id) - {id}
  {
    SubtreeIsRootAndChildren(p, id);
    forall c | c in Children(p, id)
      ensures !Below(p, id, c)
    {
      ParentNotBelow(p, c);
    }
  }

  function Backwards(s: seq<Id>): (r: seq<Id>)
    ensures |r| == |s|
    ensures forall i :: 0 <= i < |s| ==> r[i] == s[|s| - 1 - i]
  {
    seq(|s|, i requires 0 <= i < |s| => s[|s| - 1 - i])
  }

  lemma BackwardsTwice(s: seq<Id>)
    ensures Backwards(Backwards(s)) == s
  {
  }

  /** `ids` are the first nodes of the walk up from start, all existing and all different. */
  ghost predicate WalkedUp(p: Parents, start: Id, ids: seq<Id>) {
    && (forall i :: 0 <= i < |ids| ==> Up(p, start, i) == Some(ids[i]) && ids[i] in p)
    && (forall i, j :: 0 <= i < j < |ids| ==> ids[i] != ids[j])
  }

  lemma NextExists(p: Parents, start: Id, ids: seq<Id>)
    requires Closed(p) && start in p
    requires WalkedUp(p, start, ids) && Up(p, start, |ids|).Some?
    ensures Up(p, start, |ids|).value in p
  {
    if |ids| > 0 {
      UpAdd(p, start, |ids| - 1, 1);
      assert Up(p, ids[|ids| - 1], 1) == p[ids[|ids| - 1]];
    }
  }

  /** In a forest the walk stops only at a root, so it has collected the whole path. */
  lemma ForestWalkEnds(p: Parents, start: Id, ids: seq<Id>, next: Option<Id>)
    requires IsForest(p) && start in p
    requires WalkedUp(p, start, ids) && next == Up(p, start, |ids|)
    requires next.Some? ==> next.value !in p || next.value in ids
    ensures Backwards(ids) == RootPath(p, start)
  {
    if next.Some? {
      NextExists(p, start, ids);
      var i :| 0 <= i < |ids| && ids[i] == next.value;
      AcyclicWalkDistinct(p, start, i, |ids|);
    } else {
      var k := |ids| - 1;
      EndedWalkIsRootPath(p, start, k);
      forall i | 0 <= i <= k
        ensures Backwards(ids)[i] == RootPath(p, start)[i]
      {
        assert Up(p, start, k - i) == Some(ids[k - i]);
      }
    }
  }

  class KnowledgeTable {
    var bases: set<string>
    var stored: set<string>
    var dirs: map<Id, Directory>
    var links: map<string, FileLink>

    ghost function State(): Tables
      reads this
    {
      Tables(bases, stored, dirs, links)
    }

    constructor (bases: set<string>, stored: set<string>)
      ensures State() == Tables(bases, stored, map[], map[]) && Valid(State())
    {
      this.bases, this.stored, dirs, links := bases, stored, map[], map[];
    }

    method CreateDirectory(id: Id, knowledgeId: string, name: string, userId: string, parentId: Option<Id>, now: int)
      returns (r: Option<Directory>)
      requires Valid(State()) && id != "" && id !in dirs && parentId != Some(id)
      modifies this`dirs
      ensures var s := Step.CreateDirectory(id, Directory(knowledgeId, parentId, name, userId, now, now));
              && State() == Apply(old(State()), s)
              && r == (if old(Accepted(State(), s)) then Some(s.row) else None)
      ensures Valid(State())
    {
      var row := Directory(knowledgeId, parentId, name, userId, now, now);
      ghost var s := Step.CreateDirectory(id, row);
      StepKeepsValid(State(), s);
      if !DirectoryCommits(bases, dirs, id, row) { return None; }
      dirs := dirs[id := row];
      return Some(row);
    }

    /** The ids of the rows met walking up the parent chain, root first; `seen` makes it end on any graph. */
    method GetDirectoryBreadcrumbs(directoryId: Option<Id>) returns (crumbs: seq<Id>)
      ensures directoryId.None? || directoryId.value == "" ==> crumbs == []
      ensures directoryId.Some? && directoryId.value != "" ==>
                WalkedUp(ParentsOf(dirs), directoryId.value, Backwards(crumbs))
      ensures Valid(State()) && directoryId.Some? && directoryId.value in dirs ==>
                crumbs == RootPath(ParentsOf(dirs), directoryId.value)
    {
      if directoryId.None? || directoryId.value == "" { return []; }
      ghost var p := ParentsOf(dirs);
      ghost var start := directoryId.value;
      crumbs := [];
      var current := directoryId;
      var seen := {};
      while current.Some? && current.value != "" && current.value !in seen
        invariant current == Up(p, start, |crumbs|)
        invariant WalkedUp(p, start, crumbs)
        invariant seen == set c | c in crumbs
        decreases dirs.Keys - seen
      {
        if current.value !in dirs { break; }
        UpAdd(p, start, |crumbs|, 1);
        assert Up(p, current.value, 1) == p[current.value];
        crumbs := crumbs + [current.value];
        seen := seen + {current.value};
        current := dirs[current.value].parentId;
      }
      if Valid(State()) && start in dirs {
        ForestWalkEnds(p, start, crumbs, current);
      }
      BackwardsTwice(crumbs);
      crumbs := Backwards(crumbs);
    }

    /** The source's cycle test: walk up from the new parent, looking for the moved directory. */
    method MeetsOnTheWayUp(directoryId: Id, from: Id) returns (met: bool)
      requires "" !in dirs && directoryId != ""
      ensures met <==> Below(ParentsOf(dirs), from, directoryId)
    {
      ghost var p := ParentsOf(dirs);
      ghost var k: nat := 0;
      var current: Option<Id> := Some(from);
      var seen := {};
      while current.Some? && current.value != "" && current.value !in seen
        invariant current == Up(p, from, k)
        invariant forall i: nat :: i < k ==> Up(p, from, i) != Some(directoryId)
        invariant forall c :: c in seen ==> exists i: nat :: i < k && Up(p, from, i) == Some(c)
        decreases dirs.Keys - seen, if current.Some? && current.value !in dirs then 1 else 0
      {
        if current.value == directoryId { return true; }
        UpAdd(p, from, k, 1);
        assert Up(p, from, k) == current;
        seen := seen + {current.value};
        current := if current.value in dirs then dirs[current.value].parentId else None;
        k := k + 1;
      }
      if current == Some("") {
        UpAdd(p, from, k, 1);
        k := k + 1;
      }
      WalkExhausted(p, from, k, directoryId);
      return false;
    }

    method RenameDirectory(id: Id, name: string, now: int) returns (r: Option<Directory>)
      requires Valid(State())
      modifies this`dirs
      ensures State() == Apply(old(State()), Step.RenameDirectory(id, name, now)) && Valid(State())
      ensures r == (if old(Accepted(State(), Step.RenameDirectory(id, name, now))) then Some(dirs[id]) else None)
    {
      StepKeepsValid(State(), Step.RenameDirectory(id, name, now));
      if id !in dirs || !DirectoryCommits(bases, dirs, id, dirs[id].(name := name)) { return None; }
      dirs := dirs[id := dirs[id].(name := name, updatedAt := now)];
      r := Some(dirs[id]);
    }

    method MoveDirectory(id: Id, newParentId: Option<Id>, now: int) returns (r: Option<Directory>)
      requires Valid(State())
      modifies this`dirs
      ensures State() == Apply(old(State()), Step.MoveDirectory(id, newParentId, now)) && Valid(State())
      ensures r == (if old(Accepted(State(), Step.MoveDirectory(id, newParentId, now))) then Some(dirs[id]) else None)
    {
      StepKeepsValid(State(), Step.MoveDirectory(id, newParentId, now));
      if newParentId.Some? && newParentId.value != "" && id != "" {
        var met := MeetsOnTheWayUp(id, newParentId.value);
        if met { return None; }
      }
      if id !in dirs { return None; }  // the UPDATE matches no row
      if !DirectoryCommits(bases, dirs, id, dirs[id].(parentId := newParentId)) { return None; }
      dirs := dirs[id := dirs[id].(parentId := newParentId, updatedAt := now)];
      r := Some(dirs[id]);
    }

    /** SELECT id ... WHERE parent_id = directoryId, in whatever order the database returns the rows. */
    method ChildIds(directoryId: Id) returns (ids: seq<Id>)
      ensures (set c | c in ids) == Children(ParentsOf(dirs), directoryId)
    {
      var left := set c | c in dirs && dirs[c].parentId == Some(directoryId);
      ids := [];
      while left != {}
        invariant (set c | c in ids) + left == Children(ParentsOf(dirs), directoryId)
        decreases left
      {
        var c :| c in left;
        left := left - {c};
        ids := ids + [c];
      }
    }

    method MoveFilesFromSubtree(directoryId: Id, target: Option<Id>)
      requires Acyclic(ParentsOf(dirs)) && directoryId in dirs
      modifies this`links
      ensures links == Rehome(old(links), Subtree(ParentsOf(dirs), directoryId) - {directoryId}, target)
      decreases Subtree(ParentsOf(dirs), directoryId)
    {
      ghost var p := ParentsOf(dirs);
      var ids := ChildIds(directoryId);
      ghost var done := {};
      for i := 0 to |ids|
        invariant done == set c | c in ids[..i]
        invariant links == Rehome(old(links), SubtreesOf(p, done), target)
      {
        var c := ids[i];
        assert c in Children(p, directoryId);
        ChildSubtreeShrinks(p, directoryId, c);
        BelowSelf(p, c);
        RehomeTwice(old(links), SubtreesOf(p, done), {c}, target);
        RehomeTwice(old(links), SubtreesOf(p, done) + {c}, Subtree(p, c) - {c}, target);
        assert SubtreesOf(p, done) + {c} + (Subtree(p, c) - {c}) == SubtreesOf(p, done) + Subtree(p, c);
        SubtreesOfAdd(p, done, c);
        links := Rehome(links, {c}, target);
        MoveFilesFromSubtree(c, target);
        assert ids[..i + 1] == ids[..i] + [c];
        done := done + {c};
      }
      assert ids[..|ids|] == ids;
      ChildrenAreRest(p, directoryId);
    }

    method DeleteFilesInSubtree(directoryId: Id)
      requires Acyclic(ParentsOf(dirs)) && directoryId in dirs
      modifies this`links
      ensures links == DropFiles(old(links), Subtree(ParentsOf(dirs), directoryId))
      decreases Subtree(ParentsOf(dirs), directoryId)
    {
      ghost var p := ParentsOf(dirs);
      links := DropFiles(links, {directoryId});
      var ids := ChildIds(directoryId);
      ghost var done := {};
      for i := 0 to |ids|
        invariant done == set c | c in ids[..i]
        invariant links == DropFiles(old(links), {directoryId} + SubtreesOf(p, done))
      {
        var c := ids[i];
        assert c in Children(p, directoryId);
        ChildSubtreeShrinks(p, directoryId, c);
        DropTwice(old(links), {directoryId} + SubtreesOf(p, done), Subtree(p, c));
        SubtreesOfAdd(p, done, c);
        assert {directoryId} + SubtreesOf(p, done) + Subtree(p, c) == {directoryId} + SubtreesOf(p, done + {c});
        DeleteFilesInSubtree(c);
        assert ids[..i + 1] == ids[..i] + [c];
        done := done + {c};
      }
      assert ids[..|ids|] == ids;
      SubtreeIsRootAndChildren(p, directoryId);
    }

    /**
     DELETE of one directory row under the declared foreign keys: rows whose parent has gone go too
     (CASCADE), and files left pointing at a deleted row get a NULL directory (SET NULL).
     */
    method DeleteRowCascading(id: Id)
      requires Closed(ParentsOf(dirs)) && id in dirs
      modifies this`dirs, this`links
      ensures dirs == old(dirs) - Subtree(ParentsOf(old(dirs)), id)
      ensures links == Rehome(old(links), Subtree(ParentsOf(old(dirs)), id), None)
    {
      ghost var p := ParentsOf(dirs);
      ghost var all := dirs;
      var gone := {id};
      dirs := dirs - {id};
      BelowSelf(p, id);
      var orphans := set c | c in dirs && dirs[c].parentId.Some? && dirs[c].parentId.value !in dirs;
      while orphans != {}
        invariant dirs == all - gone && id in gone && gone <= Subtree(p, id) && links == old(links)
        invariant orphans == set c | c in dirs && dirs[c].parentId.Some? && dirs[c].parentId.value !in dirs
        decreases dirs.Keys
      {
        forall c | c in orphans
          ensures c in Subtree(p, id)
        {
          BelowStep(p, c, id);
        }
        gone := gone + orphans;
        dirs := dirs - orphans;
        orphans := set c | c in dirs && dirs[c].parentId.Some? && dirs[c].parentId.value !in dirs;
      }
      forall d | d in Subtree(p, id)
        ensures d in gone
      {
        var n: nat :| Up(p, d, n) == Some(id);
        NothingLeftBelow(p, dirs.Keys, id, d, n);
      }
      assert gone == Subtree(p, id);
      links := Rehome(links, gone, None);
    }

    method EvictFiles(id: Id, moveFilesToParent: bool)
      requires Acyclic(ParentsOf(dirs)) && id in dirs
      modifies this`links
      ensures links == Evicted(old(links), Subtree(ParentsOf(dirs), id), moveFilesToParent, dirs[id].parentId)
    {
      if moveFilesToParent {
        ghost var gone := Subtree(ParentsOf(dirs), id);
        var target := dirs[id].parentId;
        links := Rehome(links, {id}, target);
        MoveFilesFromSubtree(id, target);
        RehomeTwice(old(links), {id}, gone - {id}, target);
        BelowSelf(ParentsOf(dirs), id);
        assert {id} + (gone - {id}) == gone;
      } else {
        DeleteFilesInSubtree(id);
      }
    }

    method DeleteDirectory(id: Id, moveFilesToParent: bool) returns (deleted: bool)
      requires Valid(State())
      modifies this`dirs, this`links
      ensures State() == Apply(old(State()), Step.DeleteDirectory(id, moveFilesToParent)) && Valid(State())
      ensures deleted <==> id in old(dirs)
    {
      StepKeepsValid(State(), Step.DeleteDirectory(id, moveFilesToParent));
      if id !in dirs { return false; }
      NothingLeftToNull(State(), id, moveFilesToParent);
      EvictFiles(id, moveFilesToParent);
      DeleteRowCascading(id);
      return true;
    }

    method AddFileToKnowledge(linkId: string, knowledgeId: string, fileId: string, userId: string,
                              directoryId: Option<Id>, now: int)
      returns (r: Option<FileLink>)
      requires Valid(State())
      modifies this`links
      ensures var s := Step.AddFile(linkId, FileLink(knowledgeId, fileId, directoryId, userId, now, now));
              && State() == Apply(old(State()), s)
              && r == (if old(Accepted(State(), s)) then Some(s.link) else None)
      ensures Valid(State())
    {
      var link := FileLink(knowledgeId, fileId, directoryId, userId, now, now);
      StepKeepsValid(State(), Step.AddFile(linkId, link));
      if !LinkCommits(Tables(bases, stored, dirs, links), linkId, link) { return None; }
      links := links[linkId := link];
      return Some(link);
    }

    method MoveFileToDirectory(knowledgeId: string, fileId: string, directoryId: Option<Id>, now: int)
      returns (ok: bool)
      requires Valid(State())
      modifies this`links
      ensures State() == Apply(old(State()), Step.MoveFile(knowledgeId, fileId, directoryId, now)) && Valid(State())
      ensures ok == old(Accepted(State(), Step.MoveFile(knowledgeId, fileId, directoryId, now)))
    {
      StepKeepsValid(State(), Step.MoveFile(knowledgeId, fileId, directoryId, now));
      if HasFile(links, knowledgeId, fileId) && !DirectoryExists(dirs, directoryId) { return false; }
      links := Relocate(links, knowledgeId, fileId, directoryId, now);
      return true;
    }
  }
}
