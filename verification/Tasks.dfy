/**
 The registry of running tasks: the process-local dictionaries, and the hash and per-item sets kept
 in Redis. Creations, stops and cleanups (explicit or from done-callbacks) interleave freely.
 */
module Tasks {
  import opened Options
  import opened Seqs

  type TaskId = string

  type Item = Option<string>

  predicate Truthy(item: Item) {
    item.Some? && item.value != ""
  }

  // ---------- the local registry ----------

  /**
   `owner` and `cleaned` remember, for the statement only, which item each task was created for and
   which tasks have been cleaned up.
   */
  datatype Registry = Registry(tasks: set<TaskId>, itemTasks: map<Item, seq<TaskId>>,
                               owner: map<TaskId, Item>, cleaned: set<TaskId>)

  datatype Step =
    | Create(task: TaskId, item: Item)
    | Cleanup(task: TaskId)  // the callback passes the item the task was created with
    | Stop(task: TaskId)

  function ListOf(itemTasks: map<Item, seq<TaskId>>, item: Item): seq<TaskId> {
    if item in itemTasks then itemTasks[item] else []
  }

  function Without(s: seq<TaskId>, t: TaskId): seq<TaskId> {
    if s == [] then [] else if s[0] == t then s[1..] else [s[0]] + Without(s[1..], t)
  }

  function CleanedItems(itemTasks: map<Item, seq<TaskId>>, task: TaskId, item: Item): map<Item, seq<TaskId>> {
    if !(Truthy(item) && task in ListOf(itemTasks, item)) then itemTasks
    else
      var rest := Without(itemTasks[item], task);
      if rest == [] then itemTasks - {item} else itemTasks[item := rest]
  }

  ghost predicate Enabled(r: Registry, step: Step) {
    match step
    case Create(t, _) => t !in r.owner
    case Cleanup(t) => t in r.owner
    case Stop(t) => true
  }

  function Apply(r: Registry, step: Step): Registry {
    match step
    case Create(t, item) =>
      Registry(r.tasks + {t}, r.itemTasks[item := ListOf(r.itemTasks, item) + [t]], r.owner[t := item], r.cleaned)
    case Cleanup(t) =>
      if t !in r.owner then r
      else r.(tasks := r.tasks - {t}, itemTasks := CleanedItems(r.itemTasks, t, r.owner[t]), cleaned := r.cleaned + {t})
    case Stop(t) => r.(tasks := r.tasks - {t})
  }

  /** Lists are non-empty and repeat nothing; each holds exactly its item's tasks not yet cleaned up. */
  ghost predicate Valid(r: Registry) {
    && (forall k :: k in r.itemTasks ==> r.itemTasks[k] != [] && NoDup(r.itemTasks[k]))
    && (forall k, t :: k in r.itemTasks && t in r.itemTasks[k] ==> t in r.owner && r.owner[t] == k)
    && (forall t :: t in r.owner ==>
          (t in ListOf(r.itemTasks, r.owner[t]) <==> t !in r.cleaned || !Truthy(r.owner[t])))
    && (forall t :: t in r.tasks ==> t in r.owner && t !in r.cleaned)
    && r.cleaned <= r.owner.Keys
  }

  lemma {:induction false} WithoutElements(s: seq<TaskId>, t: TaskId)
    requires NoDup(s)
    ensures NoDup(Without(s, t))
    ensures forall x :: x in Without(s, t) <==> x in s && x != t
    decreases |s|
  {
    if s != [] {
      assert s == [s[0]] + s[1..];
      assert s[0] !in s[1..];
      if s[0] != t {
        WithoutElements(s[1..], t);
      }
    }
  }

  lemma CreateKeepsValid(r: Registry, t: TaskId, item: Item)
    requires Valid(r) && t !in r.owner
    ensures Valid(Apply(r, Create(t, item)))
  {
    var list := ListOf(r.itemTasks, item);
    var r' := Apply(r, Create(t, item));
    forall k, x | k in r'.itemTasks
      ensures x in r'.itemTasks[k] <==> x in ListOf(r.itemTasks, k) || (k == item && x == t)
    {
    }
    assert NoDup(list + [t]) by { assert t !in list; }
    forall x | x in r'.owner
      ensures x in ListOf(r'.itemTasks, r'.owner[x]) <==> x !in r'.cleaned || !Truthy(r'.owner[x])
    {
      if x != t { assert r'.owner[x] == r.owner[x]; }
    }
  }

  lemma CleanupKeepsValid(r: Registry, t: TaskId)
    requires Valid(r) && t in r.owner
    ensures Valid(Apply(r, Cleanup(t)))
  {
    var item := r.owner[t];
    var list := ListOf(r.itemTasks, item);
    if Truthy(item) && t in list {
      WithoutElements(list, t);
      var r' := Apply(r, Cleanup(t));
      forall x | x in r.owner
        ensures x in ListOf(r'.itemTasks, r.owner[x]) <==> x !in r'.cleaned || !Truthy(r.owner[x])
      {
        if r.owner[x] == item {
          assert x in ListOf(r'.itemTasks, item) <==> x in Without(list, t);
        }
      }
    }
  }

  lemma StepKeepsValid(r: Registry, step: Step)
    requires Valid(r) && Enabled(r, step)
    ensures Valid(Apply(r, step))
  {
    match step
    case Create(t, item) => CreateKeepsValid(r, t, item);
    case Cleanup(t) => CleanupKeepsValid(r, t);
    case Stop(_) =>
  }

  ghost predicate IsRun(r: Registry, steps: seq<Step>)
    decreases |steps|
  {
    steps != [] ==> Enabled(r, steps[0]) && IsRun(Apply(r, steps[0]), steps[1..])
  }

  function Reached(r: Registry, steps: seq<Step>): Registry
    decreases |steps|
  {
    if steps == [] then r else Reached(Apply(r, steps[0]), steps[1..])
  }

  const EMPTY: Registry := Registry({}, map[], map[], {})

  lemma {:induction false} RunKeepsValid(r: Registry, steps: seq<Step>)
    requires Valid(r) && IsRun(r, steps)
    ensures Valid(Reached(r, steps))
    decreases |steps|
  {
    if steps != [] {
      StepKeepsValid(r, steps[0]);
      RunKeepsValid(Apply(r, steps[0]), steps[1..]);
    }
  }

  predicate HasActiveTasks(r: Registry, item: Item) {
    |ListOf(r.itemTasks, item)| > 0
  }

  ghost predicate ListsDisjoint(r: Registry) {
    forall k, l, t :: k in r.itemTasks && l in r.itemTasks && t in r.itemTasks[k] && t in r.itemTasks[l] ==> k == l
  }

  ghost predicate ListsRegistered(r: Registry) {
    forall t :: t in r.tasks ==> t in r.owner && t in ListOf(r.itemTasks, r.owner[t])
  }

  /** Some task of the item has not been cleaned up; with no real item id, cleaning makes no difference. */
  ghost predicate Unfinished(r: Registry, item: Item) {
    exists t :: t in r.owner && r.owner[t] == item && (Truthy(item) ==> t !in r.cleaned)
  }

  lemma ValidMeans(r: Registry, item: Item)
    requires Valid(r)
    ensures ListsDisjoint(r) && ListsRegistered(r) && (HasActiveTasks(r, item) <==> Unfinished(r, item))
  {
    if HasActiveTasks(r, item) {
      var t := r.itemTasks[item][0];
      assert t in r.itemTasks[item] && t in ListOf(r.itemTasks, r.owner[t]);
    }
    forall k, l, t | k in r.itemTasks && l in r.itemTasks && t in r.itemTasks[k] && t in r.itemTasks[l]
      ensures k == l
    {
      assert r.owner[t] == k && r.owner[t] == l;
    }
    if Unfinished(r, item) {
      var t :| t in r.owner && r.owner[t] == item && (Truthy(item) ==> t !in r.cleaned);
      assert t in ListOf(r.itemTasks, r.owner[t]);
    }
  }

  ghost predicate Creates(step: Step, t: TaskId) {
    step.Create? && step.task == t
  }

  /** The step takes the task out of `tasks`. */
  ghost predicate Ends(step: Step, t: TaskId) {
    step == Cleanup(t) || step == Stop(t)
  }

  ghost predicate NeverEnds(steps: seq<Step>, t: TaskId) {
    forall j :: 0 <= j < |steps| ==> !Ends(steps[j], t)
  }

  ghost predicate CreatedAndRuns(steps: seq<Step>, t: TaskId) {
    exists i :: 0 <= i < |steps| && Creates(steps[i], t) && NeverEnds(steps[i + 1..], t)
  }

  lemma CreatedAndRunsTail(steps: seq<Step>, t: TaskId)
    requires steps != []
    ensures NeverEnds(steps, t) <==> !Ends(steps[0], t) && NeverEnds(steps[1..], t)
    ensures CreatedAndRuns(steps, t)
       <==> CreatedAndRuns(steps[1..], t) || (Creates(steps[0], t) && NeverEnds(steps[1..], t))
  {
    if NeverEnds(steps[1..], t) {
      forall j | 0 < j < |steps|
        ensures !Ends(steps[j], t)
      {
        assert steps[1..][j - 1] == steps[j];
      }
    }
    if CreatedAndRuns(steps, t) {
      var i :| 0 <= i < |steps| && Creates(steps[i], t) && NeverEnds(steps[i + 1..], t);
      if i > 0 {
        assert steps[1..][i - 1] == steps[i] && steps[1..][i..] == steps[i + 1..];
      }
    }
    if CreatedAndRuns(steps[1..], t) {
      var i :| 0 <= i < |steps| - 1 && Creates(steps[1..][i], t) && NeverEnds(steps[1..][i + 1..], t);
      assert steps[i + 1] == steps[1..][i] && steps[i + 2..] == steps[1..][i + 1..];
    }
  }

  /** A task is registered from its creation until it is first stopped or cleaned up. */
  lemma {:induction false} RegisteredIff(r: Registry, steps: seq<Step>, t: TaskId)
    requires IsRun(r, steps)
    ensures t in Reached(r, steps).tasks <==> (t in r.tasks && NeverEnds(steps, t)) || CreatedAndRuns(steps, t)
    decreases |steps|
  {
    if steps != [] {
      RegisteredIff(Apply(r, steps[0]), steps[1..], t);
      CreatedAndRunsTail(steps, t);
    }
  }

  lemma {:induction false} RecordsAre(r: Registry, steps: seq<Step>, t: TaskId, item: Item)
    requires IsRun(r, steps)
    ensures var r' := Reached(r, steps);
            && (t in r.owner ==> t in r'.owner && r'.owner[t] == r.owner[t])
            && (t in r'.owner && r'.owner[t] == item
                <==> (t in r.owner && r.owner[t] == item) || Create(t, item) in steps)
            && (t in r'.cleaned <==> t in r.cleaned || Cleanup(t) in steps)
    decreases |steps|
  {
    if steps != [] {
      assert steps == [steps[0]] + steps[1..];
      RecordsAre(Apply(r, steps[0]), steps[1..], t, item);
    }
  }

  /** The item's tasks that still count: created for it and, if the item has a real id, not cleaned up. */
  ghost predicate Counts(steps: seq<Step>, t: TaskId, item: Item) {
    Create(t, item) in steps && (item.Some? && item.value != "" ==> Cleanup(t) !in steps)
  }

  /**
   Going by the steps alone, in every interleaving: `tasks` holds the tasks created and neither stopped nor
   cleaned up since, an item's list the tasks created for it and not cleaned up, and an item is active exactly
   while there is one. For an absent or empty item id cleanup removes nothing: such an item stays active for ever.
   */
  lemma ActiveExactly(steps: seq<Step>, item: Item)
    requires IsRun(EMPTY, steps)
    ensures var r := Reached(EMPTY, steps);
            && (forall t :: t in r.tasks <==> CreatedAndRuns(steps, t))
            && (forall t :: t in ListOf(r.itemTasks, item) <==> Counts(steps, t, item))
            && (HasActiveTasks(r, item) <==> exists t :: Counts(steps, t, item))
            && ListsDisjoint(r) && ListsRegistered(r)
  {
    var r := Reached(EMPTY, steps);
    RunKeepsValid(EMPTY, steps);
    ValidMeans(r, item);
    forall t
      ensures t in r.tasks <==> CreatedAndRuns(steps, t)
      ensures t in ListOf(r.itemTasks, item) <==> Counts(steps, t, item)
    {
      RegisteredIff(EMPTY, steps, t);
      RecordsAre(EMPTY, steps, t, item);
    }
    if HasActiveTasks(r, item) {
      assert r.itemTasks[item][0] in ListOf(r.itemTasks, item);
    }
  }

  /** A second cleanup of the same task changes nothing. */
  lemma CleanupIdempotent(r: Registry, t: TaskId)
    requires Valid(r)
    ensures Apply(Apply(r, Cleanup(t)), Cleanup(t)) == Apply(r, Cleanup(t))
  {
    if t in r.owner {
      CleanupKeepsValid(r, t);
      assert t in Apply(r, Cleanup(t)).cleaned;
    }
  }

  lemma {:induction false} WithoutAt(s: seq<TaskId>, i: nat)
    requires i < |s| && s[i] !in s[..i]
    ensures Without(s, s[i]) == s[..i] + s[i + 1..]
    decreases i
  {
    if i > 0 {
      assert s[0] in s[..i];
      assert s[1..][..i - 1] == s[..i][1..];
      WithoutAt(s[1..], i - 1);
    }
  }

  /** list.remove: drops the first occurrence. */
  method Removed(s: seq<TaskId>, t: TaskId) returns (r: seq<TaskId>)
    requires t in s
    ensures r == Without(s, t)
  {
    var i := 0;
    while s[i] != t
      invariant 0 <= i < |s| && t !in s[..i] && t in s[i..]
      decreases |s| - i
    {
      i := i + 1;
    }
    WithoutAt(s, i);
    r := s[..i] + s[i + 1..];
  }

  class TaskRegistry {
    var tasks: set<TaskId>
    var itemTasks: map<Item, seq<TaskId>>
    ghost var owner: map<TaskId, Item>
    ghost var cleaned: set<TaskId>

    ghost function State(): Registry
      reads this
    {
      Registry(tasks, itemTasks, owner, cleaned)
    }

    constructor ()
      ensures State() == EMPTY && Valid(State())
    {
      tasks, itemTasks, owner, cleaned := {}, map[], map[], {};
    }

    method CreateTask(task: TaskId, item: Item)
      requires Valid(State()) && task !in owner
      modifies this
      ensures State() == Apply(old(State()), Create(task, item)) && Valid(State())
    {
      StepKeepsValid(State(), Create(task, item));
      assert [] + [task] == [task];
      tasks := tasks + {task};
      if item in itemTasks && itemTasks[item] != [] {
        itemTasks := itemTasks[item := itemTasks[item] + [task]];
      } else {
        itemTasks := itemTasks[item := [task]];
      }
      owner := owner[task := item];
    }

    method CleanupTask(task: TaskId, item: Item)
      requires Valid(State()) && task in owner && owner[task] == item
      modifies this
      ensures State() == Apply(old(State()), Cleanup(task)) && Valid(State())
    {
      StepKeepsValid(State(), Cleanup(task));
      tasks := tasks - {task};
      if Truthy(item) && item in itemTasks && task in itemTasks[item] {
        var rest := Removed(itemTasks[item], task);
        itemTasks := itemTasks[item := rest];
        if itemTasks[item] == [] {
          itemTasks := itemTasks - {item};
        }
      }
      cleaned := cleaned + {task};
    }

    /** Pops the task; its done-callback cleans the item list later. */
    method StopTask(task: TaskId) returns (found: bool)
      requires Valid(State())
      modifies this`tasks
      ensures State() == Apply(old(State()), Stop(task)) && Valid(State())
      ensures found <==> task in old(tasks)
    {
      found := task in tasks;
      tasks := tasks - {task};
    }
  }

  // ---------- Redis mode ----------

  /** The task hash (task -> item id, '' for none) and the set of task ids kept for each item. */
  datatype Redis = Redis(hash: map<TaskId, string>, sets: map<string, set<TaskId>>)

  datatype Command =
    | RSave(task: TaskId, item: Item)
    | RCleanup(task: TaskId, item: Item)
    | RStop(task: TaskId)

  function Members(r: Redis, item: string): set<TaskId> {
    if item in r.sets then r.sets[item] else {}
  }

  function Save(r: Redis, task: TaskId, item: Item): Redis {
    if Truthy(item) then
      Redis(r.hash[task := item.value], r.sets[item.value := Members(r, item.value) + {task}])
    else r.(hash := r.hash[task := ""])
  }

  /** HDEL, SREM, and the set's key goes when it has no members left. */
  function Clean(r: Redis, task: TaskId, item: Item): Redis {
    if !Truthy(item) then r.(hash := r.hash - {task})
    else
      var rest := Members(r, item.value) - {task};
      Redis(r.hash - {task}, if rest == {} then r.sets - {item.value} else r.sets[item.value := rest])
  }

  /** hget, with '' and a missing entry both meaning no item. */
  function LookedUp(r: Redis, task: TaskId): Item {
    if task in r.hash && r.hash[task] != "" then Some(r.hash[task]) else None
  }

  /** stop_task: look the item up in the hash, then clean up under it. */
  function StopOne(r: Redis, task: TaskId): Redis {
    Clean(r, task, LookedUp(r, task))
  }

  function Execute(r: Redis, c: Command): Redis {
    match c
    case RSave(t, item) => Save(r, t, item)
    case RCleanup(t, item) => Clean(r, t, item)
    case RStop(t) => StopOne(r, t)
  }

  /** The hash and the sets say the same thing. */
  ghost predicate Agrees(r: Redis) {
    && (forall k :: k in r.sets ==> k != "" && r.sets[k] != {})
    && (forall k, t :: k in r.sets && t in r.sets[k] ==> t in r.hash && r.hash[t] == k)
    && (forall t :: t in r.hash && r.hash[t] != "" ==> t in Members(r, r.hash[t]))
  }

  /** Task ids are minted once, and a cleanup names the item the task was saved under. */
  ghost predicate Proper(r: Redis, c: Command) {
    match c
    case RSave(t, _) => t !in r.hash
    case RCleanup(t, item) => t in r.hash ==> r.hash[t] == if Truthy(item) then item.value else ""
    case RStop(_) => true
  }

  lemma SaveKeepsAgreement(r: Redis, t: TaskId, item: Item)
    requires Agrees(r) && t !in r.hash
    ensures Agrees(Save(r, t, item))
  {
  }

  lemma CleanKeepsAgreement(r: Redis, t: TaskId, item: Item)
    requires Agrees(r) && Proper(r, RCleanup(t, item))
    ensures Agrees(Clean(r, t, item))
  {
    var r' := Clean(r, t, item);
    forall x | x in r'.hash && r'.hash[x] != ""
      ensures x in Members(r', r'.hash[x])
    {
      assert x in Members(r, r.hash[x]);
    }
  }

  lemma ExecuteKeepsAgreement(r: Redis, c: Command)
    requires Agrees(r) && Proper(r, c)
    ensures Agrees(Execute(r, c))
  {
    match c
    case RSave(t, item) => SaveKeepsAgreement(r, t, item);
    case RCleanup(t, item) => CleanKeepsAgreement(r, t, item);
    case RStop(t) => CleanKeepsAgreement(r, t, LookedUp(r, t));
  }

  ghost predicate Gone(r: Redis, t: TaskId) {
    t !in r.hash && forall k :: k in r.sets ==> t !in r.sets[k]
  }

  ghost predicate ProperRun(r: Redis, cs: seq<Command>)
    decreases |cs|
  {
    cs != [] ==> Proper(r, cs[0]) && ProperRun(Execute(r, cs[0]), cs[1..])
  }

  function ExecuteAll(r: Redis, cs: seq<Command>): Redis
    decreases |cs|
  {
    if cs == [] then r else ExecuteAll(Execute(r, cs[0]), cs[1..])
  }

  /** However stops and cleanups interleave, a stopped task is in neither the hash nor any set afterwards. */
  lemma {:induction false} StoppedIsGone(r: Redis, cs: seq<Command>, t: TaskId)
    requires Agrees(r) && ProperRun(r, cs)
    requires forall c :: c in cs ==> !c.RSave?
    requires RStop(t) in cs || Gone(r, t)
    ensures Agrees(ExecuteAll(r, cs)) && Gone(ExecuteAll(r, cs), t)
    decreases |cs|
  {
    if cs != [] {
      ExecuteKeepsAgreement(r, cs[0]);
      assert cs == [cs[0]] + cs[1..];
      StoppedIsGone(Execute(r, cs[0]), cs[1..], t);
    }
  }

  /** Commands about other tasks, and cleanups of this one, leave its hash entry alone or remove it. */
  lemma {:induction false} EntryStaysOrGoes(r: Redis, cs: seq<Command>, t: TaskId)
    requires Agrees(r) && ProperRun(r, cs)
    requires forall c :: c in cs ==> !(c.RSave? && c.task == t)
    ensures var r' := ExecuteAll(r, cs);
            Agrees(r') && (t in r'.hash ==> t in r.hash && r'.hash[t] == r.hash[t])
    decreases |cs|
  {
    if cs != [] {
      assert cs == [cs[0]] + cs[1..];
      ExecuteKeepsAgreement(r, cs[0]);
      EntryStaysOrGoes(Execute(r, cs[0]), cs[1..], t);
    }
  }

  ghost predicate Saves(c: Command, t: TaskId, key: string) {
    c.RSave? && c.task == t && key == if c.item.Some? then c.item.value else ""
  }

  ghost predicate NeverRemoved(cs: seq<Command>, t: TaskId) {
    forall j :: 0 <= j < |cs| ==> cs[j].RSave? || cs[j].task != t
  }

  ghost predicate SavedAndKept(cs: seq<Command>, t: TaskId, key: string) {
    exists i :: 0 <= i < |cs| && Saves(cs[i], t, key) && NeverRemoved(cs[i + 1..], t)
  }

  lemma SavedAndKeptTail(cs: seq<Command>, t: TaskId, key: string)
    requires cs != []
    ensures NeverRemoved(cs, t) <==> (cs[0].RSave? || cs[0].task != t) && NeverRemoved(cs[1..], t)
    ensures SavedAndKept(cs, t, key)
       <==> SavedAndKept(cs[1..], t, key) || (Saves(cs[0], t, key) && NeverRemoved(cs[1..], t))
  {
    if NeverRemoved(cs[1..], t) {
      forall j | 0 < j < |cs|
        ensures cs[j].RSave? || cs[j].task != t
      {
        assert cs[1..][j - 1] == cs[j];
      }
    }
    if SavedAndKept(cs, t, key) {
      var i :| 0 <= i < |cs| && Saves(cs[i], t, key) && NeverRemoved(cs[i + 1..], t);
      if i > 0 {
        assert cs[1..][i - 1] == cs[i] && cs[1..][i..] == cs[i + 1..];
      }
    }
    if SavedAndKept(cs[1..], t, key) {
      var i :| 0 <= i < |cs| - 1 && Saves(cs[1..][i], t, key) && NeverRemoved(cs[1..][i + 1..], t);
      assert cs[i + 1] == cs[1..][i] && cs[i + 2..] == cs[1..][i + 1..];
    }
  }

  lemma {:induction false} HashIs(r: Redis, cs: seq<Command>, t: TaskId, key: string)
    requires Agrees(r) && ProperRun(r, cs)
    ensures Agrees(ExecuteAll(r, cs))
    ensures var hash := ExecuteAll(r, cs).hash;
            t in hash && hash[t] == key
            <==> (t in r.hash && r.hash[t] == key && NeverRemoved(cs, t)) || SavedAndKept(cs, t, key)
    decreases |cs|
  {
    if cs != [] {
      ExecuteKeepsAgreement(r, cs[0]);
      HashIs(Execute(r, cs[0]), cs[1..], t, key);
      SavedAndKeptTail(cs, t, key);
    }
  }

  /**
   Going by the commands alone: Redis lists a task from its save until it is first stopped or cleaned up, with
   the item it was saved under, and the item's set has it for just as long.
   */
  lemma RedisListsExactly(cs: seq<Command>, t: TaskId, key: string)
    requires ProperRun(Redis(map[], map[]), cs)
    ensures var r := ExecuteAll(Redis(map[], map[]), cs);
            && (t in r.hash && r.hash[t] == key <==> SavedAndKept(cs, t, key))
            && (key in r.sets && t in r.sets[key] <==> key != "" && SavedAndKept(cs, t, key))
  {
    HashIs(Redis(map[], map[]), cs, t, key);
  }

  lemma AbsentIsGone(r: Redis, t: TaskId)
    requires Agrees(r) && t !in r.hash
    ensures Gone(r, t)
  {
  }

  /**
   A stop looks the item up first and cleans up later. Whatever other commands run in between and
   afterwards, saves of other tasks included, the looked-up item is still the right one and the task is gone.
   */
  lemma StopInTwoSteps(r: Redis, between: seq<Command>, after: seq<Command>, t: TaskId)
    requires Agrees(r) && ProperRun(r, between)
    requires forall c :: c in between + after ==> !(c.RSave? && c.task == t)
    requires var r1 := ExecuteAll(r, between); ProperRun(Clean(r1, t, LookedUp(r, t)), after)
    ensures var r1 := ExecuteAll(r, between);
            && Proper(r1, RCleanup(t, LookedUp(r, t)))
            && Gone(ExecuteAll(Clean(r1, t, LookedUp(r, t)), after), t)
  {
    var r1 := ExecuteAll(r, between);
    assert forall c :: c in between ==> c in between + after;
    assert forall c :: c in after ==> c in between + after;
    EntryStaysOrGoes(r, between, t);
    CleanKeepsAgreement(r1, t, LookedUp(r, t));
    var r2 := Clean(r1, t, LookedUp(r, t));
    EntryStaysOrGoes(r2, after, t);
    AbsentIsGone(ExecuteAll(r2, after), t);
  }

  class RedisTasks {
    var hash: map<TaskId, string>
    var sets: map<string, set<TaskId>>

    ghost function State(): Redis
      reads this
    {
      Redis(hash, sets)
    }

    method SaveTask(task: TaskId, item: Item)
      modifies this
      ensures State() == Save(old(State()), task, item)
    {
      hash := hash[task := if item.Some? then item.value else ""];
      if item.Some? && item.value != "" {
        sets := sets[item.value := (if item.value in sets then sets[item.value] else {}) + {task}];
      }
    }

    method CleanupTask(task: TaskId, item: Item)
      modifies this
      ensures State() == Clean(old(State()), task, item)
    {
      hash := hash - {task};
      if item.Some? && item.value != "" {
        var rest := (if item.value in sets then sets[item.value] else {}) - {task};
        sets := if rest == {} then sets - {item.value} else sets[item.value := rest];
      }
    }

    method StopTask(task: TaskId)
      modifies this
      ensures State() == StopOne(old(State()), task)
    {
      var item := if task in hash then hash[task] else "";
      CleanupTask(task, if item == "" then None else Some(item));
    }

    /** Stops every task of the snapshot, and takes nothing else out of the hash or the sets. */
    method StopItemTasks(item: string)
      requires Agrees(State())
      modifies this
      ensures Agrees(State())
      ensures hash == old(hash) - Members(old(State()), item)
      ensures sets == old(sets) - {item}
    {
      var left := if item in sets then sets[item] else {};
      ghost var all := left;
      while left != {}
        invariant left <= all == Members(old(State()), item)
        invariant Agrees(State())
        invariant hash == old(hash) - (all - left)
        invariant sets == if left == {} then old(sets) - {item} else old(sets)[item := left]
        decreases left
      {
        var t :| t in left;
        ExecuteKeepsAgreement(State(), RStop(t));
        assert t in sets[item] && hash[t] == item;
        StopTask(t);
        left := left - {t};
        assert all - left == (all - (left + {t})) + {t};
      }
      assert all - left == all;
    }
  }
}
