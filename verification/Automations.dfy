/**
 Distributed claiming of due automations. Workers select due rows and hold them until they commit;
 with FOR UPDATE SKIP LOCKED a selection passes over rows another worker holds. Selection and commit
 are separate steps, interleaved freely with each other and with inserts, updates, toggles and deletes.
 An update or toggle first computes the next run and writes it later, so the value can be stale by then.
 */
module Automations {
  import opened Options
  import opened Seqs
  import opened Sets

  type Id = string

  type Worker = nat

  datatype Automation = Automation(userId: string, rrule: string, isActive: bool,
                                   lastRunAt: Option<int>, nextRunAt: Option<int>)

  /** What a worker selected: the time it polled for, the clock then, and the slot (next_run_at) it saw on each row. */
  datatype Selection = Selection(now: int, at: int, slots: map<Id, int>)

  /**
   `computed` are the next runs computed so far; `claims` counts, for each (row, slot), how many
   committed claims returned it.
   */
  datatype System = System(rows: map<Id, Automation>, held: map<Worker, Selection>, clock: int,
                           computed: set<Option<int>>, claims: multiset<(Id, int)>)

  datatype Step =
    | Tick(clock: int)
    | Compute(next: Option<int>)
    | Insert(id: Id, row: Automation)
    | Update(id: Id, rrule: string, isActive: Option<bool>, next: Option<int>)
    | Toggle(id: Id, next: Option<int>)
    | Delete(id: Id)
    | Select(worker: Worker, now: int, limit: nat, chosen: seq<Id>)
    | Commit(worker: Worker, nexts: map<Id, Option<int>>)
    | Rollback(worker: Worker)

  predicate Held(s: System, id: Id) {
    exists w :: w in s.held && id in s.held[w].slots
  }

  predicate Due(row: Automation, now: int) {
    row.isActive && row.nextRunAt.Some? && row.nextRunAt.value <= now
  }

  /** The rows a selection considers; skipLocked is what the dialect provides. */
  function Eligible(s: System, now: int, skipLocked: bool): set<Id> {
    set i | i in s.rows && Due(s.rows[i], now) && !(skipLocked && Held(s, i))
  }

  function Slot(rows: map<Id, Automation>, id: Id): int {
    if id in rows && rows[id].nextRunAt.Some? then rows[id].nextRunAt.value else 0
  }

  /** ORDER BY next_run_at LIMIT limit over the eligible rows. */
  ghost predicate IsEarliest(rows: map<Id, Automation>, eligible: set<Id>, limit: nat, chosen: seq<Id>) {
    && NoDup(chosen)
    && (forall i :: i in chosen ==> i in eligible)
    && |chosen| == (if limit <= |eligible| then limit else |eligible|)
    && (forall a, b :: 0 <= a < b < |chosen| ==> Slot(rows, chosen[a]) <= Slot(rows, chosen[b]))
    && (forall i, j :: i in chosen && j in eligible && j !in chosen ==> Slot(rows, i) <= Slot(rows, j))
  }

  /** next_run_ns yields no run or one after the current time. */
  predicate After(next: Option<int>, clock: int) {
    next.Some? ==> next.value > clock
  }

  ghost predicate Enabled(s: System, step: Step, skipLocked: bool) {
    match step
    case Tick(clock) => s.clock <= clock
    case Compute(next) => After(next, s.clock)
    case Insert(id, row) => id !in s.rows && (forall c :: c in s.claims ==> c.0 != id) && row.nextRunAt in s.computed
    case Update(id, _, isActive, next) => (skipLocked ==> !Held(s, id)) && next in s.computed
    case Toggle(id, next) => (skipLocked ==> !Held(s, id)) && next in s.computed
    case Delete(id) => skipLocked ==> !Held(s, id)
    case Select(w, now, limit, chosen) =>
      w !in s.held && now <= s.clock && IsEarliest(s.rows, Eligible(s, now, skipLocked), limit, chosen)
    case Commit(w, next) =>
      w in s.held && s.held[w].slots.Keys <= next.Keys && forall i :: i in next ==> After(next[i], s.held[w].at)
    case Rollback(w) => w in s.held
  }

  function SlotsSeen(s: System, chosen: seq<Id>): map<Id, int> {
    map i | i in chosen :: Slot(s.rows, i)
  }

  function Rescheduled(rows: map<Id, Automation>, ids: set<Id>, now: int, next: map<Id, Option<int>>)
    : map<Id, Automation>
  {
    map i | i in rows ::
      if i in ids && i in next then rows[i].(lastRunAt := Some(now), nextRunAt := next[i]) else rows[i]
  }

  /** The claims a committed selection returns, one for each selected row. */
  function Returned(slots: map<Id, int>): multiset<(Id, int)> {
    multiset(slots.Items)
  }

  function Apply(s: System, step: Step): System {
    match step
    case Tick(clock) => s.(clock := clock)
    case Compute(next) => s.(computed := s.computed + {next})
    case Insert(id, row) => s.(rows := s.rows[id := row])
    case Update(id, rrule, isActive, next) =>
      if id !in s.rows then s
      else
        var row := s.rows[id];
        s.(rows := s.rows[id := row.(rrule := rrule, nextRunAt := next,
                                     isActive := if isActive.Some? then isActive.value else row.isActive)])
    case Toggle(id, next) =>
      if id !in s.rows then s
      else s.(rows := s.rows[id := s.rows[id].(isActive := !s.rows[id].isActive,
                                               nextRunAt := if s.rows[id].isActive then None else next)])
    case Delete(id) => s.(rows := s.rows - {id})
    case Select(w, now, limit, chosen) => s.(held := s.held[w := Selection(now, s.clock, SlotsSeen(s, chosen))])
    case Commit(w, next) =>
      if w !in s.held then s
      else s.(rows := Rescheduled(s.rows, s.held[w].slots.Keys, s.held[w].now, next),
              held := s.held - {w},
              claims := s.claims + Returned(s.held[w].slots))
    case Rollback(w) => s.(held := s.held - {w})
  }

  // ---------- what the steps mean ----------

  /** An active row whose next run has come; with locks, one no worker holds. */
  ghost predicate Claimable(s: System, now: int, skipLocked: bool, i: Id) {
    && i in s.rows && s.rows[i].isActive
    && (exists slot :: s.rows[i].nextRunAt == Some(slot) && slot <= now)
    && (skipLocked ==> forall w :: w in s.held ==> i !in s.held[w].slots)
  }

  /**
   A selection takes claimable rows, each once, by next run; one it leaves out comes no earlier and finds the
   limit reached.
   */
  lemma SelectMeans(s: System, step: Step, skipLocked: bool)
    requires step.Select? && Enabled(s, step, skipLocked)
    ensures var chosen, slots := step.chosen, Apply(s, step).held[step.worker].slots;
            && |chosen| <= step.limit && NoDup(chosen)
            && (forall i :: i in slots <==> i in chosen)
            && (forall i :: i in chosen ==>
                  Claimable(s, step.now, skipLocked, i) && s.rows[i].nextRunAt == Some(slots[i]))
            && (forall a, b :: 0 <= a < b < |chosen| ==> slots[chosen[a]] <= slots[chosen[b]])
            && (forall j :: Claimable(s, step.now, skipLocked, j) && j !in chosen ==>
                  && |chosen| == step.limit
                  && forall i :: i in chosen ==> slots[i] <= s.rows[j].nextRunAt.value)
  {
    var eligible := Eligible(s, step.now, skipLocked);
    forall i
      ensures i in eligible <==> Claimable(s, step.now, skipLocked, i)
    {
    }
    forall j | j in eligible && j !in step.chosen
      ensures |step.chosen| == step.limit
    {
      assert (set i | i in step.chosen) <= eligible - {j};
      NoDupSize(step.chosen);
      SubsetSize((set i | i in step.chosen), eligible - {j});
    }
  }

  lemma ReturnedOnce(slots: map<Id, int>, c: (Id, int))
    ensures Returned(slots)[c] == if c.0 in slots && slots[c.0] == c.1 then 1 else 0
  {
    if c.0 in slots && slots[c.0] == c.1 {
      assert c in slots.Items;
    }
  }

  /** A commit advances the rows its worker holds, and only those, counts one claim for each, and lets go of them. */
  lemma CommitMeans(s: System, step: Step, skipLocked: bool)
    requires step.Commit? && Enabled(s, step, skipLocked)
    ensures var poll, s' := s.held[step.worker], Apply(s, step);
            && s'.rows.Keys == s.rows.Keys
            && (forall i :: i in s.rows ==>
                  s'.rows[i] == if i in poll.slots
                                then Automation(s.rows[i].userId, s.rows[i].rrule, s.rows[i].isActive,
                                                Some(poll.now), step.nexts[i])
                                else s.rows[i])
            && (forall i, slot :: s'.claims[(i, slot)]
                  == s.claims[(i, slot)] + if i in poll.slots && poll.slots[i] == slot then 1 else 0)
            && s'.held == s.held - {step.worker} && (s'.clock, s'.computed) == (s.clock, s.computed)
  {
    var slots := s.held[step.worker].slots;
    forall i, slot
      ensures Apply(s, step).claims[(i, slot)]
           == s.claims[(i, slot)] + if i in slots && slots[i] == slot then 1 else 0
    {
      ReturnedOnce(slots, (i, slot));
    }
  }

  /**
   An update or toggle writes its own row only. A toggle turns the active flag over and leaves a next run to
   an active row alone; an update writes the rule and the next run, and the flag if it brings one.
   */
  lemma WriteMeans(s: System, step: Step)
    requires (step.Update? || step.Toggle?) && step.id in s.rows
    ensures var row, row' := s.rows[step.id], Apply(s, step).rows[step.id];
            && Apply(s, step) == s.(rows := s.rows[step.id := row'])
            && (row'.userId, row'.lastRunAt) == (row.userId, row.lastRunAt)
            && (step.Toggle? ==> row'.rrule == row.rrule && row'.isActive != row.isActive
                                 && row'.nextRunAt == if row'.isActive then step.next else None)
            && (step.Update? ==> row'.rrule == step.rrule && row'.nextRunAt == step.next
                                 && (step.isActive == None ==> row'.isActive == row.isActive)
                                 && (step.isActive.Some? ==> row'.isActive == step.isActive.value))
  {
  }

  // ---------- the invariant ----------

  /** A held row is still exactly as it was selected: active, due, with the slot the worker saw. */
  ghost predicate Intact(s: System, w: Worker, i: Id)
    requires w in s.held && i in s.held[w].slots
  {
    && i in s.rows && Due(s.rows[i], s.held[w].now)
    && s.rows[i].nextRunAt.value == s.held[w].slots[i]
    && s.held[w].now <= s.held[w].at <= s.clock
  }

  /** Held rows are as selected, and no row is held twice. */
  ghost predicate HoldsIntact(s: System) {
    && (forall w, i :: w in s.held && i in s.held[w].slots ==> Intact(s, w, i))
    && (forall v, w, i :: v in s.held && w in s.held && i in s.held[v].slots && i in s.held[w].slots ==> v == w)
  }

  /** Nothing a held row was claimed for lies after its selection. */
  ghost predicate HoldsRecent(s: System) {
    forall w, c :: w in s.held && c in s.claims && c.0 in s.held[w].slots ==> c.1 <= s.held[w].at
  }

  /** The row is waiting for a slot it has been claimed for before. */
  predicate Reused(s: System, i: Id) {
    i in s.rows && s.rows[i].isActive && s.rows[i].nextRunAt.Some? && (i, s.rows[i].nextRunAt.value) in s.claims
  }

  /** Every claimed slot lies in the past and was claimed once, and no active row waits for one again. */
  ghost predicate ClaimsPast(s: System) {
    && (forall c :: c in s.claims ==> s.claims[c] == 1 && c.1 <= s.clock)
    && (forall i :: i in s.rows ==> !Reused(s, i))
  }

  ghost predicate Inv(s: System) {
    HoldsIntact(s) && HoldsRecent(s) && ClaimsPast(s)
  }

  // ---------- holds stay intact, whatever is written ----------

  lemma CommitKeepsHolds(s: System, step: Step)
    requires HoldsIntact(s) && step.Commit? && Enabled(s, step, true)
    ensures HoldsIntact(Apply(s, step))
  {
    var s' := Apply(s, step);
    forall v, i | v in s'.held && i in s'.held[v].slots
      ensures Intact(s', v, i)
    {
      assert v in s.held && i !in s.held[step.worker].slots;
      assert Intact(s, v, i);
    }
  }

  lemma SelectKeepsHolds(s: System, step: Step)
    requires HoldsIntact(s) && step.Select? && Enabled(s, step, true)
    ensures HoldsIntact(Apply(s, step))
  {
    var s' := Apply(s, step);
    forall i | i in step.chosen
      ensures i in s.rows && Due(s.rows[i], step.now) && !Held(s, i)
    {
      assert i in Eligible(s, step.now, true);
    }
    assert forall w :: w in s.held ==> s'.held[w] == s.held[w];
    forall w, i | w in s'.held && i in s'.held[w].slots
      ensures Intact(s', w, i)
    {
      if w in s.held { assert Intact(s, w, i); }
    }
  }

  lemma HeldRowExists(s: System, id: Id)
    requires HoldsIntact(s)
    ensures Held(s, id) ==> id in s.rows
  {
    if Held(s, id) {
      var w :| w in s.held && id in s.held[w].slots;
      assert Intact(s, w, id);
    }
  }

  /** Changing rows nobody holds, or letting go of some, leaves every other hold as it was. */
  lemma OthersKeepHolds(s: System, s': System)
    requires HoldsIntact(s) && s.clock <= s'.clock
    requires forall w :: w in s'.held ==> w in s.held && s'.held[w] == s.held[w]
    requires forall i :: i in s.rows && Held(s, i) ==> i in s'.rows && s'.rows[i] == s.rows[i]
    ensures HoldsIntact(s')
  {
    forall w, i | w in s'.held && i in s'.held[w].slots
      ensures Intact(s', w, i)
    {
      assert Intact(s, w, i) && Held(s, i);
    }
  }

  lemma StepKeepsHolds(s: System, step: Step)
    requires HoldsIntact(s) && Enabled(s, step, true)
    ensures HoldsIntact(Apply(s, step))
  {
    match step
    case Select(_, _, _, _) => SelectKeepsHolds(s, step);
    case Commit(_, _) => CommitKeepsHolds(s, step);
    case Insert(id, _) =>
      HeldRowExists(s, id);
      OthersKeepHolds(s, Apply(s, step));
    case _ => OthersKeepHolds(s, Apply(s, step));
  }

  // ---------- claims stay single, as long as none is written back ----------

  lemma CommittedClaims(s: System, step: Step, c: (Id, int))
    requires Inv(s) && step.Commit? && Enabled(s, step, true)
    ensures var slots, s' := s.held[step.worker].slots, Apply(s, step);
            && (c in s'.claims <==> c in s.claims || (c.0 in slots && slots[c.0] == c.1))
            && (c in s'.claims ==> s'.claims[c] == 1 && c.1 <= s.clock)
            && (c in s'.claims && c.0 in slots ==> c.1 <= s.held[step.worker].at)
  {
    var slots := s.held[step.worker].slots;
    ReturnedOnce(slots, c);
    assert Apply(s, step).claims[c] == s.claims[c] + Returned(slots)[c];
    if c.0 in slots {
      assert Intact(s, step.worker, c.0) && !Reused(s, c.0);
    }
  }

  lemma CommitKeepsRecent(s: System, step: Step)
    requires Inv(s) && step.Commit? && Enabled(s, step, true)
    ensures HoldsRecent(Apply(s, step))
  {
    var s' := Apply(s, step);
    forall v, c | v in s'.held && c in s'.claims && c.0 in s'.held[v].slots
      ensures c.1 <= s'.held[v].at
    {
      CommittedClaims(s, step, c);
      assert v in s.held && c.0 !in s.held[step.worker].slots;
    }
  }

  lemma CommitKeepsClaims(s: System, step: Step)
    requires Inv(s) && step.Commit? && Enabled(s, step, true)
    ensures ClaimsPast(Apply(s, step))
  {
    var s' := Apply(s, step);
    forall c | c in s'.claims
      ensures s'.claims[c] == 1 && c.1 <= s.clock
    {
      CommittedClaims(s, step, c);
    }
    forall i | i in s'.rows
      ensures !Reused(s', i)
    {
      assert !Reused(s, i);
      if s'.rows[i].nextRunAt.Some? { CommittedClaims(s, step, (i, s'.rows[i].nextRunAt.value)); }
    }
  }

  lemma ChangeKeepsClaims(s: System, s': System, id: Id)
    requires ClaimsPast(s) && !Reused(s', id)
    requires s'.claims == s.claims && s'.clock == s.clock
    requires forall i :: i != id && i in s'.rows ==> i in s.rows && s'.rows[i] == s.rows[i]
    ensures ClaimsPast(s')
  {
    forall i | i in s'.rows
      ensures !Reused(s', i)
    {
      if i != id { assert !Reused(s, i); }
    }
  }

  /** An update or toggle after which the row waits for a slot it was claimed for already. */
  predicate Reuses(s: System, step: Step) {
    (step.Update? || step.Toggle?) && Reused(Apply(s, step), step.id)
  }

  lemma StepKeepsInv(s: System, step: Step)
    requires Inv(s) && Enabled(s, step, true) && !Reuses(s, step)
    ensures Inv(Apply(s, step))
  {
    var s' := Apply(s, step);
    StepKeepsHolds(s, step);
    if step.Commit? {
      CommitKeepsRecent(s, step);
      CommitKeepsClaims(s, step);
    } else if step.Insert? || step.Update? || step.Toggle? || step.Delete? {
      ChangeKeepsClaims(s, s', step.id);
    } else {
      forall i | i in s'.rows
        ensures !Reused(s', i)
      {
        assert !Reused(s, i);
      }
    }
  }

  /** A caller can make sure of it at the write: a next run still ahead of the clock was never claimed. */
  lemma CurrentWriteNeverReuses(s: System, step: Step)
    requires Inv(s) && (step.Update? || step.Toggle?) && After(step.next, s.clock)
    ensures !Reuses(s, step)
  {
    if step.id in s.rows { assert !Reused(s, step.id); }
  }

  // ---------- whole runs ----------

  ghost predicate IsRun(s: System, steps: seq<Step>, skipLocked: bool)
    decreases |steps|
  {
    steps != [] ==> Enabled(s, steps[0], skipLocked) && IsRun(Apply(s, steps[0]), steps[1..], skipLocked)
  }

  function Reached(s: System, steps: seq<Step>): System
    decreases |steps|
  {
    if steps == [] then s else Reached(Apply(s, steps[0]), steps[1..])
  }

  function Start(clock: int): System {
    System(map[], map[], clock, {}, multiset{})
  }

  /** No update or toggle of the run writes a slot its row was claimed for already. */
  ghost predicate NeverReuses(s: System, steps: seq<Step>)
    decreases |steps|
  {
    steps != [] ==> !Reuses(s, steps[0]) && NeverReuses(Apply(s, steps[0]), steps[1..])
  }

  lemma {:induction false} RunKeepsInv(s: System, steps: seq<Step>)
    requires Inv(s) && IsRun(s, steps, true) && NeverReuses(s, steps)
    ensures Inv(Reached(s, steps))
    decreases |steps|
  {
    if steps != [] {
      StepKeepsInv(s, steps[0]);
      RunKeepsInv(Apply(s, steps[0]), steps[1..]);
    }
  }

  /**
   With row locks and SKIP LOCKED, in any interleaving in which no update or toggle writes back a slot
   its row was claimed for, no slot of an automation is ever claimed twice.
   */
  lemma NeverClaimedTwice(clock: int, steps: seq<Step>, c: (Id, int))
    requires IsRun(Start(clock), steps, true) && NeverReuses(Start(clock), steps)
    ensures Reached(Start(clock), steps).claims[c] <= 1
  {
    RunKeepsInv(Start(clock), steps);
  }

  lemma {:induction false} RunKeepsHolds(s: System, steps: seq<Step>)
    requires HoldsIntact(s) && IsRun(s, steps, true)
    ensures HoldsIntact(Reached(s, steps))
    decreases |steps|
  {
    if steps != [] {
      StepKeepsHolds(s, steps[0]);
      RunKeepsHolds(Apply(s, steps[0]), steps[1..]);
    }
  }

  /** In any run, stale writes or not, what a worker holds is an active row still due at the slot it saw. */
  lemma OnlyDueRowsAreClaimed(clock: int, steps: seq<Step>, w: Worker, i: Id)
    requires IsRun(Start(clock), steps, true)
    requires w in Reached(Start(clock), steps).held && i in Reached(Start(clock), steps).held[w].slots
    ensures var s := Reached(Start(clock), steps);
            && i in s.rows && s.rows[i].isActive
            && s.rows[i].nextRunAt == Some(s.held[w].slots[i])
            && s.held[w].slots[i] <= s.held[w].now <= s.clock
  {
    RunKeepsHolds(Start(clock), steps);
    assert Intact(Reached(Start(clock), steps), w, i);
  }

  // ---------- a stale write is exactly what breaks it ----------

  /** Some way to go on claims a slot twice although nothing is written back any more. */
  ghost predicate CanClaimTwice(s: System) {
    exists rest: seq<Step>, c: (Id, int) ::
      IsRun(s, rest, true) && NeverReuses(s, rest) && Reached(s, rest).claims[c] > 1
  }

  predicate Least(rows: map<Id, Automation>, ids: set<Id>, m: Id)
    requires forall i :: i in ids ==> i in rows && rows[i].nextRunAt.Some?
  {
    m in ids && forall j :: j in ids ==> rows[m].nextRunAt.value <= rows[j].nextRunAt.value
  }

  lemma {:induction false} LeastExists(rows: map<Id, Automation>, ids: set<Id>) returns (m: Id)
    requires ids != {} && forall i :: i in ids ==> i in rows && rows[i].nextRunAt.Some?
    ensures Least(rows, ids, m)
    decreases ids
  {
    m :| m in ids;
    if ids != {m} {
      var rest := ids - {m};
      var other := LeastExists(rows, rest);
      if rows[other].nextRunAt.value < rows[m].nextRunAt.value { m := other; }
    }
  }

  /** `chosen` lists, earliest first, the rows taken out of `eligible` so far; none left is earlier. */
  ghost predicate Picked(rows: map<Id, Automation>, eligible: set<Id>, chosen: seq<Id>, left: set<Id>) {
    && left <= eligible
    && |chosen| + |left| == |eligible|
    && NoDup(chosen)
    && (forall i :: i in eligible <==> i in left || i in chosen)
    && (forall i :: i in chosen ==> i !in left)
    && (forall a, b :: 0 <= a < b < |chosen| ==> Slot(rows, chosen[a]) <= Slot(rows, chosen[b]))
    && (forall i, j :: i in chosen && j in left ==> Slot(rows, i) <= Slot(rows, j))
  }

  lemma PickStep(rows: map<Id, Automation>, eligible: set<Id>, chosen: seq<Id>, left: set<Id>, m: Id)
    requires Picked(rows, eligible, chosen, left)
    requires forall i :: i in left ==> i in rows && rows[i].nextRunAt.Some?
    requires m in left && Least(rows, left, m)
    ensures Picked(rows, eligible, chosen + [m], left - {m})
  {
    var chosen' := chosen + [m];
    forall a, b | 0 <= a < b < |chosen'|
      ensures chosen'[a] != chosen'[b] && Slot(rows, chosen'[a]) <= Slot(rows, chosen'[b])
    {
      assert chosen'[a] == chosen[a] && chosen[a] in chosen;
    }
    assert forall j :: j in left ==> Slot(rows, m) <= Slot(rows, j);
  }

  lemma {:induction false} EarliestExists(rows: map<Id, Automation>, eligible: set<Id>) returns (chosen: seq<Id>)
    requires forall i :: i in eligible ==> i in rows && rows[i].nextRunAt.Some?
    ensures IsEarliest(rows, eligible, |eligible|, chosen) && forall i :: i in eligible ==> i in chosen
  {
    var left := eligible;
    chosen := [];
    while left != {}
      invariant Picked(rows, eligible, chosen, left)
      decreases left
    {
      var m := LeastExists(rows, left);
      PickStep(rows, eligible, chosen, left, m);
      chosen := chosen + [m];
      left := left - {m};
    }
  }

  lemma {:induction false} FreshWorker(workers: set<Worker>) returns (w: Worker)
    ensures w !in workers && forall v :: v in workers ==> v < w
    decreases workers
  {
    if workers == {} {
      w := 0;
    } else {
      var v :| v in workers;
      w := FreshWorker(workers - {v});
      if w <= v { w := v + 1; }
      assert forall x :: x in workers ==> x == v || x in workers - {v};
    }
  }

  lemma RunStep(s: System, step: Step, rest: seq<Step>, skipLocked: bool)
    requires Enabled(s, step, skipLocked) && IsRun(Apply(s, step), rest, skipLocked)
    ensures IsRun(s, [step] + rest, skipLocked)
    ensures Reached(s, [step] + rest) == Reached(Apply(s, step), rest)
    ensures NeverReuses(s, [step] + rest) <==> !Reuses(s, step) && NeverReuses(Apply(s, step), rest)
  {
    assert ([step] + rest)[1..] == rest;
  }

  /** A worker can claim an unlocked row that is due, together with all others. */
  lemma ClaimsDueRow(s: System, i: Id) returns (rest: seq<Step>)
    requires i in s.rows && Due(s.rows[i], s.clock) && !Held(s, i)
    ensures var c := (i, s.rows[i].nextRunAt.value);
            IsRun(s, rest, true) && NeverReuses(s, rest) && Reached(s, rest).claims[c] == s.claims[c] + 1
  {
    var eligible := Eligible(s, s.clock, true);
    var w := FreshWorker(s.held.Keys);
    var chosen := EarliestExists(s.rows, eligible);
    var select := Select(w, s.clock, |eligible|, chosen);
    var s' := Apply(s, select);
    assert i in eligible && i in s'.held[w].slots;
    var commit := Commit(w, map j | j in chosen :: None);
    ReturnedOnce(s'.held[w].slots, (i, s.rows[i].nextRunAt.value));
    RunStep(s', commit, [], true);
    RunStep(s, select, [commit] + [], true);
    rest := [select] + ([commit] + []);
  }

  /** An unlocked active row waiting for a slot it was claimed for will be claimed for it again. */
  lemma ReusedIsClaimedAgain(s: System, i: Id)
    requires Reused(s, i) && !Held(s, i)
    ensures CanClaimTwice(s)
  {
    var c := (i, s.rows[i].nextRunAt.value);
    var tick := Tick(if c.1 > s.clock then c.1 else s.clock);
    var more := ClaimsDueRow(Apply(s, tick), i);
    RunStep(s, tick, more, true);
    var rest := [tick] + more;
    assert IsRun(s, rest, true) && NeverReuses(s, rest) && Reached(s, rest).claims[c] > 1;
  }

  /**
   An update or toggle makes a second claim of some slot possible exactly when it writes back a slot the
   row was claimed for, that is, when the next run was computed before a claim and is written after it.
   */
  lemma WriteIsSafeIff(s: System, step: Step)
    requires Inv(s) && Enabled(s, step, true) && (step.Update? || step.Toggle?)
    ensures !CanClaimTwice(Apply(s, step)) <==> !Reuses(s, step)
  {
    var s' := Apply(s, step);
    if Reuses(s, step) {
      ReusedIsClaimedAgain(s', step.id);
    } else {
      StepKeepsInv(s, step);
      forall rest: seq<Step>, c: (Id, int) | IsRun(s', rest, true) && NeverReuses(s', rest)
        ensures Reached(s', rest).claims[c] <= 1
      {
        RunKeepsInv(s', rest);
      }
    }
  }

  // ---------- two runs that claim a slot twice ----------

  lemma StaleFirst(row: Automation, s1: System, s2: System, s3: System)
    requires row == Automation("u", "r", true, None, Some(5))
    requires s1 == System(map["a" := row], map[1 := Selection(7, 7, map["a" := 5])], 7, {Some(5)}, multiset{})
    requires s2 == Apply(s1, Commit(1, map["a" := Some(9)])) && s3 == Apply(s2, Update("a", "r", None, Some(5)))
    ensures Enabled(s1, Commit(1, map["a" := Some(9)]), true) && Enabled(s2, Update("a", "r", None, Some(5)), true)
    ensures s3.rows == map["a" := row.(lastRunAt := Some(7))] && s3.held == map[] && s3.clock == 7
    ensures s3.claims[("a", 5)] == 1
  {
    ReturnedOnce(map["a" := 5], ("a", 5));
  }

  lemma OnlyChoice(s: System, row: Automation, skipLocked: bool)
    requires s.rows == map["a" := row] && row.isActive && row.nextRunAt == Some(5) && (skipLocked ==> s.held == map[])
    ensures IsEarliest(s.rows, Eligible(s, 7, skipLocked), 10, ["a"])
    ensures SlotsSeen(s, ["a"]) == map["a" := 5]
  {
    assert Eligible(s, 7, skipLocked) == {"a"};
  }

  lemma StaleAgain(s: System, row: Automation, steps: seq<Step>)
    requires row == Automation("u", "r", true, Some(7), Some(5))
    requires s.rows == map["a" := row] && s.held == map[] && s.clock == 7 && s.claims[("a", 5)] == 1
    requires steps == [Select(2, 7, 10, ["a"]), Commit(2, map["a" := None])]
    ensures IsRun(s, steps, true) && Reached(s, steps).claims[("a", 5)] == 2
  {
    var select, commit := steps[0], steps[1];
    OnlyChoice(s, row, true);
    var s' := Apply(s, select);
    ReturnedOnce(map["a" := 5], ("a", 5));
    assert s'.held[2].slots == map["a" := 5];
    RunStep(s', commit, [], true);
    RunStep(s, select, [commit] + [], true);
    assert steps == [select] + ([commit] + []);
  }

  /** A run that first creates the row at time 0 and waits until 7. */
  lemma StartWith(row: Automation, rest: seq<Step>, skipLocked: bool)
    requires row == Automation("u", "r", true, None, Some(5))
    requires var s := System(map["a" := row], map[], 7, {Some(5)}, multiset{});
             IsRun(s, rest, skipLocked) && Reached(s, rest).claims[("a", 5)] == 2
    ensures exists steps: seq<Step> ::
              IsRun(Start(0), steps, skipLocked) && Reached(Start(0), steps).claims[("a", 5)] == 2
  {
    var s1 := Apply(Start(0), Compute(Some(5)));
    var s2 := Apply(s1, Insert("a", row));
    assert Apply(s2, Tick(7)) == System(map["a" := row], map[], 7, {Some(5)}, multiset{});
    RunStep(s2, Tick(7), rest, skipLocked);
    RunStep(s1, Insert("a", row), [Tick(7)] + rest, skipLocked);
    RunStep(Start(0), Compute(Some(5)), [Insert("a", row)] + ([Tick(7)] + rest), skipLocked);
  }

  /** A next run computed before a claim and written after it lets the slot be claimed again, locks or not. */
  lemma StaleUpdateClaimsTwice()
    ensures exists steps: seq<Step> ::
              IsRun(Start(0), steps, true) && Reached(Start(0), steps).claims[("a", 5)] == 2
  {
    var row := Automation("u", "r", true, None, Some(5));
    var poll := Selection(7, 7, map["a" := 5]);
    var s0 := System(map["a" := row], map[], 7, {Some(5)}, multiset{});
    var s1 := s0.(held := map[1 := poll]);
    var s2 := Apply(s1, Commit(1, map["a" := Some(9)]));
    var update := Update("a", "r", None, Some(5));
    var s3 := Apply(s2, update);
    var again := [Select(2, 7, 10, ["a"]), Commit(2, map["a" := None])];
    StaleAgain(s3, row.(lastRunAt := Some(7)), again);
    StaleFirst(row, s1, s2, s3);
    RunStep(s2, update, again, true);
    RunStep(s1, Commit(1, map["a" := Some(9)]), [update] + again, true);
    var rest := [Commit(1, map["a" := Some(9)])] + ([update] + again);
    OnlyChoice(s0, row, true);
    assert Apply(s0, Select(1, 7, 10, ["a"])) == s1;
    RunStep(s0, Select(1, 7, 10, ["a"]), rest, true);
    StartWith(row, [Select(1, 7, 10, ["a"])] + rest, true);
  }

  lemma CommitBoth(s: System, poll: Selection) returns (steps: seq<Step>)
    requires poll == Selection(7, 7, map["a" := 5]) && s.held == map[1 := poll, 2 := poll] && s.claims == multiset{}
    ensures IsRun(s, steps, false) && Reached(s, steps).claims[("a", 5)] == 2
  {
    var commit1, commit2 := Commit(1, map["a" := None]), Commit(2, map["a" := None]);
    var s' := Apply(s, commit1);
    ReturnedOnce(poll.slots, ("a", 5));
    assert s'.held[2] == poll && s'.claims[("a", 5)] == 1;
    assert Apply(s', commit2).claims[("a", 5)] == 2;
    RunStep(s', commit2, [], false);
    RunStep(s, commit1, [commit2] + [], false);
    steps := [commit1] + ([commit2] + []);
  }

  lemma ClaimTwice(row: Automation) returns (steps: seq<Step>)
    requires row == Automation("u", "r", true, None, Some(5))
    ensures var s := System(map["a" := row], map[], 7, {Some(5)}, multiset{});
            IsRun(s, steps, false) && Reached(s, steps).claims[("a", 5)] == 2
  {
    var s2 := System(map["a" := row], map[], 7, {Some(5)}, multiset{});
    var poll := Selection(7, 7, map["a" := 5]);
    var s3 := s2.(held := map[1 := poll]);
    var s4 := s2.(held := map[1 := poll, 2 := poll]);
    var select1, select2 := Select(1, 7, 10, ["a"]), Select(2, 7, 10, ["a"]);
    OnlyChoice(s2, row, false);
    OnlyChoice(s3, row, false);
    steps := CommitBoth(s4, poll);
    assert Apply(s3, select2) == s4;
    RunStep(s3, select2, steps, false);
    assert Apply(s2, select1) == s3;
    RunStep(s2, select1, [select2] + steps, false);
    steps := [select1] + ([select2] + steps);
  }

  /** Without row locks two workers can claim the same slot. */
  lemma ClaimedTwiceWithoutLocks()
    ensures exists steps: seq<Step> ::
              IsRun(Start(0), steps, false) && Reached(Start(0), steps).claims[("a", 5)] == 2
  {
    var row := Automation("u", "r", true, None, Some(5));
    var steps := ClaimTwice(row);
    StartWith(row, steps, false);
  }

  // ---------- the table's methods ----------

  lemma RescheduledStep(rows: map<Id, Automation>, done: set<Id>, i: Id, now: int, nexts: map<Id, Option<int>>)
    requires i !in done && i in nexts
    ensures Rescheduled(rows, done + {i}, now, nexts)
         == if i in rows
            then Rescheduled(rows, done, now, nexts)[i := rows[i].(lastRunAt := Some(now), nextRunAt := nexts[i])]
            else Rescheduled(rows, done, now, nexts)
    ensures i in rows ==> Rescheduled(rows, done, now, nexts)[i] == rows[i]
  {
  }

  class AutomationTable {
    var rows: map<Id, Automation>
    var held: map<Worker, Selection>
    var clock: int
    ghost var computed: set<Option<int>>
    ghost var claims: multiset<(Id, int)>

    ghost function State(): System
      reads this
    {
      System(rows, held, clock, computed, claims)
    }

    /** SELECT ... ORDER BY next_run_at LIMIT limit, FOR UPDATE SKIP LOCKED where the dialect has it. */
    method SelectDue(worker: Worker, now: int, limit: nat, skipLocked: bool) returns (chosen: seq<Id>)
      requires worker !in held && now <= clock
      modifies this`held
      ensures Enabled(old(State()), Select(worker, now, limit, chosen), skipLocked)
      ensures State() == Apply(old(State()), Select(worker, now, limit, chosen))
    {
      ghost var s := State();
      var eligible := set i | i in rows && Due(rows[i], now)
                              && !(skipLocked && exists w :: w in held && i in held[w].slots);
      assert eligible == Eligible(s, now, skipLocked);
      chosen := Earliest(eligible, limit);
      held := held[worker := Selection(now, clock, map i | i in chosen :: rows[i].nextRunAt.value)];
      assert held[worker].slots == SlotsSeen(s, chosen);
    }

    method Earliest(eligible: set<Id>, limit: nat) returns (chosen: seq<Id>)
      requires forall i :: i in eligible ==> i in rows && rows[i].nextRunAt.Some?
      ensures IsEarliest(rows, eligible, limit, chosen)
    {
      var left := eligible;
      chosen := [];
      while |chosen| < limit && left != {}
        invariant Picked(rows, eligible, chosen, left) && |chosen| <= limit
        decreases left
      {
        ghost var least := LeastExists(rows, left);
        var m :| m in left && Least(rows, left, m);
        PickStep(rows, eligible, chosen, left, m);
        chosen := chosen + [m];
        left := left - {m};
      }
    }

    /** Advances every selected row, commits and releases the locks; nexts[i] is what next_run_ns yields for row i. */
    method CommitClaims(worker: Worker, nexts: map<Id, Option<int>>)
      requires worker in held && held[worker].slots.Keys <= nexts.Keys
      modifies this`rows, this`held, this`claims
      ensures State() == Apply(old(State()), Commit(worker, nexts))
    {
      Reschedule(held[worker].slots.Keys, held[worker].now, nexts);
      claims := claims + Returned(held[worker].slots);
      held := held - {worker};
    }

    method Reschedule(ids: set<Id>, now: int, nexts: map<Id, Option<int>>)
      requires ids <= nexts.Keys
      modifies this`rows
      ensures rows == Rescheduled(old(rows), ids, now, nexts)
    {
      var left := ids;
      while left != {}
        invariant left <= ids
        invariant rows == Rescheduled(old(rows), ids - left, now, nexts)
        decreases left
      {
        var i :| i in left;
        RescheduledStep(old(rows), ids - left, i, now, nexts);
        assert ids - (left - {i}) == (ids - left) + {i};
        left := left - {i};
        if i in rows {
          rows := rows[i := rows[i].(lastRunAt := Some(now), nextRunAt := nexts[i])];
        }
      }
      assert ids - left == ids;
    }

    method ToggleById(id: Id, next: Option<int>) returns (found: bool)
      modifies this`rows
      ensures State() == Apply(old(State()), Toggle(id, next))
      ensures found <==> id in old(rows)
    {
      if id !in rows { return false; }
      var active := !rows[id].isActive;
      rows := rows[id := rows[id].(isActive := active)];
      rows := rows[id := rows[id].(nextRunAt := if rows[id].isActive then next else None)];
      return true;
    }

    method UpdateById(id: Id, rrule: string, isActive: Option<bool>, next: Option<int>) returns (found: bool)
      modifies this`rows
      ensures State() == Apply(old(State()), Update(id, rrule, isActive, next))
      ensures found <==> id in old(rows)
    {
      if id !in rows { return false; }
      rows := rows[id := rows[id].(rrule := rrule)];
      if isActive.Some? {
        rows := rows[id := rows[id].(isActive := isActive.value)];
      }
      rows := rows[id := rows[id].(nextRunAt := next)];
      return true;
    }
  }
}
