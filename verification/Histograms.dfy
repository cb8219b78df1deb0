/**
 Daily and hourly counts. Local days and the local wall clock are any functions of the timestamp, clock
 changes included.
 */
module Histograms {
  import opened Options

  const DAY := 86400
  const HOUR := 3600

  /** The local day, counted from some first one, that a timestamp falls on. */
  type LocalDay = int -> int

  function FixedOffset(offset: int): LocalDay {
    t => (t + offset) / DAY
  }

  datatype Rating = Won | Lost | Unrated

  datatype Feedback = Feedback(createdAt: int, modelId: string, rating: Rating)

  datatype Entry = Entry(day: int, won: nat, lost: nat)

  predicate Qualifies(f: Feedback, modelId: string, rating: Rating) {
    f.modelId == modelId && f.rating == rating
  }

  /** A rated feedback for the model. */
  predicate Counts(f: Feedback, modelId: string) {
    f.modelId == modelId && f.rating != Unrated
  }

  /** Feedbacks for the model with the rating on one of the days from..to. */
  function CountBetween(fs: seq<Feedback>, modelId: string, rating: Rating, day: LocalDay, from: int, to: int): nat {
    if fs == [] then 0
    else
      var last := fs[|fs| - 1];
      CountBetween(fs[..|fs| - 1], modelId, rating, day, from, to)
      + if Qualifies(last, modelId, rating) && from <= day(last.createdAt) <= to then 1 else 0
  }

  function TotalWon(h: seq<Entry>): nat {
    if h == [] then 0 else TotalWon(h[..|h| - 1]) + h[|h| - 1].won
  }

  function TotalLost(h: seq<Entry>): nat {
    if h == [] then 0 else TotalLost(h[..|h| - 1]) + h[|h| - 1].lost
  }

  // ---------- the cutoff never loses a counted day ----------

  function AfterCutoff(fs: seq<Feedback>, cutoff: int): seq<Feedback> {
    if fs == [] then []
    else AfterCutoff(fs[..|fs| - 1], cutoff) + if fs[|fs| - 1].createdAt >= cutoff then [fs[|fs| - 1]] else []
  }

  lemma CountStep(fs: seq<Feedback>, f: Feedback, modelId: string, rating: Rating, day: LocalDay, from: int, to: int)
    ensures CountBetween(fs + [f], modelId, rating, day, from, to)
         == CountBetween(fs, modelId, rating, day, from, to)
            + if Qualifies(f, modelId, rating) && from <= day(f.createdAt) <= to then 1 else 0
  {
    assert (fs + [f])[..|fs|] == fs;
  }

  /** The rows the query returns, with the cutoff taken at `asked`. */
  function Queried(all: seq<Feedback>, days: nat, asked: int): seq<Feedback> {
    if days == 0 then all else AfterCutoff(all, asked - days * DAY)
  }

  predicate InWindow(day: LocalDay, days: nat, now: int, d: int) {
    day(now) - days < d <= day(now)
  }

  /** Nothing dated on one of the last `days` days is older than the rolling cutoff. */
  ghost predicate CutoffPrecedes(day: LocalDay, days: nat, asked: int, now: int) {
    forall t :: InWindow(day, days, now, day(t)) ==> t >= asked - days * DAY
  }

  lemma {:induction false} CutoffKeepsCount(fs: seq<Feedback>, day: LocalDay, days: nat, asked: int, now: int,
                                            modelId: string, rating: Rating, d: int)
    requires days > 0 && CutoffPrecedes(day, days, asked, now) && InWindow(day, days, now, d)
    ensures CountBetween(Queried(fs, days, asked), modelId, rating, day, d, d)
         == CountBetween(fs, modelId, rating, day, d, d)
    decreases |fs|
  {
    if fs != [] {
      var most, last := fs[..|fs| - 1], fs[|fs| - 1];
      var cutoff := asked - days * DAY;
      CutoffKeepsCount(most, day, days, asked, now, modelId, rating, d);
      assert fs == most + [last];
      CountStep(most, last, modelId, rating, day, d, d);
      if last.createdAt >= cutoff {
        assert AfterCutoff(fs, cutoff) == AfterCutoff(most, cutoff) + [last];
        CountStep(AfterCutoff(most, cutoff), last, modelId, rating, day, d, d);
      } else {
        assert AfterCutoff(fs, cutoff) == AfterCutoff(most, cutoff) + [];
        assert AfterCutoff(most, cutoff) + [] == AfterCutoff(most, cutoff);
        assert !InWindow(day, days, now, day(last.createdAt));
      }
    }
  }

  /** Filtering changes no feedback's count on any day of the window. */
  ghost predicate Conserves(day: LocalDay, days: nat, asked: int, now: int) {
    forall fs: seq<Feedback>, modelId, rating, d :: InWindow(day, days, now, d) ==>
      CountBetween(Queried(fs, days, asked), modelId, rating, day, d, d) == CountBetween(fs, modelId, rating, day, d, d)
  }

  lemma LostFeedback(day: LocalDay, days: nat, asked: int, now: int, t: int)
    requires days > 0 && InWindow(day, days, now, day(t)) && t < asked - days * DAY
    ensures !Conserves(day, days, asked, now)
  {
    var fs := [Feedback(t, "m", Won)];
    assert fs[..0] == [];
    assert AfterCutoff(fs, asked - days * DAY) == AfterCutoff(fs[..0], asked - days * DAY) + [];
    assert CountBetween(Queried(fs, days, asked), "m", Won, day, day(t), day(t)) == 0;
    assert CountBetween(fs, "m", Won, day, day(t), day(t)) == 1;
  }

  /** The window loses no feedback exactly for the local-day functions whose window the cutoff precedes. */
  lemma WindowConservesIff(day: LocalDay, days: nat, asked: int, now: int)
    requires days > 0
    ensures Conserves(day, days, asked, now) <==> CutoffPrecedes(day, days, asked, now)
  {
    if CutoffPrecedes(day, days, asked, now) {
      forall fs: seq<Feedback>, modelId, rating, d | InWindow(day, days, now, d)
        ensures CountBetween(Queried(fs, days, asked), modelId, rating, day, d, d)
             == CountBetween(fs, modelId, rating, day, d, d)
      {
        CutoffKeepsCount(fs, day, days, asked, now, modelId, rating, d);
      }
    } else {
      var t :| InWindow(day, days, now, day(t)) && t < asked - days * DAY;
      LostFeedback(day, days, asked, now, t);
    }
  }

  /** At a fixed offset from UTC the window always conserves: the cutoff precedes its first midnight. */
  lemma FixedOffsetConserves(offset: int, days: nat, asked: int, now: int)
    requires days > 0 && asked <= now
    ensures CutoffPrecedes(FixedOffset(offset), days, asked, now)
  {
    forall t | InWindow(FixedOffset(offset), days, now, FixedOffset(offset)(t))
      ensures t >= asked - days * DAY
    {
      var midnight := (FixedOffset(offset)(now) - days + 1) * DAY - offset;
      assert t >= midnight;
    }
  }

  /** Local days when the clocks go back on day 0, which has 25 hours. */
  function LongDay(t: int): int {
    if t < 0 then t / DAY else if t < DAY + HOUR then 0 else (t - HOUR) / DAY
  }

  /** Half an hour before the end of such a day its first feedbacks are lost. */
  lemma LongDayLosesFeedback()
    ensures forall t :: LongDay(t) == 0 <==> 0 <= t < 25 * HOUR
    ensures !Conserves(LongDay, 1, DAY + HOUR / 2, DAY + HOUR / 2)
  {
    LostFeedback(LongDay, 1, DAY + HOUR / 2, DAY + HOUR / 2, 0);
  }

  lemma {:induction false} CountSplit(fs: seq<Feedback>, modelId: string, rating: Rating, day: LocalDay,
                                      from: int, mid: int, to: int)
    requires from <= mid + 1 && mid <= to
    ensures CountBetween(fs, modelId, rating, day, from, to)
         == CountBetween(fs, modelId, rating, day, from, mid) + CountBetween(fs, modelId, rating, day, mid + 1, to)
    decreases |fs|
  {
    if fs != [] {
      CountSplit(fs[..|fs| - 1], modelId, rating, day, from, mid, to);
    }
  }

  lemma {:induction false} CountEmpty(fs: seq<Feedback>, modelId: string, rating: Rating, day: LocalDay,
                                      from: int, to: int)
    requires to < from
    ensures CountBetween(fs, modelId, rating, day, from, to) == 0
    decreases |fs|
  {
    if fs != [] { CountEmpty(fs[..|fs| - 1], modelId, rating, day, from, to); }
  }

  // ---------- the evaluation history ----------

  /** One entry for each consecutive day from `start`, with that day's counts. */
  ghost predicate IsHistory(h: seq<Entry>, fs: seq<Feedback>, modelId: string, day: LocalDay, start: int) {
    forall i :: 0 <= i < |h| ==>
      && h[i].day == start + i
      && h[i].won == CountBetween(fs, modelId, Won, day, start + i, start + i)
      && h[i].lost == CountBetween(fs, modelId, Lost, day, start + i, start + i)
  }

  /** The totals of a history are the counts over its whole window. */
  lemma {:induction false} HistoryConserves(h: seq<Entry>, fs: seq<Feedback>, modelId: string, day: LocalDay,
                                            start: int)
    requires IsHistory(h, fs, modelId, day, start)
    ensures TotalWon(h) == CountBetween(fs, modelId, Won, day, start, start + |h| - 1)
    ensures TotalLost(h) == CountBetween(fs, modelId, Lost, day, start, start + |h| - 1)
    decreases |h|
  {
    if h == [] {
      CountEmpty(fs, modelId, Won, day, start, start - 1);
      CountEmpty(fs, modelId, Lost, day, start, start - 1);
    } else {
      var n := |h| - 1;
      HistoryConserves(h[..n], fs, modelId, day, start);
      CountSplit(fs, modelId, Won, day, start, start + n - 1, start + n);
      CountSplit(fs, modelId, Lost, day, start, start + n - 1, start + n);
    }
  }

  /** The wins and losses counted per day. */
  ghost predicate Tallied(counts: map<int, (nat, nat)>, fs: seq<Feedback>, modelId: string, day: LocalDay) {
    forall d :: && (if d in counts then counts[d].0 else 0) == CountBetween(fs, modelId, Won, day, d, d)
                && (if d in counts then counts[d].1 else 0) == CountBetween(fs, modelId, Lost, day, d, d)
  }

  /** The earliest day with a counted feedback. */
  ghost predicate IsFirstDay(first: Option<int>, fs: seq<Feedback>, modelId: string, day: LocalDay) {
    && (first.None? ==> forall f :: f in fs ==> !Counts(f, modelId))
    && (first.Some? ==>
          && (exists f :: f in fs && Counts(f, modelId)
                          && day(f.createdAt) == first.value)
          && (forall f :: f in fs && Counts(f, modelId) ==>
                first.value <= day(f.createdAt)))
  }

  lemma TallyStep(counts: map<int, (nat, nat)>, fs: seq<Feedback>, f: Feedback, modelId: string, day: LocalDay)
    requires Tallied(counts, fs, modelId, day)
    ensures var d := day(f.createdAt);
            var c := if d in counts then counts[d] else (0, 0);
            Tallied(if !Counts(f, modelId) then counts
                    else counts[d := if f.rating == Won then (c.0 + 1, c.1) else (c.0, c.1 + 1)],
                    fs + [f], modelId, day)
  {
    forall d
      ensures CountBetween(fs + [f], modelId, Won, day, d, d)
           == CountBetween(fs, modelId, Won, day, d, d)
              + if Qualifies(f, modelId, Won) && day(f.createdAt) == d then 1 else 0
      ensures CountBetween(fs + [f], modelId, Lost, day, d, d)
           == CountBetween(fs, modelId, Lost, day, d, d)
              + if Qualifies(f, modelId, Lost) && day(f.createdAt) == d then 1 else 0
    {
      CountStep(fs, f, modelId, Won, day, d, d);
      CountStep(fs, f, modelId, Lost, day, d, d);
    }
  }

  lemma FirstDayStep(first: Option<int>, fs: seq<Feedback>, f: Feedback, modelId: string, day: LocalDay)
    requires IsFirstDay(first, fs, modelId, day)
    ensures var d := day(f.createdAt);
            IsFirstDay(if Counts(f, modelId) && (first.None? || d < first.value) then Some(d) else first,
                       fs + [f], modelId, day)
  {
    assert forall g :: g in fs + [f] <==> g in fs || g == f;
  }

  method Tally(fs: seq<Feedback>, modelId: string, day: LocalDay)
    returns (counts: map<int, (nat, nat)>, first: Option<int>)
    ensures Tallied(counts, fs, modelId, day) && IsFirstDay(first, fs, modelId, day)
  {
    counts, first := map[], None;
    for i := 0 to |fs|
      invariant Tallied(counts, fs[..i], modelId, day) && IsFirstDay(first, fs[..i], modelId, day)
    {
      var f := fs[i];
      assert fs[..i + 1] == fs[..i] + [f];
      TallyStep(counts, fs[..i], f, modelId, day);
      FirstDayStep(first, fs[..i], f, modelId, day);
      if !Counts(f, modelId) { continue; }
      var d := day(f.createdAt);
      var c := if d in counts then counts[d] else (0, 0);
      counts := counts[d := if f.rating == Won then (c.0 + 1, c.1) else (c.0, c.1 + 1)];
      if first.None? || d < first.value { first := Some(d); }
    }
    assert fs[..|fs|] == fs;
  }

  /**
   One entry per day, counting the queried rows; days == 0 means from the first counted feedback to
   today. The clock is read at `asked` for the cutoff and again at `now` for today.
   */
  method EvaluationHistory(all: seq<Feedback>, modelId: string, days: nat, asked: int, now: int, day: LocalDay)
    returns (h: seq<Entry>, ghost start: int)
    ensures IsHistory(h, Queried(all, days, asked), modelId, day, start)
    ensures days > 0 ==> |h| == days && start + days - 1 == day(now)
    ensures days == 0 && h != [] ==> IsFirstDay(Some(start), all, modelId, day) && start + |h| - 1 == day(now)
    ensures days == 0 && h == [] ==> forall f :: f in all && Counts(f, modelId) ==> day(f.createdAt) > day(now)
  {
    var rows := Queried(all, days, asked);
    var counts, first := Tally(rows, modelId, day);
    var today := day(now);
    var from, n := today - (days - 1), days as int;
    if days == 0 && first.Some? {
      from := first.value;
      n := today - first.value + 1;
    }
    start := from;
    h := [];
    var i := 0;
    while i < n
      invariant 0 <= i && (i <= n || i == 0) && |h| == i
      invariant IsHistory(h, rows, modelId, day, from)
    {
      var d := from + i;
      var c := if d in counts then counts[d] else (0, 0);
      h := h + [Entry(d, c.0, c.1)];
      i := i + 1;
    }
  }

  /**
   For a positive number of days the totals are the queried feedbacks dated in the window that ends
   today, and, when the cutoff precedes the window, all feedbacks dated there.
   */
  lemma WindowTotals(h: seq<Entry>, all: seq<Feedback>, modelId: string, days: nat, asked: int, now: int, day: LocalDay)
    requires days > 0 && |h| == days
    requires IsHistory(h, Queried(all, days, asked), modelId, day, day(now) - days + 1)
    ensures TotalWon(h) == CountBetween(Queried(all, days, asked), modelId, Won, day, day(now) - days + 1, day(now))
    ensures TotalLost(h) == CountBetween(Queried(all, days, asked), modelId, Lost, day, day(now) - days + 1, day(now))
    ensures CutoffPrecedes(day, days, asked, now) ==>
              && TotalWon(h) == CountBetween(all, modelId, Won, day, day(now) - days + 1, day(now))
              && TotalLost(h) == CountBetween(all, modelId, Lost, day, day(now) - days + 1, day(now))
  {
    HistoryConserves(h, Queried(all, days, asked), modelId, day, day(now) - days + 1);
    if CutoffPrecedes(day, days, asked, now) {
      forall i | 0 <= i < |h|
        ensures h[i].won == CountBetween(all, modelId, Won, day, h[i].day, h[i].day)
        ensures h[i].lost == CountBetween(all, modelId, Lost, day, h[i].day, h[i].day)
      {
        CutoffKeepsCount(all, day, days, asked, now, modelId, Won, h[i].day);
        CutoffKeepsCount(all, day, days, asked, now, modelId, Lost, h[i].day);
      }
      HistoryConserves(h, all, modelId, day, day(now) - days + 1);
    }
  }

  // ---------- hourly usage ----------

  const MILLI := 1000
  const EARLIEST := 1577836800 * MILLI

  /** _normalize_timestamp, in milliseconds: large values are milliseconds already, implausible ones become `now`. */
  function Normalize(t: int, now: int): int {
    var ms := if t > 10_000_000_000 then t else t * MILLI;
    if ms < EARLIEST || ms > now + DAY * MILLI then now else ms
  }

  /**
   From 2020 on, normalising yields a time between 2020-01-01 (18262 days after the epoch) and a day from now:
   the instant given, in either unit, when that is in the range, and otherwise now. Normalising twice changes
   nothing, and seconds and milliseconds of one instant agree.
   */
  lemma NormalizeMeans(t: int, now: int)
    requires now >= 18262 * 86_400_000
    ensures var r, first, last := Normalize(t, now), 18262 * 86_400_000, now + 86_400_000;
            && first <= r <= last
            && (t > 10_000_000_000 ==> r == if first <= t <= last then t else now)
            && (t <= 10_000_000_000 ==> r == if first <= 1000 * t <= last then 1000 * t else now)
            && Normalize(r, now) == r
            && (10_000_000 < t <= 10_000_000_000 ==> Normalize(1000 * t, now) == r)
  {
  }

  function HourOf(wall: int): int {
    wall / (HOUR * MILLI)
  }

  /**
   Fills in the hours from start to end on the local wall clock, whatever its changes: existing buckets
   stay, missing ones appear empty. Without both ends nothing is filled in. Each end is normalised at a
   clock reading of its own.
   */
  method FillHours(counts: map<int, map<string, nat>>, start: int, end: int, wall: int -> int, now: int, later: int)
    returns (filled: map<int, map<string, nat>>)
    ensures start == 0 || end == 0 ==> filled == counts
    ensures start != 0 && end != 0 ==>
              var first, last := HourOf(wall(Normalize(start, now))), HourOf(wall(Normalize(end, later)));
              forall h :: h in filled <==> h in counts || first <= h <= last
    ensures forall h :: h in filled ==> filled[h] == if h in counts then counts[h] else map[]
  {
    filled := counts;
    if start == 0 || end == 0 { return; }
    var first, stop := HourOf(wall(Normalize(start, now))), wall(Normalize(end, later));
    var current := first;
    while current * HOUR * MILLI <= stop
      invariant first <= current
      invariant current == first || (current - 1) * HOUR * MILLI <= stop
      invariant forall h :: h in filled <==> h in counts || first <= h < current
      invariant forall h :: h in filled ==> filled[h] == if h in counts then counts[h] else map[]
      decreases stop + HOUR * MILLI - current * HOUR * MILLI
    {
      if current !in filled {
        filled := filled[current := map[]];
      }
      current := current + 1;
    }
  }
}
