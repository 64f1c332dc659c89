/**
 * Persisted schedule triggers and their advancement past missed fire times.
 *
 * Time is counted in whole microseconds since the Unix epoch, the resolution of
 * the datetimes that the triggers work with.  Cron expressions are given meaning by
 * a calendar: a function from an expression and an instant to the first fire time at
 * or after that instant, about which only the laws in `Lawful` are assumed.
 */
module Triggers {
  import opened Options

  type Micros = int
  type Calendar = (string, Micros) -> Option<Micros>

  const SECOND: Micros := 1_000_000

  // The instants a Python datetime can hold: years 1 to 9999.
  const MIN_DATETIME: Micros := -62_135_596_800 * SECOND
  const MAX_DATETIME: Micros := 253_402_300_800 * SECOND - 1

  const WALK_LIMIT := 100_000
  const HALVINGS := 64

  datatype Trigger =
    | Interval(start: Micros, seconds: int)
    | Date(runAt: Micros)
    | Cron(expression: string)
  {
    /** `build_trigger` refuses an interval that is not a positive number of seconds. */
    predicate Valid() {
      Interval? ==> seconds > 0
    }

    predicate Recurring() {
      !Date?
    }
  }

  /** Latest eligible occurrence and the first occurrence still in the future. */
  datatype TriggerAdvance = TriggerAdvance(latestDue: Option<Micros>, nextRun: Option<Micros>)

  function Max(a: int, b: int): int {
    if a < b then b else a
  }

  function Min(a: int, b: int): int {
    if a < b then a else b
  }

  // ----- What a trigger means: its set of fire times -----

  /** The least fire time at or after `x`. */
  function FirstFire(calendar: Calendar, trigger: Trigger, x: Micros): Option<Micros>
    requires trigger.Valid()
  {
    match trigger
    case Interval(start, seconds) =>
      var period := seconds * SECOND;
      if x <= start then Some(start) else Some(start + (x - start + period - 1) / period * period)
    case Date(runAt) => if x <= runAt then Some(runAt) else None
    case Cron(expression) => calendar(expression, x)
  }

  predicate IsFire(calendar: Calendar, trigger: Trigger, t: Micros)
    requires trigger.Valid()
  {
    FirstFire(calendar, trigger, t) == Some(t)
  }

  /** Asking for the first fire time at or after an instant is monotonic and jitter-free. */
  ghost predicate Lawful(calendar: Calendar, trigger: Trigger) {
    && trigger.Valid()
    && (forall x :: FirstFire(calendar, trigger, x).Some? ==> x <= FirstFire(calendar, trigger, x).value)
    && (forall x, y :: FirstFire(calendar, trigger, x).Some? && x <= y <= FirstFire(calendar, trigger, x).value
          ==> FirstFire(calendar, trigger, y) == FirstFire(calendar, trigger, x))
    && (forall x, y :: FirstFire(calendar, trigger, x).None? && x <= y
          ==> FirstFire(calendar, trigger, y).None?)
  }

  ghost predicate LawfulCalendar(calendar: Calendar) {
    forall expression :: Lawful(calendar, Cron(expression))
  }

  /** The trigger never runs out of fire times. */
  ghost predicate Unending(calendar: Calendar, trigger: Trigger) {
    trigger.Valid() && forall x :: FirstFire(calendar, trigger, x).Some?
  }

  /** `t` is `start` plus a whole number of periods. */
  ghost predicate OnGrid(start: Micros, period: Micros, t: Micros) {
    exists k: nat :: t == start + k * period
  }

  lemma CeilingMultiple(d: int, period: int)
    requires d > 0 && period > 0
    ensures var m := (d + period - 1) / period * period; d <= m < d + period
  {
    var q := (d + period - 1) / period;
    var r := (d + period - 1) % period;
    assert d + period - 1 == period * q + r;
    assert q * period == period * q;
  }

  lemma {:induction false} MultiplesMonotone(a: int, b: int, period: int)
    requires a <= b && period > 0
    ensures a * period <= b * period
    decreases b - a
  {
    if a < b {
      MultiplesMonotone(a, b - 1, period);
      assert b * period == (b - 1) * period + period;
    }
  }

  lemma MultiplesApart(a: int, b: int, period: int)
    requires period > 0 && a * period < b * period
    ensures a * period + period <= b * period
  {
    if b <= a {
      MultiplesMonotone(b, a, period);
    } else {
      MultiplesMonotone(a + 1, b, period);
      assert (a + 1) * period == a * period + period;
    }
  }

  /** The interval trigger obeys the laws; its next fire time is the first grid point. */
  lemma IntervalLawful(calendar: Calendar, start: Micros, seconds: int)
    requires seconds > 0
    ensures Lawful(calendar, Interval(start, seconds))
  {
    var trigger := Interval(start, seconds);
    var period := seconds * SECOND;
    forall x
      ensures FirstFire(calendar, trigger, x).Some? && x <= FirstFire(calendar, trigger, x).value
    {
      if start < x { CeilingMultiple(x - start, period); }
    }
    forall x, y | x <= y <= FirstFire(calendar, trigger, x).value
      ensures FirstFire(calendar, trigger, y) == FirstFire(calendar, trigger, x)
    {
      if start < x {
        CeilingMultiple(x - start, period);
        CeilingMultiple(y - start, period);
        var i := (x - start + period - 1) / period;
        var j := (y - start + period - 1) / period;
        if i * period < j * period { MultiplesApart(i, j, period); }
        if j * period < i * period { MultiplesApart(j, i, period); }
      }
    }
  }

  /** The fire times of an interval are its start plus whole numbers of periods, and no others. */
  lemma IntervalFiresOnGrid(calendar: Calendar, start: Micros, seconds: int, t: Micros)
    requires seconds > 0
    ensures IsFire(calendar, Interval(start, seconds), t) <==> OnGrid(start, seconds * SECOND, t)
  {
    var period := seconds * SECOND;
    if start < t {
      CeilingMultiple(t - start, period);
      var i := (t - start + period - 1) / period;
      if OnGrid(start, period, t) {
        var k: nat :| t == start + k * period;
        if k * period < i * period { MultiplesApart(k, i, period); }
      } else if t == start + i * period {
        assert false;
      }
    } else if t == start {
      assert t == start + 0 * period;
    }
  }

  lemma DateLawful(calendar: Calendar, runAt: Micros)
    ensures Lawful(calendar, Date(runAt))
  {
  }

  lemma EveryTriggerLawful(calendar: Calendar, trigger: Trigger)
    requires LawfulCalendar(calendar) && trigger.Valid()
    ensures Lawful(calendar, trigger)
  {
    match trigger
    case Interval(start, seconds) => IntervalLawful(calendar, start, seconds);
    case Date(runAt) => DateLawful(calendar, runAt);
    case Cron(expression) =>
  }

  /** One period after a fire time of an interval trigger comes the next fire time. */
  lemma IntervalSuccessor(calendar: Calendar, start: Micros, seconds: int, t: Micros)
    requires seconds > 0 && IsFire(calendar, Interval(start, seconds), t)
    ensures FirstFire(calendar, Interval(start, seconds), t + 1) == Some(t + seconds * SECOND)
  {
    var period := seconds * SECOND;
    CeilingMultiple(t + 1 - start, period);
    var j := (t + 1 - start + period - 1) / period;
    if t == start {
      if 1 * period < j * period { MultiplesApart(1, j, period); }
      if j * period < 1 * period { MultiplesApart(j, 1, period); }
    } else {
      CeilingMultiple(t - start, period);
      var i := (t - start + period - 1) / period;
      assert i * period == t - start;
      assert (i + 1) * period == i * period + period;
      if j * period < (i + 1) * period { MultiplesApart(j, i + 1, period); }
      if (i + 1) * period < j * period { MultiplesApart(i + 1, j, period); }
    }
  }

  // ----- How the library is asked for fire times -----

  /** `get_next_fire_time` of the three trigger classes that `build_trigger` builds. */
  function GetNextFireTime(calendar: Calendar, trigger: Trigger, previous: Option<Micros>, now: Micros): Option<Micros>
    requires trigger.Valid()
  {
    match trigger
    case Interval(_, seconds) =>
      if previous.Some? then Some(previous.value + seconds * SECOND) else FirstFire(calendar, trigger, now)
    case Date(runAt) => if previous.Some? then None else Some(runAt)
    case Cron(_) =>
      if previous.None? then FirstFire(calendar, trigger, now)
      else
        var from := Min(now, previous.value + 1);
        FirstFire(calendar, trigger, if from == previous.value then from + 1 else from)
  }

  /** The first fire time of a new or edited schedule; a one-time date may lie in the past. */
  function FirstRunAt(calendar: Calendar, trigger: Trigger, now: Micros): (r: Option<Micros>)
    requires Lawful(calendar, trigger)
    ensures r.Some? ==> IsFire(calendar, trigger, r.value)
    ensures r.Some? && trigger.Recurring() ==> now <= r.value
    ensures Unending(calendar, trigger) ==> r.Some?
  {
    GetNextFireTime(calendar, trigger, None, now)
  }

  /** Stepping from a due fire time always reaches the next fire time, whatever the class. */
  lemma NextFireIsSuccessor(calendar: Calendar, trigger: Trigger, previous: Micros, now: Micros)
    requires trigger.Valid() && IsFire(calendar, trigger, previous) && previous <= now
    ensures GetNextFireTime(calendar, trigger, Some(previous), now) == FirstFire(calendar, trigger, previous + 1)
  {
    if trigger.Interval? {
      IntervalSuccessor(calendar, trigger.start, trigger.seconds, previous);
    }
  }

  // ----- Reference definition of advancement -----

  /** The greatest fire time in [lo, hi], found by scanning every microsecond downwards. */
  function LastFire(calendar: Calendar, trigger: Trigger, lo: Micros, hi: Micros): (r: Option<Micros>)
    requires trigger.Valid()
    ensures r.Some? ==> lo <= r.value <= hi && IsFire(calendar, trigger, r.value)
    ensures forall t :: (if r.Some? then r.value < t else lo <= t) && t <= hi ==> !IsFire(calendar, trigger, t)
    decreases hi - lo
  {
    if hi < lo then None
    else if IsFire(calendar, trigger, hi) then Some(hi)
    else LastFire(calendar, trigger, lo, hi - 1)
  }

  /** How many fire times lie in [lo, hi]. */
  function FireCount(calendar: Calendar, trigger: Trigger, lo: Micros, hi: Micros): nat
    requires trigger.Valid()
    decreases hi - lo
  {
    if hi < lo then 0
    else FireCount(calendar, trigger, lo, hi - 1) + (if IsFire(calendar, trigger, hi) then 1 else 0)
  }

  /**
   * Advancement as the documentation states it: occurrences before the grace cutoff
   * are skipped, the eligible ones collapse to the latest, and the schedule moves to the
   * first occurrence still in the future.
   */
  function Advanced(calendar: Calendar, trigger: Trigger, current: Micros, now: Micros, grace: Micros): TriggerAdvance
    requires trigger.Valid()
  {
    TriggerAdvance(
      LastFire(calendar, trigger, Max(current, now - grace), now),
      FirstFire(calendar, trigger, Max(current, now + 1)))
  }

  /** The greatest fire time of a window is determined by its two defining facts. */
  lemma LastFireUnique(calendar: Calendar, trigger: Trigger, lo: Micros, hi: Micros, t: Micros)
    requires trigger.Valid() && lo <= t <= hi && IsFire(calendar, trigger, t)
    requires forall u :: t < u <= hi ==> !IsFire(calendar, trigger, u)
    ensures LastFire(calendar, trigger, lo, hi) == Some(t)
  {
  }

  /** A window that starts after all its fire times has none. */
  lemma NoFireBefore(calendar: Calendar, trigger: Trigger, lo: Micros, hi: Micros)
    requires Lawful(calendar, trigger)
    requires FirstFire(calendar, trigger, lo).Some? ==> hi < FirstFire(calendar, trigger, lo).value
    ensures forall t :: lo <= t <= hi ==> !IsFire(calendar, trigger, t)
    ensures lo <= hi + 1 ==> FirstFire(calendar, trigger, hi + 1) == FirstFire(calendar, trigger, lo)
  {
    if lo <= hi + 1 && FirstFire(calendar, trigger, lo).None? {
      assert FirstFire(calendar, trigger, hi + 1).None?;
    }
  }

  function Pow2(n: nat): nat {
    if n == 0 then 1 else 2 * Pow2(n - 1)
  }

  lemma Pow2Step(n: nat)
    ensures Pow2(0) == 1
    ensures n > 0 ==> Pow2(n) == 2 * Pow2(n - 1)
  {
  }

  lemma DatetimeWindowFitsHalvings()
    ensures MAX_DATETIME + 1 - MIN_DATETIME <= Pow2(HALVINGS)
  {
    assert Pow2(8) == 256;
    assert Pow2(16) == 65_536 by { Pow2Sum(8, 8); }
    assert Pow2(32) == 4_294_967_296 by { Pow2Sum(16, 16); }
    Pow2Sum(32, 32);
  }

  lemma WindowFits(lower: Micros, now: Micros)
    requires MIN_DATETIME <= lower && now <= MAX_DATETIME
    ensures now + 1 - lower <= Pow2(HALVINGS)
  {
    DatetimeWindowFitsHalvings();
  }

  lemma {:induction false} Pow2Sum(m: nat, n: nat)
    ensures Pow2(m + n) == Pow2(m) * Pow2(n)
  {
    if m > 0 {
      Pow2Sum(m - 1, n);
      assert Pow2(m + n) == 2 * Pow2(m - 1 + n);
    }
  }

  function Midpoint(lower: Micros, upper: Micros): Micros {
    lower + (upper - lower) / 2
  }

  /** The midpoint of a window wider than one halves the bound on its width. */
  lemma MidpointHalves(lower: Micros, upper: Micros, rounds: nat)
    requires 1 < upper - lower <= Pow2(rounds)
    ensures rounds > 0
    ensures var midpoint := Midpoint(lower, upper);
            lower < midpoint < upper && midpoint - lower <= Pow2(rounds - 1) && upper - midpoint <= Pow2(rounds - 1)
  {
  }

  /** Without a previous fire time a recurring trigger is asked for its first one. */
  lemma RecurringAsksForFirst(calendar: Calendar, trigger: Trigger, x: Micros)
    requires trigger.Valid() && trigger.Recurring()
    ensures GetNextFireTime(calendar, trigger, None, x) == FirstFire(calendar, trigger, x)
  {
  }

  /** The end of a binary search of width one pins the latest fire time. */
  lemma SearchEnds(calendar: Calendar, trigger: Trigger, lo: Micros, lower: Micros, now: Micros)
    requires Lawful(calendar, trigger) && lo <= lower <= now
    requires FirstFire(calendar, trigger, lower).Some? && FirstFire(calendar, trigger, lower).value <= now
    requires FirstFire(calendar, trigger, lower + 1).Some? ==> now < FirstFire(calendar, trigger, lower + 1).value
    ensures LastFire(calendar, trigger, lo, now) == FirstFire(calendar, trigger, lower) == Some(lower)
    ensures FirstFire(calendar, trigger, lower + 1) == FirstFire(calendar, trigger, now + 1)
  {
    NoFireBefore(calendar, trigger, lower + 1, now);
    LastFireUnique(calendar, trigger, lo, now, lower);
  }

  /** A window that no fire time falls into is settled before the search. */
  lemma SearchStarts(calendar: Calendar, trigger: Trigger, lo: Micros, now: Micros)
    requires Lawful(calendar, trigger)
    ensures var first := FirstFire(calendar, trigger, lo);
      && ((first.Some? ==> now < first.value) ==>
            LastFire(calendar, trigger, lo, now).None? && FirstFire(calendar, trigger, Max(lo, now + 1)) == first)
      && (first.Some? ==> lo <= first.value && FirstFire(calendar, trigger, first.value) == first)
    ensures FirstFire(calendar, trigger, now + 1).Some? ==> now < FirstFire(calendar, trigger, now + 1).value
  {
    hide FirstFire;
    var first := FirstFire(calendar, trigger, lo);
    if (first.Some? ==> now < first.value) && lo <= now {
      NoFireBefore(calendar, trigger, lo, now);
    }
  }

  /**
   * Advancement by binary search over "first fire at or after".  The window never exceeds
   * the datetime range, so `HALVINGS` rounds always close it.
   */
  method AdvanceRecurring(calendar: Calendar, trigger: Trigger, currentRunAt: Micros, now: Micros, cutoff: Micros)
    returns (advance: TriggerAdvance)
    requires Lawful(calendar, trigger) && trigger.Recurring() && IsFire(calendar, trigger, currentRunAt)
    requires MIN_DATETIME <= currentRunAt && now <= MAX_DATETIME && cutoff <= now
    ensures advance == Advanced(calendar, trigger, currentRunAt, now, now - cutoff)
  {
    assert trigger.Valid();
    hide FirstFire, LastFire, Lawful, Pow2, GetNextFireTime;
    var lo := Max(currentRunAt, cutoff);
    SearchStarts(calendar, trigger, lo, now);
    var firstDue := Some(currentRunAt);
    if currentRunAt < cutoff {
      firstDue := GetNextFireTime(calendar, trigger, None, cutoff);
      RecurringAsksForFirst(calendar, trigger, cutoff);
    }
    assert firstDue == FirstFire(calendar, trigger, lo);
    if firstDue.None? || firstDue.value > now {
      return TriggerAdvance(None, firstDue);
    }

    var latestDue := SearchLatest(calendar, trigger, lo, firstDue.value, now);
    NextFireIsSuccessor(calendar, trigger, latestDue, now);
    var nextFire := GetNextFireTime(calendar, trigger, Some(latestDue), now);
    advance := TriggerAdvance(Some(latestDue), nextFire);
  }

  /** The last due fire time is the first one at or after `lower`, and none is due from `upper` on. */
  ghost predicate Brackets(calendar: Calendar, trigger: Trigger, now: Micros, lower: Micros, upper: Micros, latestDue: Micros)
    requires trigger.Valid()
  {
    && lower < upper <= now + 1
    && FirstFire(calendar, trigger, lower) == Some(latestDue) && latestDue <= now
    && (FirstFire(calendar, trigger, upper).Some? ==> now < FirstFire(calendar, trigger, upper).value)
  }

  lemma BracketNarrows(calendar: Calendar, trigger: Trigger, now: Micros, lower: Micros, upper: Micros, latestDue: Micros, midpoint: Micros)
    requires trigger.Valid() && trigger.Recurring() && lower < midpoint < upper
    requires Brackets(calendar, trigger, now, lower, upper, latestDue)
    ensures var candidate := GetNextFireTime(calendar, trigger, None, midpoint);
      if candidate.Some? && candidate.value <= now then Brackets(calendar, trigger, now, midpoint, upper, candidate.value)
      else Brackets(calendar, trigger, now, lower, midpoint, latestDue)
  {
    RecurringAsksForFirst(calendar, trigger, midpoint);
    hide FirstFire, GetNextFireTime;
  }

  lemma BracketOpens(calendar: Calendar, trigger: Trigger, lo: Micros, firstDue: Micros, now: Micros)
    requires Lawful(calendar, trigger) && FirstFire(calendar, trigger, lo) == Some(firstDue) && firstDue <= now
    ensures lo <= firstDue && Brackets(calendar, trigger, now, firstDue, now + 1, firstDue)
  {
    SearchStarts(calendar, trigger, lo, now);
    hide FirstFire;
  }

  lemma BracketCloses(calendar: Calendar, trigger: Trigger, lo: Micros, now: Micros, lower: Micros, upper: Micros, latestDue: Micros)
    requires Lawful(calendar, trigger) && lo <= lower && upper - lower <= 1
    requires Brackets(calendar, trigger, now, lower, upper, latestDue)
    ensures IsFire(calendar, trigger, latestDue) && latestDue <= now
    ensures LastFire(calendar, trigger, lo, now) == Some(latestDue)
    ensures FirstFire(calendar, trigger, latestDue + 1) == FirstFire(calendar, trigger, now + 1)
  {
    hide FirstFire, LastFire;
    assert lower <= latestDue;
    SearchEnds(calendar, trigger, lo, lower, now);
  }

  /** The halving loop, from the first due fire time to the last. */
  method SearchLatest(calendar: Calendar, trigger: Trigger, lo: Micros, firstDue: Micros, now: Micros) returns (latestDue: Micros)
    requires Lawful(calendar, trigger) && trigger.Recurring() && FirstFire(calendar, trigger, lo) == Some(firstDue)
    requires MIN_DATETIME <= lo && firstDue <= now <= MAX_DATETIME
    ensures IsFire(calendar, trigger, latestDue) && latestDue <= now
    ensures LastFire(calendar, trigger, lo, now) == Some(latestDue)
    ensures FirstFire(calendar, trigger, latestDue + 1) == FirstFire(calendar, trigger, now + 1)
  {
    assert trigger.Valid();
    BracketOpens(calendar, trigger, lo, firstDue, now);
    latestDue := firstDue;
    var lower, upper := firstDue, now + 1;
    WindowFits(lower, now);
    hide FirstFire, LastFire, Lawful, Pow2, GetNextFireTime, Midpoint, Brackets, IsFire;
    for i := 0 to HALVINGS
      invariant lo <= lower && upper - lower <= Pow2(HALVINGS - i)
      invariant Brackets(calendar, trigger, now, lower, upper, latestDue)
    {
      if upper - lower <= 1 { break; }
      MidpointHalves(lower, upper, HALVINGS - i);
      var midpoint := Midpoint(lower, upper);
      BracketNarrows(calendar, trigger, now, lower, upper, latestDue, midpoint);
      var candidate := GetNextFireTime(calendar, trigger, None, midpoint);
      if candidate.Some? && candidate.value <= now {
        latestDue := candidate.value;
        lower := midpoint;
      } else {
        upper := midpoint;
      }
    }
    Pow2Step(0);
    BracketCloses(calendar, trigger, lo, now, lower, upper, latestDue);
  }

  /** Extending a window across a stretch without fire times changes neither summary. */
  lemma {:induction false} WindowExtends(calendar: Calendar, trigger: Trigger, lo: Micros, mid: Micros, hi: Micros)
    requires trigger.Valid() && lo - 1 <= mid <= hi
    requires forall t :: mid < t <= hi ==> !IsFire(calendar, trigger, t)
    ensures LastFire(calendar, trigger, lo, hi) == LastFire(calendar, trigger, lo, mid)
    ensures FireCount(calendar, trigger, lo, hi) == FireCount(calendar, trigger, lo, mid)
    decreases hi - mid
  {
    if mid < hi {
      WindowExtends(calendar, trigger, lo, mid, hi - 1);
    }
  }

  /** The count grows with the window. */
  lemma {:induction false} FireCountMonotone(calendar: Calendar, trigger: Trigger, lo: Micros, mid: Micros, hi: Micros)
    requires trigger.Valid() && mid <= hi
    ensures FireCount(calendar, trigger, lo, mid) <= FireCount(calendar, trigger, lo, hi)
    decreases hi - mid
  {
    if mid < hi {
      FireCountMonotone(calendar, trigger, lo, mid, hi - 1);
    }
  }

  /** The walk starts at the first fire time of its window, or at a one-time date before it. */
  lemma WalkStarts(calendar: Calendar, trigger: Trigger, currentRunAt: Micros, cutoff: Micros, now: Micros)
    requires Lawful(calendar, trigger) && IsFire(calendar, trigger, currentRunAt) && cutoff <= now
    ensures LastFire(calendar, trigger, Max(currentRunAt, cutoff), Max(currentRunAt, cutoff) - 1) == None
    ensures FireCount(calendar, trigger, Max(currentRunAt, cutoff), Max(currentRunAt, cutoff) - 1) == 0
    ensures cutoff <= currentRunAt ==> FirstFire(calendar, trigger, currentRunAt) == Some(currentRunAt)
    ensures now < currentRunAt ==>
      LastFire(calendar, trigger, currentRunAt, now) == None && FireCount(calendar, trigger, currentRunAt, now) == 0
    ensures currentRunAt < cutoff && trigger.Date? ==>
      && GetNextFireTime(calendar, trigger, None, cutoff) == Some(currentRunAt)
      && LastFire(calendar, trigger, cutoff, now) == None && FireCount(calendar, trigger, cutoff, now) == 0
      && FirstFire(calendar, trigger, now + 1) == None
    ensures currentRunAt < cutoff && !trigger.Date? ==>
      GetNextFireTime(calendar, trigger, None, cutoff) == FirstFire(calendar, trigger, cutoff)
    ensures currentRunAt < cutoff && FirstFire(calendar, trigger, cutoff).None? ==>
      && LastFire(calendar, trigger, cutoff, now) == None && FireCount(calendar, trigger, cutoff, now) == 0
      && FirstFire(calendar, trigger, now + 1) == None
  {
    if currentRunAt < cutoff && FirstFire(calendar, trigger, cutoff).None? {
      WalkEnds(calendar, trigger, cutoff, cutoff, now);
    }
  }

  /** Walking from `reached` to its first fire time accounts for everything up to it. */
  lemma WalkStep(calendar: Calendar, trigger: Trigger, lo: Micros, reached: Micros, fire: Micros, now: Micros)
    requires Lawful(calendar, trigger) && lo <= reached && fire <= now
    requires FirstFire(calendar, trigger, reached) == Some(fire)
    ensures reached <= fire
    ensures LastFire(calendar, trigger, lo, fire) == Some(fire)
    ensures FireCount(calendar, trigger, lo, fire) == FireCount(calendar, trigger, lo, reached - 1) + 1
    ensures GetNextFireTime(calendar, trigger, Some(fire), now) == FirstFire(calendar, trigger, fire + 1)
  {
    NoFireBefore(calendar, trigger, reached, fire - 1);
    WindowExtends(calendar, trigger, lo, reached - 1, fire - 1);
    NextFireIsSuccessor(calendar, trigger, fire, now);
  }

  /** Walking past `hi` completes both summaries of the window. */
  lemma WalkEnds(calendar: Calendar, trigger: Trigger, lo: Micros, reached: Micros, hi: Micros)
    requires Lawful(calendar, trigger) && lo <= reached <= hi + 1
    requires FirstFire(calendar, trigger, reached).Some? ==> hi < FirstFire(calendar, trigger, reached).value
    ensures LastFire(calendar, trigger, lo, hi) == LastFire(calendar, trigger, lo, reached - 1)
    ensures FireCount(calendar, trigger, lo, hi) == FireCount(calendar, trigger, lo, reached - 1)
    ensures FirstFire(calendar, trigger, hi + 1) == FirstFire(calendar, trigger, reached)
  {
    NoFireBefore(calendar, trigger, reached, hi);
    WindowExtends(calendar, trigger, lo, reached - 1, hi);
  }

  /**
   * Advancement by walking the fire times one by one, for triggers without a fast path.
   * It gives up exactly when the grace window holds more fire times than its limit.
   */
  method AdvanceByWalking(calendar: Calendar, trigger: Trigger, currentRunAt: Micros, now: Micros, grace: nat)
    returns (advance: Option<TriggerAdvance>)
    requires Lawful(calendar, trigger) && IsFire(calendar, trigger, currentRunAt)
    ensures advance.None? <==> FireCount(calendar, trigger, Max(currentRunAt, now - grace), now) > WALK_LIMIT
    ensures advance.Some? ==> advance.value == Advanced(calendar, trigger, currentRunAt, now, grace)
  {
    hide FirstFire, LastFire, FireCount, GetNextFireTime;
    var cutoff := now - grace;
    ghost var lo := Max(currentRunAt, cutoff);
    // A past one-time date is answered with itself; the cutoff test in the loop skips it.
    ghost var past := trigger.Date? && currentRunAt < cutoff;
    WalkStarts(calendar, trigger, currentRunAt, cutoff, now);
    var candidate := Some(currentRunAt);
    if currentRunAt < cutoff {
      candidate := GetNextFireTime(calendar, trigger, None, cutoff);
      if candidate.None? {
        return Some(TriggerAdvance(None, None));
      }
    }

    var latestDue: Option<Micros> := None;
    var iterations := 0;
    ghost var reached := lo;  // every fire time below it has been walked
    while candidate.Some? && candidate.value <= now
      invariant lo <= reached <= Max(lo, now + 1)
      invariant iterations <= WALK_LIMIT
      invariant latestDue == LastFire(calendar, trigger, lo, reached - 1)
      invariant past ==> reached == lo && (candidate == Some(currentRunAt) || candidate == None) && iterations <= 1
      invariant past && candidate.Some? ==> iterations == 0
      invariant !past ==> candidate == FirstFire(calendar, trigger, reached)
      invariant !past ==> iterations == FireCount(calendar, trigger, lo, reached - 1)
      decreases if candidate.Some? then Max(0, now + 1 - candidate.value) else 0
    {
      var fire := candidate.value;
      if fire >= cutoff {
        latestDue := candidate;
      }
      if past {
        NextOfDate(calendar, trigger, fire, now);
      } else {
        WalkStep(calendar, trigger, lo, reached, fire, now);
        reached := fire + 1;
      }
      candidate := GetNextFireTime(calendar, trigger, candidate, now);
      iterations := iterations + 1;
      if iterations > WALK_LIMIT {
        FireCountMonotone(calendar, trigger, lo, reached - 1, now);
        return None;
      }
    }
    if !past && lo <= now {
      WalkEnds(calendar, trigger, lo, reached, now);
    }
    advance := Some(TriggerAdvance(latestDue, candidate));
  }

  lemma NextOfDate(calendar: Calendar, trigger: Trigger, previous: Micros, now: Micros)
    requires trigger.Date?
    ensures GetNextFireTime(calendar, trigger, Some(previous), now) == None
  {
  }

  /** A one-time date has at most one fire time in any window. */
  lemma {:induction false} DateCount(calendar: Calendar, runAt: Micros, lo: Micros, hi: Micros)
    ensures FireCount(calendar, Date(runAt), lo, hi) <= 1
    ensures hi < runAt ==> FireCount(calendar, Date(runAt), lo, hi) == 0
    decreases hi - lo
  {
    if lo <= hi {
      DateCount(calendar, runAt, lo, hi - 1);
    }
  }

  /** `advance_trigger`: both paths meet the one reference definition, and it never gives up. */
  method AdvanceTrigger(calendar: Calendar, trigger: Trigger, currentRunAt: Micros, now: Micros, graceSeconds: nat)
    returns (advance: TriggerAdvance)
    requires Lawful(calendar, trigger) && IsFire(calendar, trigger, currentRunAt)
    requires MIN_DATETIME <= currentRunAt && now <= MAX_DATETIME
    ensures advance == Advanced(calendar, trigger, currentRunAt, now, graceSeconds * SECOND)
  {
    var cutoff := now - graceSeconds * SECOND;
    if trigger.Recurring() {
      advance := AdvanceRecurring(calendar, trigger, currentRunAt, now, cutoff);
    } else {
      DateCount(calendar, trigger.runAt, Max(currentRunAt, cutoff), now);
      var walked := AdvanceByWalking(calendar, trigger, currentRunAt, now, graceSeconds * SECOND);
      advance := walked.value;
    }
  }

  /** What advancement of a due schedule promises, in the terms its callers use. */
  lemma AdvancedFacts(calendar: Calendar, trigger: Trigger, current: Micros, now: Micros, grace: Micros)
    requires Lawful(calendar, trigger) && IsFire(calendar, trigger, current) && current <= now
    ensures var r := Advanced(calendar, trigger, current, now, grace);
      && (r.latestDue.Some? ==> current <= r.latestDue.value <= now && IsFire(calendar, trigger, r.latestDue.value))
      && (r.nextRun.Some? ==> now < r.nextRun.value && IsFire(calendar, trigger, r.nextRun.value))
      && (Unending(calendar, trigger) ==> r.nextRun.Some?)
      && (trigger.Date? ==> r.nextRun.None?)
  {
    hide FirstFire;
    var next := FirstFire(calendar, trigger, now + 1);
    if next.Some? {
      assert FirstFire(calendar, trigger, next.value) == next;
    }
    if trigger.Date? { DateEnds(calendar, trigger, current, now + 1); }
  }

  lemma FirstFireIsLeast(calendar: Calendar, trigger: Trigger, from: Micros, x: Micros)
    requires Lawful(calendar, trigger) && from <= x && IsFire(calendar, trigger, x)
    ensures FirstFire(calendar, trigger, from).Some? && FirstFire(calendar, trigger, from).value <= x
  {
  }

  lemma IntervalNeverEnds(calendar: Calendar, trigger: Trigger)
    requires trigger.Valid() && trigger.Interval?
    ensures Unending(calendar, trigger)
  {
  }

  lemma DateEnds(calendar: Calendar, trigger: Trigger, t: Micros, x: Micros)
    requires trigger.Valid() && trigger.Date?
    requires IsFire(calendar, trigger, t) && t < x
    ensures FirstFire(calendar, trigger, x).None?
  {
  }

  lemma DateFireIsRunAt(calendar: Calendar, trigger: Trigger, t: Micros)
    requires trigger.Date?
    ensures IsFire(calendar, trigger, t) <==> t == trigger.runAt
  {
  }
}
