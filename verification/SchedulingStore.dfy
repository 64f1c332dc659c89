/**
 * The scheduling transactions in the form the program has them: statements that read rows,
 * test them, and write them back to a shared store.  Each method is proved against the
 * transition that the protocol's theorems speak about.
 */
module SchedulingStore {
  import opened Counting
  import opened Options
  import opened Triggers
  import opened ScheduleAggregate
  import opened ScheduleInvariant
  import opened SchedulingProtocol
  import opened SchedulingPolls
  import SchedulingRuns
  import opened SchedulingTheorems

  /** How a call ends: it reports failure, raises and rolls back, or commits. */
  datatype Call = Refused | Raised | Done

  datatype CommandResult = Accepted | NotFound | Conflict | UnknownTask

  function CallOf(outcome: Outcome): (call: Call)
    ensures (call == Refused <==> outcome.Rejected?) && (call == Raised <==> outcome.Aborted?) && (call == Done <==> outcome.Committed?)
  {
    match outcome
    case Rejected => Refused
    case Aborted => Raised
    case Committed(_) => Done
  }

  // ----- Bounded queries -----

  /** Rows are ordered by a list of columns, the first of which counts most. */
  predicate NotAfter(x: seq<int>, y: seq<int>) {
    x == [] || (y != [] && (x[0] < y[0] || (x[0] == y[0] && NotAfter(x[1..], y[1..]))))
  }

  /** A column that may be empty; whether empty ones come first differs between databases. */
  function Column(value: Option<Micros>, emptyFirst: bool): (column: seq<int>)
    ensures |column| == 2
  {
    if value.Some? then [1, value.value] else [if emptyFirst then 0 else 2, 0]
  }

  lemma {:induction false} OrderIsTotal(x: seq<int>, y: seq<int>)
    ensures NotAfter(x, y) || NotAfter(y, x)
  {
    if x != [] && y != [] {
      OrderIsTotal(x[1..], y[1..]);
    }
  }

  lemma {:induction false} OrderIsTransitive(x: seq<int>, y: seq<int>, z: seq<int>)
    requires NotAfter(x, y) && NotAfter(y, z)
    ensures NotAfter(x, z)
  {
    if x != [] && y != [] && z != [] && x[0] == y[0] == z[0] {
      OrderIsTransitive(x[1..], y[1..], z[1..]);
    }
  }

  lemma {:induction false} OrderSkipsEqual(prefix: seq<int>, x: seq<int>, y: seq<int>)
    ensures NotAfter(prefix + x, prefix + y) <==> NotAfter(x, y)
  {
    if prefix != [] {
      OrderSkipsEqual(prefix[1..], x, y);
      assert (prefix + x)[1..] == prefix[1..] + x && (prefix + y)[1..] == prefix[1..] + y;
    } else {
      assert prefix + x == x && prefix + y == y;
    }
  }

  /** A query ordered by `key` and limited to `batch` rows; the order of equal keys is open. */
  ghost predicate IsBatch<Id(!new)>(key: map<Id, seq<int>>, batch: nat, picked: seq<Id>) {
    && |picked| == Min(batch, |key|)
    && (forall i :: 0 <= i < |picked| ==> picked[i] in key)
    && (forall i, j :: 0 <= i < j < |picked| ==> picked[i] != picked[j] && NotAfter(key[picked[i]], key[picked[j]]))
    && (forall id, i :: id in key && id !in picked && 0 <= i < |picked| ==> NotAfter(key[picked[i]], key[id]))
  }

  lemma {:induction false} LeastExists<Id>(key: map<Id, seq<int>>, ids: set<Id>)
    requires ids <= key.Keys && ids != {}
    ensures exists id :: id in ids && forall other :: other in ids ==> NotAfter(key[id], key[other])
  {
    var some :| some in ids;
    var rest := ids - {some};
    OrderIsTotal(key[some], key[some]);
    if rest == {} {
      assert ids == {some};
    } else {
      LeastExists(key, rest);
      var least :| least in rest && forall other :: other in rest ==> NotAfter(key[least], key[other]);
      OrderIsTotal(key[some], key[least]);
      if NotAfter(key[some], key[least]) {
        forall other | other in ids
          ensures NotAfter(key[some], key[other])
        {
          if other != some { OrderIsTransitive(key[some], key[least], key[other]); }
        }
      } else {
        assert forall other :: other in ids ==> NotAfter(key[least], key[other]);
      }
    }
  }

  method SelectBatch<Id(==, !new)>(key: map<Id, seq<int>>, batch: nat) returns (picked: seq<Id>)
    ensures IsBatch(key, batch, picked)
  {
    hide NotAfter;
    picked := [];
    var rest := key.Keys;
    while |picked| < batch && rest != {}
      invariant rest <= key.Keys && |picked| + |rest| == |key| && |picked| <= batch
      invariant forall id :: id in key ==> (id in picked <==> id !in rest)
      invariant forall i :: 0 <= i < |picked| ==> picked[i] in key && picked[i] !in rest
      invariant forall i, j :: 0 <= i < j < |picked| ==> picked[i] != picked[j] && NotAfter(key[picked[i]], key[picked[j]])
      invariant forall id, i :: id in rest && 0 <= i < |picked| ==> NotAfter(key[picked[i]], key[id])
      decreases |rest|
    {
      LeastExists(key, rest);
      var least :| least in rest && forall other :: other in rest ==> NotAfter(key[least], key[other]);
      picked := picked + [least];
      rest := rest - {least};
    }
  }

  // ----- Runs of single transactions -----

  /** Polling the schedules of a shortlist one after the other, up to the first that raises. */
  function PollAll(calendar: Calendar, st: State, ids: seq<string>, generation: int, t: Micros, grace: Micros): State
    requires WellFormed(st)
    ensures WellFormed(PollAll(calendar, st, ids, generation, t, grace))
  {
    if ids == [] then st
    else
      var before := PollAll(calendar, st, ids[..|ids| - 1], generation, t, grace);
      var sid := ids[|ids| - 1];
      if sid in before.aggregates then Put(before, sid, Enqueue(calendar, before.aggregates[sid], generation, t, grace)) else before
  }

  lemma PollNone(calendar: Calendar, st: State, generation: int, t: Micros, grace: Micros)
    requires WellFormed(st)
    ensures PollAll(calendar, st, [], generation, t, grace) == st
  {
  }

  lemma PollNext(calendar: Calendar, st: State, ids: seq<string>, i: nat, generation: int, t: Micros, grace: Micros)
    requires WellFormed(st) && i < |ids|
    ensures var before := PollAll(calendar, st, ids[..i], generation, t, grace);
      PollAll(calendar, st, ids[..i + 1], generation, t, grace) ==
      if ids[i] in before.aggregates then Put(before, ids[i], Enqueue(calendar, before.aggregates[ids[i]], generation, t, grace)) else before
  {
    assert ids[..i + 1][..i] == ids[..i];
  }

  /** The stored trigger is valid and the next run is a datetime and one of its fire times. */
  ghost predicate ReadyToPoll(calendar: Calendar, s: Schedule) {
    && TriggerSound(calendar, s)
    && (s.nextRunAt.Some? ==> MIN_DATETIME <= s.nextRunAt.value)
  }

  lemma ReadyIsWellFormed(calendar: Calendar, st: State)
    requires forall sid :: sid in st.aggregates ==> ReadyToPoll(calendar, st.aggregates[sid].schedule)
    ensures WellFormed(st)
  {
  }

  function Stored(aggregates: map<string, Aggregate>, sid: string): Option<Aggregate> {
    if sid in aggregates then Some(aggregates[sid]) else None
  }

  /** The schedules that are new or different after a change of the store. */
  function ChangedIds(before: map<string, Aggregate>, after: map<string, Aggregate>): set<string> {
    set sid | sid in after && Stored(before, sid) != Some(after[sid])
  }

  lemma NothingChanged(before: map<string, Aggregate>)
    ensures ChangedIds(before, before) == {}
  {
  }

  lemma OneMoreChanged(before: map<string, Aggregate>, after: map<string, Aggregate>, sid: string, next: Aggregate)
    requires Stored(after, sid) == Stored(before, sid) && Stored(before, sid) != Some(next)
    ensures |ChangedIds(before, after[sid := next])| == |ChangedIds(before, after)| + 1
  {
    assert ChangedIds(before, after[sid := next]) == ChangedIds(before, after) + {sid};
  }

  /** A change outside some identifiers and then one within them change both kinds together. */
  lemma ChangesAdd(before: map<string, Aggregate>, between: map<string, Aggregate>, after: map<string, Aggregate>, ids: set<string>)
    requires before.Keys == between.Keys && between.Keys <= after.Keys
    requires forall sid :: sid in ids ==> Stored(between, sid) == Stored(before, sid)
    requires forall sid :: sid !in ids ==> Stored(after, sid) == Stored(between, sid)
    ensures |ChangedIds(before, after)| == |ChangedIds(before, between)| + |ChangedIds(between, after)|
  {
    var first, second := ChangedIds(before, between), ChangedIds(between, after);
    assert first !! second;
    assert ChangedIds(before, after) == first + second;
  }

  lemma OrphanedDiffers(a: Aggregate, now: Micros)
    requires a.schedule.enabled || a.schedule.status != Deleted
    ensures Orphaned(a, now) != a
  {
    assert Orphaned(a, now).schedule.revision == a.schedule.revision + 1;
  }

  function DueIds(aggregates: map<string, Aggregate>, t: Micros): set<string> {
    set sid | sid in aggregates && Shortlisted(aggregates[sid].schedule, t)
  }

  function DueKey(s: Schedule, emptyFirst: bool): seq<int> {
    Column(s.pendingFor, emptyFirst) + Column(s.nextRunAt, emptyFirst)
  }

  /** The due schedules, as many as the batch allows, by their waiting and then their next run. */
  ghost predicate IsShortlist(aggregates: map<string, Aggregate>, t: Micros, batch: nat, emptyFirst: bool, ids: seq<string>) {
    && |ids| == Min(batch, |DueIds(aggregates, t)|)
    && (forall i :: 0 <= i < |ids| ==> ids[i] in DueIds(aggregates, t))
    && (forall i, j :: 0 <= i < j < |ids| ==>
          && ids[i] != ids[j]
          && NotAfter(DueKey(aggregates[ids[i]].schedule, emptyFirst), DueKey(aggregates[ids[j]].schedule, emptyFirst)))
    && (forall sid, i :: sid in DueIds(aggregates, t) && sid !in ids && 0 <= i < |ids| ==>
          NotAfter(DueKey(aggregates[ids[i]].schedule, emptyFirst), DueKey(aggregates[sid].schedule, emptyFirst)))
  }

  /** A shortlist without repetitions gives each of its schedules exactly one transaction. */
  lemma {:induction false} PollAllPerSchedule(calendar: Calendar, st: State, ids: seq<string>, generation: int, t: Micros, grace: Micros, sid: string)
    requires WellFormed(st) && (forall i, j :: 0 <= i < j < |ids| ==> ids[i] != ids[j]) && sid in st.aggregates
    ensures var after := PollAll(calendar, st, ids, generation, t, grace);
      && after.clock == st.clock && after.runtime == st.runtime && after.aggregates.Keys == st.aggregates.Keys
      && after.aggregates[sid] ==
         if sid in ids then Settled(st.aggregates[sid], Enqueue(calendar, st.aggregates[sid], generation, t, grace)) else st.aggregates[sid]
  {
    hide Enqueue;
    if ids != [] {
      var init, last := ids[..|ids| - 1], ids[|ids| - 1];
      PollAllPerSchedule(calendar, st, init, generation, t, grace, sid);
      assert ids == init + [last];
    }
  }

  /** After a poll whose batch covered everything due and raised nowhere, nothing is due at that instant. */
  lemma NothingDueAfterPoll(calendar: Calendar, st: State, ids: seq<string>, generation: int, t: Micros, grace: Micros)
    requires LawfulCalendar(calendar) && StateSound(calendar, st) && WellFormed(st) && t <= st.clock
    requires forall i, j :: 0 <= i < j < |ids| ==> ids[i] != ids[j]
    requires forall sid :: sid in DueIds(st.aggregates, t) ==>
                             sid in ids && !Enqueue(calendar, st.aggregates[sid], generation, t, grace).Aborted?
    ensures DueIds(PollAll(calendar, st, ids, generation, t, grace).aggregates, t) == {}
  {
    hide Sound, Enqueue, PollAll, Shortlisted, GenerationsBounded;
    var after := PollAll(calendar, st, ids, generation, t, grace);
    forall sid | sid in after.aggregates
      ensures !Shortlisted(after.aggregates[sid].schedule, t)
    {
      if sid in st.aggregates {
        PollAllPerSchedule(calendar, st, ids, generation, t, grace, sid);
        if Shortlisted(st.aggregates[sid].schedule, t) {
          assert sid in DueIds(st.aggregates, t);
          PolledIsNotListed(calendar, st.aggregates[sid], generation, st.clock, t, grace);
        } else {
          UnlistedUnchanged(calendar, st.aggregates[sid], generation, st.clock, t, grace);
        }
      } else {
        PollAllKeys(calendar, st, ids, generation, t, grace);
      }
    }
  }

  /**
   * While the transaction of one due schedule raises, polls leave alone every due schedule
   * that has nothing waiting and a later next run, in either order of empty columns.
   */
  lemma RaisingPollStarves(calendar: Calendar, st: State, ids: seq<string>, handled: nat, generation: int, t: Micros, grace: Micros,
                           batch: nat, emptyFirst: bool, raising: string, sid: string)
    requires WellFormed(st) && IsShortlist(st.aggregates, t, batch, emptyFirst, ids) && handled <= |ids|
    requires forall j :: 0 <= j < handled ==>
               ids[j] in st.aggregates && !Enqueue(calendar, st.aggregates[ids[j]], generation, t, grace).Aborted?
    requires raising in DueIds(st.aggregates, t) && Enqueue(calendar, st.aggregates[raising], generation, t, grace).Aborted?
    requires sid in DueIds(st.aggregates, t)
    requires var r, s := st.aggregates[raising].schedule, st.aggregates[sid].schedule;
      r.pendingFor.None? && s.pendingFor.None? && r.nextRunAt.value < s.nextRunAt.value
    ensures var after := PollAll(calendar, st, ids[..handled], generation, t, grace);
      sid in after.aggregates && after.aggregates[sid] == st.aggregates[sid]
  {
    hide Enqueue, PollAll;
    var r, s := DueKey(st.aggregates[raising].schedule, emptyFirst), DueKey(st.aggregates[sid].schedule, emptyFirst);
    assert !NotAfter(s, r) by { LaterIsAfter(st.aggregates[raising].schedule, st.aggregates[sid].schedule, emptyFirst); }
    hide NotAfter, DueKey;
    assert sid !in ids[..handled];
    PollAllPerSchedule(calendar, st, ids[..handled], generation, t, grace, sid);
  }

  /** Schedules are ordered by what waits first; where nothing waits depends on the database. */
  lemma WaitingOrdersFirst(a: Schedule, b: Schedule, emptyFirst: bool)
    ensures a.pendingFor.Some? && b.pendingFor.Some? && a.pendingFor.value < b.pendingFor.value ==>
              NotAfter(DueKey(a, emptyFirst), DueKey(b, emptyFirst)) && !NotAfter(DueKey(b, emptyFirst), DueKey(a, emptyFirst))
    ensures a.pendingFor.None? && b.pendingFor.Some? ==> (NotAfter(DueKey(a, emptyFirst), DueKey(b, emptyFirst)) <==> emptyFirst)
    ensures a.pendingFor.Some? && b.pendingFor.None? ==> (NotAfter(DueKey(a, emptyFirst), DueKey(b, emptyFirst)) <==> !emptyFirst)
  {
    if a.pendingFor.Some? && b.pendingFor.Some? {
      var x, y := [a.pendingFor.value] + Column(a.nextRunAt, emptyFirst), [b.pendingFor.value] + Column(b.nextRunAt, emptyFirst);
      OrderSkipsEqual([1], x, y);
      OrderSkipsEqual([1], y, x);
      assert [1] + x == DueKey(a, emptyFirst) && [1] + y == DueKey(b, emptyFirst);
    }
  }

  lemma LaterIsAfter(earlier: Schedule, later: Schedule, emptyFirst: bool)
    requires earlier.pendingFor.None? && later.pendingFor.None?
    requires earlier.nextRunAt.Some? && later.nextRunAt.Some? && earlier.nextRunAt.value < later.nextRunAt.value
    ensures !NotAfter(DueKey(later, emptyFirst), DueKey(earlier, emptyFirst))
  {
    OrderSkipsEqual(Column(None, emptyFirst) + [1], [later.nextRunAt.value], [earlier.nextRunAt.value]);
    assert Column(None, emptyFirst) + [1] + [later.nextRunAt.value] == DueKey(later, emptyFirst);
    assert Column(None, emptyFirst) + [1] + [earlier.nextRunAt.value] == DueKey(earlier, emptyFirst);
  }

  lemma {:induction false} PollAllKeys(calendar: Calendar, st: State, ids: seq<string>, generation: int, t: Micros, grace: Micros)
    requires WellFormed(st)
    ensures PollAll(calendar, st, ids, generation, t, grace).aggregates.Keys == st.aggregates.Keys
  {
    hide Enqueue;
    if ids != [] {
      PollAllKeys(calendar, st, ids[..|ids| - 1], generation, t, grace);
    }
  }

  function CancelAll(st: State, ids: seq<ExecutionId>, t: Micros): State {
    if ids == [] then st
    else
      var before := CancelAll(st, ids[..|ids| - 1], t);
      var id := ids[|ids| - 1];
      if id.schedule in before.aggregates then Put(before, id.schedule, CancelExpired(before.aggregates[id.schedule], id.at, t)) else before
  }

  lemma CancelNone(st: State, t: Micros)
    ensures CancelAll(st, [], t) == st
  {
  }

  lemma CancelNext(st: State, ids: seq<ExecutionId>, i: nat, t: Micros)
    requires i < |ids|
    ensures var before := CancelAll(st, ids[..i], t);
      CancelAll(st, ids[..i + 1], t) ==
      if ids[i].schedule in before.aggregates
      then Put(before, ids[i].schedule, CancelExpired(before.aggregates[ids[i].schedule], ids[i].at, t)) else before
  {
    assert ids[..i + 1][..i] == ids[..i];
  }

  /** Crashed work of a deleted schedule after its cancellation. */
  function CancelledRow(row: Option<Execution>, t: Micros): Option<Execution> {
    if row.None? then None
    else Some(row.value.(state := Cancelled, retryAt := None, leaseOwner := None, leaseExpiresAt := None, completedAt := Some(t)))
  }

  lemma CancelOneRow(st: State, target: ExecutionId, t: Micros, id: ExecutionId)
    requires target.schedule in st.aggregates
    ensures var after := Put(st, target.schedule, CancelExpired(st.aggregates[target.schedule], target.at, t));
      && RowAt(after, id) == (if id == target && CrashedDeleted(st, t, id) then CancelledRow(RowAt(st, id), t) else RowAt(st, id))
      && (id.schedule in after.aggregates <==> id.schedule in st.aggregates)
      && (id.schedule in st.aggregates && st.aggregates[id.schedule].schedule.status != Deleted ==>
            after.aggregates[id.schedule] == st.aggregates[id.schedule])
      && (id.schedule in st.aggregates ==>
            var s, n := st.aggregates[id.schedule].schedule, after.aggregates[id.schedule].schedule;
            n == s || (target.schedule == id.schedule && s.active == Some(target.at) && n == s.(active := None)))
      && (id == target && CrashedDeleted(st, t, id) ==>
            id.schedule in after.aggregates && after.aggregates[id.schedule].schedule.active != Some(id.at))
  {
  }

  /**
   * A batch of distinct candidates: each ends cancelled and out of its schedule's slot, every
   * other row stays as it was, and so does every living schedule.
   */
  lemma {:induction false} CancelAllExactly(st: State, ids: seq<ExecutionId>, t: Micros, id: ExecutionId)
    requires Distinct(ids) && forall i :: 0 <= i < |ids| ==> CrashedDeleted(st, t, ids[i])
    ensures var after := CancelAll(st, ids, t);
      && RowAt(after, id) == (if id in ids then CancelledRow(RowAt(st, id), t) else RowAt(st, id))
      && (id.schedule in after.aggregates <==> id.schedule in st.aggregates)
      && (id.schedule in st.aggregates && st.aggregates[id.schedule].schedule.status != Deleted ==>
            after.aggregates[id.schedule] == st.aggregates[id.schedule])
      && (id.schedule in st.aggregates ==>
            var s, n := st.aggregates[id.schedule].schedule, after.aggregates[id.schedule].schedule;
            n == s || n == s.(active := None))
      && (id in ids ==> id.schedule in after.aggregates && after.aggregates[id.schedule].schedule.active != Some(id.at))
  {
    if ids != [] {
      var init, last := ids[..|ids| - 1], ids[|ids| - 1];
      CancelAllExactly(st, init, t, id);
      CancelAllExactly(st, init, t, last);
      var before := CancelAll(st, init, t);
      assert ids == init + [last];
      assert last !in init;
      hide CancelExpired, CancelAll, RowAt, Put, CancelledRow;
      assert CrashedDeleted(before, t, last) by { StillCrashed(st, before, t, last); }
      CancelOneRow(before, last, t, id);
      CancelStep(st, ids, t);
    }
  }

  lemma CancelStep(st: State, ids: seq<ExecutionId>, t: Micros)
    requires ids != []
    ensures var before, id := CancelAll(st, ids[..|ids| - 1], t), ids[|ids| - 1];
      CancelAll(st, ids, t) ==
      if id.schedule in before.aggregates then Put(before, id.schedule, CancelExpired(before.aggregates[id.schedule], id.at, t)) else before
  {
  }

  lemma StillCrashed(st: State, before: State, t: Micros, id: ExecutionId)
    requires CrashedDeleted(st, t, id) && RowAt(before, id) == RowAt(st, id) && id.schedule in before.aggregates
    requires before.aggregates[id.schedule].schedule.status == st.aggregates[id.schedule].schedule.status
    ensures CrashedDeleted(before, t, id)
  {
  }

  class Store {
    var clock: Micros
    var runtime: Option<Runtime>
    var aggregates: map<string, Aggregate>

    function Contents(): State
      reads this
    {
      State(clock, runtime, aggregates)
    }

    constructor (now: Micros)
      ensures Contents() == State(now, None, map[])
    {
      clock, runtime, aggregates := now, None, map[];
    }

    /** `ensure_runtime_state`: `None` when a live lease forbids the switch. */
    method EnsureRuntimeState(provider: Provider) returns (generation: Option<int>)
      modifies this`runtime, this`aggregates
      ensures Contents() == EnsuredRuntime(old(Contents()), provider)
      ensures generation == if runtime.value.provider == provider then Some(runtime.value.generation) else None
      ensures generation.None? <==> old(runtime).Some? && old(runtime).value.provider != provider && LeaseLiveSomewhere(old(Contents()))
    {
      if runtime.None? {
        runtime := Some(Runtime(provider, 1));
      }
      if runtime.value.provider == provider {
        return Some(runtime.value.generation);
      }
      if exists sid :: sid in aggregates &&
                       exists at :: at in aggregates[sid].executions && aggregates[sid].executions[at].LeaseLive(clock)
      {
        return None;
      }
      var next := runtime.value.generation + 1;
      runtime := Some(Runtime(provider, next));
      aggregates := map sid | sid in aggregates :: Regenerate(aggregates[sid], next);
      generation := Some(next);
    }

    /** One schedule of a poll's shortlist, in its own transaction. */
    method PollOne(calendar: Calendar, sid: string, generation: int, t: Micros, graceSeconds: nat) returns (call: Call)
      requires LawfulCalendar(calendar) && t <= MAX_DATETIME
      requires sid in aggregates ==> ReadyToPoll(calendar, aggregates[sid].schedule)
      modifies this`aggregates
      ensures Contents() == (if sid in old(aggregates)
                             then Put(old(Contents()), sid, Enqueue(calendar, old(aggregates[sid]), generation, t, graceSeconds * SECOND))
                             else old(Contents()))
      ensures call == CallOf(if sid in old(aggregates)
                             then Enqueue(calendar, old(aggregates[sid]), generation, t, graceSeconds * SECOND) else Rejected)
    {
      hide FirstFire, Advanced;
      if sid !in aggregates { return Refused; }
      var schedule := aggregates[sid].schedule;
      if !schedule.enabled || schedule.status != Active { return Refused; }
      var due := schedule.nextRunAt.Some? && schedule.nextRunAt.value <= t;
      var pendingDue := schedule.pendingFor.Some? && schedule.pendingFor.value <= t;
      if !due && !pendingDue { return Refused; }

      var nextRunAt := schedule.nextRunAt;
      var latestDueAt := if pendingDue then schedule.pendingFor else None;
      if due {
        EveryTriggerLawful(calendar, schedule.trigger);
        var advance := AdvanceTrigger(calendar, schedule.trigger, schedule.nextRunAt.value, t, graceSeconds);
        nextRunAt := advance.nextRun;
        if advance.latestDue.Some? && (latestDueAt.None? || latestDueAt.value < advance.latestDue.value) {
          latestDueAt := advance.latestDue;
        }
      }
      assert nextRunAt == PollAdvance(calendar, schedule, t, graceSeconds * SECOND).nextRun;
      assert latestDueAt == PollOccurrence(calendar, schedule, t, graceSeconds * SECOND);

      var executions := aggregates[sid].executions;
      schedule := schedule.(nextRunAt := nextRunAt);
      if latestDueAt.None? {
        if nextRunAt.None? && schedule.active.None? {
          schedule := schedule.(status := ScheduleStatus.Completed);
        }
      } else if schedule.active.Some? {
        schedule := schedule.(pendingFor := latestDueAt);
      } else {
        if latestDueAt.value in executions { return Raised; }
        schedule := schedule.(pendingFor := None, active := latestDueAt);
        executions := executions[latestDueAt.value := NewExecution(schedule.task, generation, t)];
      }
      aggregates := aggregates[sid := Aggregate(schedule, executions)];
      call := Done;
    }

    /** The advisory shortlist of due schedules, ordered by the waiting and the next run. */
    method DueShortlist(t: Micros, batch: nat, emptyFirst: bool) returns (ids: seq<string>)
      ensures IsShortlist(aggregates, t, batch, emptyFirst, ids)
    {
      var key := map sid | sid in DueIds(aggregates, t) :: DueKey(aggregates[sid].schedule, emptyFirst);
      assert key.Keys == DueIds(aggregates, t) && |key.Keys| == |key|;
      hide NotAfter, DueKey;
      ids := SelectBatch(key, batch);
    }

    /**
     * `enqueue_due_schedules`: an advisory shortlist, then one transaction for each schedule
     * on it.  `handled` is the index of the first listed schedule whose transaction raises;
     * that schedule and all listed after it stay as they were, and so stay due.
     */
    method EnqueueDueSchedules(calendar: Calendar, generation: int, t: Micros, graceSeconds: nat, batch: nat,
                               emptyFirst: bool)
      returns (ids: seq<string>, handled: nat)
      requires LawfulCalendar(calendar) && t <= MAX_DATETIME
      requires forall sid :: sid in aggregates ==> ReadyToPoll(calendar, aggregates[sid].schedule)
      modifies this`aggregates
      ensures IsShortlist(old(aggregates), t, batch, emptyFirst, ids)
      ensures handled <= |ids| && WellFormed(old(Contents()))
      ensures Contents() == PollAll(calendar, old(Contents()), ids[..handled], generation, t, graceSeconds * SECOND)
      ensures forall j :: 0 <= j < |ids| ==> ids[j] in old(aggregates) && ReadyToPoll(calendar, old(aggregates)[ids[j]].schedule)
      ensures forall j :: 0 <= j < handled ==> !Enqueue(calendar, old(aggregates)[ids[j]], generation, t, graceSeconds * SECOND).Aborted?
      ensures handled < |ids| ==> Enqueue(calendar, old(aggregates)[ids[handled]], generation, t, graceSeconds * SECOND).Aborted?
      ensures forall j :: handled <= j < |ids| ==> ids[j] in aggregates && aggregates[ids[j]] == old(aggregates)[ids[j]]
    {
      hide FirstFire, Enqueue, PollAll, Shortlisted, TriggerSound, NotAfter;
      ids := DueShortlist(t, batch, emptyFirst);
      ReadyIsWellFormed(calendar, Contents());
      PollNone(calendar, Contents(), generation, t, graceSeconds * SECOND);
      hide ReadyToPoll;
      handled := 0;
      assert ids[..0] == [];
      while handled < |ids|
        invariant handled <= |ids| && clock == old(clock) && runtime == old(runtime)
        invariant Contents() == PollAll(calendar, old(Contents()), ids[..handled], generation, t, graceSeconds * SECOND)
        invariant aggregates.Keys == old(aggregates).Keys
        invariant forall i :: handled <= i < |ids| ==> aggregates[ids[i]] == old(aggregates)[ids[i]]
        invariant forall i :: 0 <= i < handled ==>
                                !Enqueue(calendar, old(aggregates)[ids[i]], generation, t, graceSeconds * SECOND).Aborted?
      {
        var sid := ids[handled];
        PollNext(calendar, old(Contents()), ids, handled, generation, t, graceSeconds * SECOND);
        var call := PollOne(calendar, sid, generation, t, graceSeconds);
        if call.Raised? { return; }
        handled := handled + 1;
      }
    }

    /** `_claim_execution`, entered with a candidate that another transaction may have taken. */
    method ClaimLocked(id: ExecutionId, generation: int, owner: Owner, lease: Micros) returns (claim: Option<ClaimedExecution>)
      modifies this`aggregates
      ensures id.schedule in old(aggregates) ==>
                Contents() == Put(old(Contents()), id.schedule, Claim(old(aggregates)[id.schedule], id.at, generation, owner, lease, clock))
      ensures id.schedule !in old(aggregates) ==> Contents() == old(Contents())
      ensures claim.Some? <==>
              id.schedule in old(aggregates) && Claim(old(aggregates)[id.schedule], id.at, generation, owner, lease, clock).Committed?
      ensures claim.Some? ==>
                && claim.value.id == id && claim.value.owner == owner
                && var row := aggregates[id.schedule].executions[id.at];
                claim.value.attempt == row.attempt && claim.value.task == row.task && row.HeldBy(owner)
    {
      if id.schedule !in aggregates { return None; }
      var a := aggregates[id.schedule];
      if a.schedule.status == Deleted || a.schedule.active != Some(id.at) { return None; }
      if id.at !in a.executions { return None; }
      var row := a.executions[id.at];
      if row.generation != generation || !row.Open() || !ReachedOrEmpty(row.retryAt, clock) || !ReachedOrEmpty(row.leaseExpiresAt, clock) {
        return None;
      }
      row := row.(state := Running, dispatch := Sent, dispatchedAt := Some(clock), attempt := row.attempt + 1, retryAt := None);
      row := row.(leaseOwner := Some(owner), leaseExpiresAt := Some(clock + lease), startedAt := Some(clock));
      aggregates := aggregates[id.schedule := WithRow(a, id.at, row)];
      claim := Some(ClaimedExecution(id, row.task, row.attempt, owner));
    }

    /** `claim_execution`: lease the oldest runnable execution of the generation. */
    method ClaimExecution(calendar: Calendar, generation: int, owner: Owner, lease: Micros) returns (claim: Option<ClaimedExecution>)
      requires StateSound(calendar, Contents())
      modifies this`aggregates
      ensures claim.Some? <==> exists id :: Runnable(old(Contents()), generation, id)
      ensures claim.None? ==> Contents() == old(Contents())
      ensures claim.Some? ==>
                && claim.value.owner == owner && Runnable(old(Contents()), generation, claim.value.id)
                && Contents() == Put(old(Contents()), claim.value.id.schedule,
                                     Claim(old(aggregates)[claim.value.id.schedule], claim.value.id.at, generation, owner, lease, clock))
                && forall id :: Runnable(old(Contents()), generation, id) ==>
                     CreatedAt(old(Contents()), claim.value.id) <= CreatedAt(old(Contents()), id)
    {
      hide Sound, Claim, RowAt, Claimable;
      var candidate := OldestRunnable(generation);
      assert Contents() == old(Contents());
      if candidate.None? { return None; }
      RunnableGetsClaimed(calendar, Contents(), generation, candidate.value, owner, lease);
      claim := ClaimLocked(candidate.value, generation, owner, lease);
    }

    /** The candidate query of `claim_execution`. */
    method OldestRunnable(generation: int) returns (candidate: Option<ExecutionId>)
      ensures candidate.Some? <==> exists id :: Runnable(Contents(), generation, id)
      ensures candidate.Some? ==>
                && Runnable(Contents(), generation, candidate.value)
                && forall id :: Runnable(Contents(), generation, id) ==> CreatedAt(Contents(), candidate.value) <= CreatedAt(Contents(), id)
    {
      RowIdsAreRows(Contents());
      RunnableIsRow(Contents(), generation);
      hide RowIds, Runnable, RowAt, CreatedAt;
      var key := map id | id in RowIds(Contents()) && Runnable(Contents(), generation, id) :: [CreatedAt(Contents(), id)];
      assert forall id :: Runnable(Contents(), generation, id) ==> id in key;
      var candidates := SelectBatch(key, 1);
      if candidates == [] {
        BatchCoversAll(key, 1, candidates);
        return None;
      }
      assert candidates[0] in key && Runnable(Contents(), generation, candidates[0]);
      candidate := Some(candidates[0]);
    }

    /** `refresh_execution_lease`. */
    method RefreshExecutionLease(claim: ClaimedExecution, lease: Micros) returns (renewed: bool)
      modifies this`aggregates
      ensures var sid := claim.id.schedule;
        if sid in old(aggregates) then
          var outcome := Refresh(old(aggregates)[sid], claim.id.at, claim.owner, lease, clock);
          Contents() == Put(old(Contents()), sid, outcome) && (renewed <==> outcome.Committed?)
        else Contents() == old(Contents()) && !renewed
    {
      var sid, at := claim.id.schedule, claim.id.at;
      if sid !in aggregates || at !in aggregates[sid].executions { return false; }
      var row := aggregates[sid].executions[at];
      if row.state != Running || row.leaseOwner != Some(claim.owner) { return false; }
      row := row.(leaseExpiresAt := Some(clock + lease));
      aggregates := aggregates[sid := WithRow(aggregates[sid], at, row)];
      renewed := true;
    }

    /** `_release_schedule_execution` on the rows a transaction is working on. */
    static method ReleaseSlot(a: Aggregate, generation: int, terminal: ScheduleStatus, now: Micros) returns (outcome: Outcome)
      ensures outcome == Release(a, generation, terminal, now)
    {
      var schedule := a.schedule.(active := None);
      var executions := a.executions;
      if schedule.status != Deleted {
        if schedule.pendingFor.Some? {
          var pending := schedule.pendingFor.value;
          schedule := schedule.(pendingFor := None);
          if pending in executions { return Aborted; }
          executions := executions[pending := NewExecution(schedule.task, generation, now)];
          schedule := schedule.(active := Some(pending));
        } else if schedule.nextRunAt.None? {
          schedule := schedule.(status := terminal);
        }
      }
      outcome := Committed(Aggregate(schedule, executions));
    }

    /** `complete_execution`. */
    method CompleteExecution(claim: ClaimedExecution, generation: int) returns (call: Call)
      modifies this`aggregates
      ensures var sid := claim.id.schedule;
        if sid in old(aggregates) then
          var outcome := Complete(old(aggregates)[sid], claim.id.at, generation, claim.owner, clock);
          Contents() == Put(old(Contents()), sid, outcome) && call == CallOf(outcome)
        else Contents() == old(Contents()) && call == Refused
    {
      var sid, at := claim.id.schedule, claim.id.at;
      if sid !in aggregates { return Refused; }
      var a := aggregates[sid];
      if at !in a.executions { return Refused; }
      var row := a.executions[at];
      if row.generation != generation || row.state != Running || row.leaseOwner != Some(claim.owner) { return Refused; }
      row := row.(state := Succeeded, completedAt := Some(clock), leaseOwner := None, leaseExpiresAt := None);
      var outcome := Committed(WithRow(a, at, row));
      if a.schedule.active == Some(at) {
        outcome := ReleaseSlot(outcome.after, generation, ScheduleStatus.Completed, clock);
      }
      if outcome.Aborted? { return Raised; }
      aggregates := aggregates[sid := outcome.after];
      call := Done;
    }

    /** `fail_execution`. */
    method FailExecution(claim: ClaimedExecution, generation: int, policy: RetryPolicy) returns (call: Call)
      requires claim.attempt >= 1
      modifies this`aggregates
      ensures var sid := claim.id.schedule;
        if sid in old(aggregates) then
          var outcome := Fail(old(aggregates)[sid], claim.id.at, claim.attempt, generation, claim.owner, policy, clock);
          Contents() == Put(old(Contents()), sid, outcome) && call == CallOf(outcome)
        else Contents() == old(Contents()) && call == Refused
    {
      var sid, at := claim.id.schedule, claim.id.at;
      if sid !in aggregates { return Refused; }
      var a := aggregates[sid];
      var retry := claim.attempt < policy.maxAttempts && a.schedule.status != Deleted;
      if at !in a.executions { return Refused; }
      var row := a.executions[at];
      if row.generation != generation || row.state != Running || row.leaseOwner != Some(claim.owner) { return Refused; }
      row := row.(leaseOwner := None, leaseExpiresAt := None);
      if retry {
        var delay := RetryDelay(policy, claim.attempt);
        row := row.(state := RetryWait, dispatch := Unsent, dispatchedAt := None, retryAt := Some(clock + delay));
      } else {
        row := row.(state := ExecutionState.Failed, completedAt := Some(clock));
      }
      var outcome := Committed(WithRow(a, at, row));
      if !retry && a.schedule.active == Some(at) {
        outcome := ReleaseSlot(outcome.after, generation, ScheduleStatus.Failed, clock);
      }
      if outcome.Aborted? { return Raised; }
      aggregates := aggregates[sid := outcome.after];
      call := Done;
    }

    /**
     * `run_claimed_execution`: the contract and attempt gate, then task code, whose success is
     * the parameter `succeeds`, then its outcome.  `ran` tells whether task code was started.
     */
    method RunClaimedExecution(claim: ClaimedExecution, generation: int, registry: map<string, Registration>, succeeds: bool)
      returns (ran: bool, call: Call)
      requires claim.attempt >= 1
      modifies this`aggregates
      ensures ran <==>
              && claim.task.name in registry && registry[claim.task.name].contractVersion == claim.task.contractVersion
              && claim.attempt <= registry[claim.task.name].retry.maxAttempts
      ensures ran <==> PassesGate(registry, claim.task, claim.attempt)
      ensures var sid := claim.id.schedule;
        if sid !in old(aggregates) then Contents() == old(Contents()) && call == Refused
        else
          var known := claim.task.name in registry && registry[claim.task.name].contractVersion == claim.task.contractVersion;
          var policy := if known then registry[claim.task.name].retry else RetryPolicy(1, 1, 1);
          var completed := Complete(old(aggregates)[sid], claim.id.at, generation, claim.owner, clock);
          var failed := Fail(old(aggregates)[sid], claim.id.at, claim.attempt, generation, claim.owner, policy, clock);
          var outcome := if ran && succeeds && !completed.Aborted? then completed else failed;
          Contents() == Put(old(Contents()), sid, outcome) && call == CallOf(outcome)
    {
      if claim.task.name !in registry || registry[claim.task.name].contractVersion != claim.task.contractVersion {
        call := FailExecution(claim, generation, RetryPolicy(1, 1, 1));
        return false, call;
      }
      var registration := registry[claim.task.name];
      if claim.attempt > registration.retry.maxAttempts {
        call := FailExecution(claim, generation, registration.retry);
        return false, call;
      }
      ran := true;
      var raised := !succeeds;
      if succeeds {
        call := CompleteExecution(claim, generation);
        raised := call.Raised?;
      }
      if raised {
        call := FailExecution(claim, generation, registration.retry);
      }
    }

    /** `cancel_expired_deleted_executions`: one bounded batch, each in its own transaction. */
    method CancelExpiredDeletedExecutions(t: Micros, batch: nat) returns (ids: seq<ExecutionId>)
      modifies this`aggregates
      ensures forall i :: 0 <= i < |ids| ==> CrashedDeleted(old(Contents()), t, ids[i])
      ensures |ids| <= batch && (|ids| < batch ==> forall id :: CrashedDeleted(old(Contents()), t, id) ==> id in ids)
      ensures forall id, i :: CrashedDeleted(old(Contents()), t, id) && id !in ids && 0 <= i < |ids| ==>
                                LeaseEnd(old(Contents()), ids[i]) <= LeaseEnd(old(Contents()), id)
      ensures Distinct(ids) && Contents() == CancelAll(old(Contents()), ids, t)
      ensures forall id :: RowAt(Contents(), id) ==
                if id in ids then CancelledRow(RowAt(old(Contents()), id), t) else RowAt(old(Contents()), id)
      ensures forall id :: id in ids ==> id.schedule in aggregates && aggregates[id.schedule].schedule.active != Some(id.at)
    {
      ghost var before := Contents();
      ids := SelectCrashed(t, batch);
      hide CancelExpired, CancelAll, Put, CancelledRow, CrashedDeleted, RowAt, LeaseEnd;
      assert ids[..0] == [];
      CancelNone(Contents(), t);
      var i := 0;
      while i < |ids|
        invariant i <= |ids| && clock == old(clock) && runtime == old(runtime)
        invariant Contents() == CancelAll(old(Contents()), ids[..i], t)
      {
        CancelNext(old(Contents()), ids, i, t);
        CancelOne(ids[i], t);
        i := i + 1;
      }
      assert ids[..i] == ids;
      forall id
        ensures RowAt(Contents(), id) == if id in ids then CancelledRow(RowAt(before, id), t) else RowAt(before, id)
        ensures id in ids ==> id.schedule in aggregates && aggregates[id.schedule].schedule.active != Some(id.at)
      {
        CancelAllExactly(before, ids, t, id);
      }
    }

    /** The candidate query: crashed work of deleted schedules, those whose lease ended first. */
    method SelectCrashed(t: Micros, batch: nat) returns (ids: seq<ExecutionId>)
      ensures Distinct(ids) && forall i :: 0 <= i < |ids| ==> CrashedDeleted(Contents(), t, ids[i])
      ensures |ids| <= batch && (|ids| < batch ==> forall id :: CrashedDeleted(Contents(), t, id) ==> id in ids)
      ensures forall id, i :: CrashedDeleted(Contents(), t, id) && id !in ids && 0 <= i < |ids| ==>
                                LeaseEnd(Contents(), ids[i]) <= LeaseEnd(Contents(), id)
    {
      RowIdsAreRows(Contents());
      hide RowIds, LeaseEnd;
      var key := map id | id in RowIds(Contents()) && CrashedDeleted(Contents(), t, id) :: [LeaseEnd(Contents(), id)];
      assert forall id :: CrashedDeleted(Contents(), t, id) ==> id in key;
      ids := SelectBatch(key, batch);
      if |ids| < batch {
        BatchCoversAll(key, batch, ids);
      }
    }

    /** One candidate of the batch, rechecked under its schedule's lock. */
    method CancelOne(id: ExecutionId, t: Micros)
      modifies this`aggregates
      ensures Contents() == if id.schedule in old(aggregates)
                            then Put(old(Contents()), id.schedule, CancelExpired(old(aggregates)[id.schedule], id.at, t))
                            else old(Contents())
    {
      var sid, at := id.schedule, id.at;
      if sid !in aggregates || aggregates[sid].schedule.status != Deleted || at !in aggregates[sid].executions { return; }
      var a := aggregates[sid];
      var row := a.executions[at];
      if row.state != Running || row.leaseExpiresAt.None? || t < row.leaseExpiresAt.value { return; }
      row := row.(state := Cancelled, retryAt := None, leaseOwner := None, leaseExpiresAt := None, completedAt := Some(t));
      var schedule := a.schedule;
      if schedule.active == Some(at) {
        schedule := schedule.(active := None);
      }
      aggregates := aggregates[sid := Aggregate(schedule, a.executions[at := row])];
    }

    /** `pending_dispatches`: recover crashed and undelivered work, then list what awaits delivery. */
    method PendingDispatches(generation: int, t: Micros, timeout: Micros, batch: nat)
      returns (cancelled: seq<ExecutionId>, listed: seq<ExecutionId>)
      modifies this`aggregates
      ensures forall i :: 0 <= i < |cancelled| ==> CrashedDeleted(old(Contents()), t, cancelled[i])
      ensures var recovered := CancelAll(old(Contents()), cancelled, t);
        Contents() == recovered.(aggregates := map sid | sid in recovered.aggregates :: Requeue(recovered.aggregates[sid], generation, t, timeout))
      ensures forall i :: 0 <= i < |listed| ==> Listable(Contents(), generation, t, listed[i])
      ensures forall i, j :: 0 <= i < j < |listed| ==>
                               listed[i] != listed[j] && CreatedAt(Contents(), listed[i]) <= CreatedAt(Contents(), listed[j])
      ensures |listed| <= batch
      ensures forall id :: Listable(Contents(), generation, t, id) <==> DueForDelivery(old(Contents()), generation, t, timeout, id)
      ensures |listed| < batch ==> forall id :: id in listed <==> DueForDelivery(old(Contents()), generation, t, timeout, id)
      ensures forall id, i :: DueForDelivery(old(Contents()), generation, t, timeout, id) && id !in listed && 0 <= i < |listed| ==>
                                CreatedAt(Contents(), listed[i]) <= CreatedAt(Contents(), id)
    {
      ghost var before := Contents();
      hide Requeue, CancelAll, CrashedDeleted, Deliverable, Listable, RowAt, CancelledRow, DueForDelivery;
      cancelled := CancelExpiredDeletedExecutions(t, batch);
      aggregates := map sid | sid in aggregates :: Requeue(aggregates[sid], generation, t, timeout);
      forall id
        ensures Listable(Contents(), generation, t, id) <==> DueForDelivery(before, generation, t, timeout, id)
      {
        RecoveryListsExactly(before, cancelled, generation, t, timeout, id);
      }
      listed := ListDispatches(generation, t, batch);
    }

    /** The final query of `pending_dispatches`. */
    method ListDispatches(generation: int, t: Micros, batch: nat) returns (listed: seq<ExecutionId>)
      ensures forall i :: 0 <= i < |listed| ==> Listable(Contents(), generation, t, listed[i])
      ensures forall i, j :: 0 <= i < j < |listed| ==>
                               listed[i] != listed[j] && CreatedAt(Contents(), listed[i]) <= CreatedAt(Contents(), listed[j])
      ensures |listed| <= batch
      ensures |listed| < batch ==> forall id :: Listable(Contents(), generation, t, id) ==> id in listed
      ensures forall id, i :: Listable(Contents(), generation, t, id) && id !in listed && 0 <= i < |listed| ==>
                                CreatedAt(Contents(), listed[i]) <= CreatedAt(Contents(), id)
    {
      RowIdsAreRows(Contents());
      ListableIsRow(Contents(), generation, t);
      hide RowIds, Listable, RowAt, CreatedAt;
      var key := map id | id in RowIds(Contents()) && Listable(Contents(), generation, t, id) :: [CreatedAt(Contents(), id)];
      listed := SelectBatch(key, batch);
      assert forall id :: Listable(Contents(), generation, t, id) ==> id in key;
      if |listed| < batch {
        BatchCoversAll(key, batch, listed);
      }
    }

    /** `mark_dispatched`. */
    method MarkDispatchedExecution(id: ExecutionId, generation: int, expectedAttempt: int) returns (marked: bool)
      modifies this`aggregates
      ensures if id.schedule in old(aggregates) then
                var outcome := MarkDispatched(old(aggregates)[id.schedule], id.at, generation, expectedAttempt, clock);
                Contents() == Put(old(Contents()), id.schedule, outcome) && (marked <==> outcome.Committed?)
              else Contents() == old(Contents()) && !marked
    {
      if id.schedule !in aggregates || id.at !in aggregates[id.schedule].executions { return false; }
      var row := aggregates[id.schedule].executions[id.at];
      if row.generation != generation || row.attempt != expectedAttempt || row.dispatch != Unsent || !row.Unstarted() { return false; }
      row := row.(dispatch := Sent, dispatchedAt := Some(clock));
      aggregates := aggregates[id.schedule := WithRow(aggregates[id.schedule], id.at, row)];
      marked := true;
    }

    /** The oldest finished rows past `cutoff`: as many as the batch allows. */
    method SelectPurgeable(cutoff: Micros, batch: nat) returns (ids: seq<ExecutionId>)
      ensures |ids| == Min(batch, |PurgeableIds(Contents(), cutoff)|) && Distinct(ids)
      ensures forall i :: 0 <= i < |ids| ==> ids[i] in PurgeableIds(Contents(), cutoff)
      ensures forall id, i :: id in PurgeableIds(Contents(), cutoff) && id !in ids && 0 <= i < |ids| ==>
                                FinishedAt(Contents(), ids[i]) <= FinishedAt(Contents(), id)
    {
      var key := map id | id in PurgeableIds(Contents(), cutoff) :: [FinishedAt(Contents(), id)];
      assert key.Keys == PurgeableIds(Contents(), cutoff);
      assert |key.Keys| == |key|;
      ids := SelectBatch(key, batch);
    }

    /** `purge_execution_history`: the oldest finished rows past the retention cutoff. */
    method PurgeExecutionHistory(retentionDays: nat, batch: nat) returns (ids: seq<ExecutionId>)
      modifies this`aggregates
      ensures var cutoff := clock - retentionDays * 86_400 * SECOND;
        && |ids| == Min(batch, |PurgeableIds(old(Contents()), cutoff)|) && Distinct(ids)
        && (forall i :: 0 <= i < |ids| ==> ids[i] in PurgeableIds(old(Contents()), cutoff))
        && (forall id, i :: id in PurgeableIds(old(Contents()), cutoff) && id !in ids && 0 <= i < |ids| ==>
              FinishedAt(old(Contents()), ids[i]) <= FinishedAt(old(Contents()), id))
        && Contents() == old(Contents()).(aggregates := map sid | sid in old(aggregates) ::
             Purge(old(aggregates)[sid], OccurrencesOf(ids, sid), cutoff))
      ensures forall id :: RowAt(Contents(), id) == if id in ids then None else RowAt(old(Contents()), id)
    {
      var cutoff := clock - retentionDays * 86_400 * SECOND;
      ids := SelectPurgeable(cutoff, batch);
      PurgeableAreRows(Contents(), cutoff);
      hide Purgeable, RowAt, Purge, OccurrencesOf, PurgeableIds, FinishedAt;
      ghost var before := Contents();
      aggregates := map sid | sid in aggregates :: Purge(aggregates[sid], OccurrencesOf(ids, sid), cutoff);
      forall id
        ensures RowAt(Contents(), id) == if id in ids then None else RowAt(before, id)
      {
        PurgedRow(before, ids, cutoff, id);
      }
    }

    // ----- Management commands -----

    /** `create_schedule`; identifiers are drawn at random and a repeated one is refused. */
    method CreateUserSchedule(calendar: Calendar, registry: map<string, Registration>, sid: string, taskName: string, payload: string,
                              trigger: Trigger, enabled: bool) returns (result: CommandResult)
      requires trigger.Valid()
      modifies this`aggregates
      ensures result.Accepted? <==>
              taskName in registry && registry[taskName].userSchedulable && sid !in old(aggregates)
      ensures result.UnknownTask? <==> taskName !in registry || !registry[taskName].userSchedulable
      ensures !result.NotFound?
      ensures Contents() == if result.Accepted?
                            then old(Contents()).(aggregates := old(aggregates)[sid :=
                              Created(calendar, Task(taskName, registry[taskName].contractVersion, payload), trigger, enabled, clock)])
                            else old(Contents())
    {
      if taskName !in registry || !registry[taskName].userSchedulable { return UnknownTask; }
      if sid in aggregates { return Conflict; }
      var task := Task(taskName, registry[taskName].contractVersion, payload);
      var nextRunAt := GetNextFireTime(calendar, trigger, None, clock);
      var schedule := Schedule(task, trigger, false, enabled, Active, 1, nextRunAt, None, None);
      aggregates := aggregates[sid := Aggregate(schedule, map[])];
      result := Accepted;
    }

    /** `update_schedule`: only a quiescent user schedule at the expected revision changes. */
    method UpdateUserSchedule(calendar: Calendar, registry: map<string, Registration>, sid: string, expectedRevision: int,
                              taskName: string, payload: string, trigger: Trigger, enabled: bool) returns (result: CommandResult)
      requires trigger.Valid()
      modifies this`aggregates
      ensures result.NotFound? <==> sid !in old(aggregates) || old(aggregates)[sid].schedule.status == Deleted
      ensures result.UnknownTask? <==>
              && !result.NotFound? && !old(aggregates)[sid].schedule.systemManaged
              && old(aggregates)[sid].schedule.revision == expectedRevision && old(aggregates)[sid].schedule.active.None?
              && (taskName !in registry || !registry[taskName].userSchedulable)
      ensures result.Accepted? <==>
              && sid in old(aggregates) && taskName in registry && registry[taskName].userSchedulable
              && Update(calendar, old(aggregates)[sid], expectedRevision,
                        Task(taskName, registry[taskName].contractVersion, payload), trigger, enabled, clock).Committed?
      ensures Contents() == if result.Accepted?
                            then Put(old(Contents()), sid, Update(calendar, old(aggregates)[sid], expectedRevision,
                                     Task(taskName, registry[taskName].contractVersion, payload), trigger, enabled, clock))
                            else old(Contents())
    {
      hide FirstFire, GetNextFireTime;
      if sid !in aggregates || aggregates[sid].schedule.status == Deleted { return NotFound; }
      var a := aggregates[sid];
      if a.schedule.systemManaged || a.schedule.revision != expectedRevision || a.schedule.active.Some? { return Conflict; }
      if taskName !in registry || !registry[taskName].userSchedulable { return UnknownTask; }
      var nextRunAt := GetNextFireTime(calendar, trigger, None, clock);
      if nextRunAt.Some? && nextRunAt.value in a.executions { return Conflict; }
      var schedule := a.schedule.(task := Task(taskName, registry[taskName].contractVersion, payload), trigger := trigger, enabled := enabled);
      schedule := schedule.(status := Active, nextRunAt := nextRunAt, pendingFor := None, revision := expectedRevision + 1);
      aggregates := aggregates[sid := a.(schedule := schedule)];
      result := Accepted;
    }

    /** `cancel_unstarted_schedule_execution` on the rows a transaction is working on. */
    static method CancelUnstartedExecution(a: Aggregate, now: Micros) returns (b: Aggregate)
      ensures b == CancelUnstarted(a, now)
    {
      b := a;
      if a.schedule.active.None? { return; }
      var at := a.schedule.active.value;
      if at in a.executions && (a.executions[at].state == Pending || a.executions[at].state == RetryWait) {
        var row := a.executions[at].(state := Cancelled, retryAt := None, leaseOwner := None, leaseExpiresAt := None, completedAt := Some(now));
        b := Aggregate(a.schedule.(active := None), a.executions[at := row]);
      } else if at !in a.executions || a.executions[at].state != Running {
        b := b.(schedule := a.schedule.(active := None));
      }
    }

    /** `delete_schedule`: logical deletion that lets a running execution finish. */
    method DeleteUserSchedule(sid: string, expectedRevision: int) returns (result: CommandResult)
      modifies this`aggregates
      ensures result.NotFound? <==> sid !in old(aggregates) || old(aggregates)[sid].schedule.status == Deleted
      ensures result.Accepted? <==> sid in old(aggregates) && Delete(old(aggregates)[sid], expectedRevision, clock).Committed?
      ensures !result.UnknownTask?
      ensures Contents() == if result.Accepted? then Put(old(Contents()), sid, Delete(old(aggregates)[sid], expectedRevision, clock))
                            else old(Contents())
    {
      if sid !in aggregates || aggregates[sid].schedule.status == Deleted { return NotFound; }
      var a := aggregates[sid];
      if a.schedule.systemManaged || a.schedule.revision != expectedRevision { return Conflict; }
      var schedule := a.schedule.(enabled := false, status := Deleted, nextRunAt := None, pendingFor := None);
      schedule := schedule.(revision := expectedRevision + 1);
      var b := CancelUnstartedExecution(a.(schedule := schedule), clock);
      aggregates := aggregates[sid := b];
      result := Accepted;
    }

    /** One system schedule that is no longer desired. */
    method RetireOne(a: Aggregate) returns (retired: Aggregate)
      requires a.schedule.enabled || a.schedule.status != Deleted
      ensures retired == Orphaned(a, clock)
    {
      var schedule := a.schedule;
      schedule := schedule.(enabled := false, status := Deleted, nextRunAt := None, pendingFor := None, revision := schedule.revision + 1);
      retired := CancelUnstartedExecution(a.(schedule := schedule), clock);
    }

    /** Retiring what is no longer desired: the first loop of a synchronization. */
    method RetireOrphans(working: map<string, Aggregate>, desired: map<string, Definition>) returns (after: map<string, Aggregate>, changed: nat)
      ensures after.Keys == working.Keys
      ensures forall sid :: sid in working ==>
                after[sid] == if sid !in desired && working[sid].schedule.systemManaged then Orphaned(working[sid], clock) else working[sid]
      ensures changed == |ChangedIds(working, after)|
    {
      after, changed := working, 0;
      var orphans := set sid | sid in working && working[sid].schedule.systemManaged && sid !in desired
                               && (working[sid].schedule.enabled || working[sid].schedule.status != Deleted);
      forall sid | sid in working
        ensures sid !in orphans && sid !in desired && working[sid].schedule.systemManaged ==> Orphaned(working[sid], clock) == working[sid]
      {
      }
      NothingChanged(working);
      hide Orphaned, ChangedIds;
      var rest := orphans;
      while rest != {}
        invariant rest <= orphans && after.Keys == working.Keys
        invariant forall sid :: sid in working ==> after[sid] == if sid in orphans - rest then Orphaned(working[sid], clock) else working[sid]
        invariant changed == |ChangedIds(working, after)|
      {
        var sid :| sid in rest;
        var retired := RetireOne(after[sid]);
        OrphanedDiffers(working[sid], clock);
        OneMoreChanged(working, after, sid, retired);
        after := after[sid := retired];
        rest := rest - {sid};
        changed := changed + 1;
      }
    }

    /** Writing what is desired: the second loop of a synchronization. */
    method ReconcileAll(calendar: Calendar, working: map<string, Aggregate>, desired: map<string, Definition>)
      returns (after: map<string, Aggregate>, refused: bool, changed: nat)
      requires ValidDefinitions(desired)
      ensures refused <==> exists sid :: sid in desired && sid in working && !working[sid].schedule.systemManaged
      ensures !refused ==>
                && after.Keys == working.Keys + desired.Keys
                && (forall sid :: sid in desired ==> after[sid] == Reconciled(calendar, desired[sid], Stored(working, sid), clock))
                && (forall sid :: sid in working && sid !in desired ==> after[sid] == working[sid])
                && changed == |ChangedIds(working, after)|
    {
      NothingChanged(working);
      hide Reconciled, ChangedIds;
      after, refused, changed := working, false, 0;
      var rest := desired.Keys;
      while rest != {}
        invariant rest <= desired.Keys && after.Keys == working.Keys + (desired.Keys - rest)
        invariant forall sid :: sid in desired && sid !in rest && sid in working ==> working[sid].schedule.systemManaged
        invariant forall sid :: sid in desired && sid !in rest ==>
                    after[sid] == Reconciled(calendar, desired[sid], Stored(working, sid), clock)
        invariant forall sid :: sid in working && (sid !in desired || sid in rest) ==> after[sid] == working[sid]
        invariant changed == |ChangedIds(working, after)|
      {
        var sid :| sid in rest;
        if sid in after && !after[sid].schedule.systemManaged {
          refused := true;
          return;
        }
        var next, wrote := ReconcileOne(calendar, desired[sid], if sid in after then Some(after[sid]) else None);
        if wrote {
          OneMoreChanged(working, after, sid, next);
          after := after[sid := next];
          changed := changed + 1;
        }
        rest := rest - {sid};
      }
    }

    /** `synchronize_system_schedules`: `None` when an identifier belongs to a user schedule. */
    method SynchronizeSystemSchedules(calendar: Calendar, desired: map<string, Definition>) returns (changed: Option<nat>)
      requires ValidDefinitions(desired)
      modifies this`aggregates
      ensures Contents() == Synchronized(calendar, old(Contents()), desired)
      ensures changed.None? <==> SyncRefused(old(Contents()), desired)
      ensures changed.Some? ==> changed.value == |ChangedIds(old(aggregates), aggregates)|
    {
      hide Orphaned, Reconciled, ChangedIds;
      var retired, orphans := RetireOrphans(aggregates, desired);
      var working, refused, count := ReconcileAll(calendar, retired, desired);
      if refused { return None; }
      assert working.Keys == aggregates.Keys + desired.Keys;
      ChangesAdd(aggregates, retired, working, desired.Keys);
      aggregates := working;
      changed := Some(orphans + count);
    }

    /** One desired definition; `wrote` tells whether a row was added or changed. */
    method ReconcileOne(calendar: Calendar, definition: Definition, stored: Option<Aggregate>) returns (after: Aggregate, wrote: bool)
      requires definition.Valid()
      ensures after == Reconciled(calendar, definition, stored, clock)
      ensures wrote <==> stored != Some(after)
    {
      hide FirstFire, GetNextFireTime;
      var trigger := DesiredTrigger(definition, if stored.Some? then Some(stored.value.schedule.trigger) else None, clock);
      var nextRunAt := GetNextFireTime(calendar, trigger, None, clock);
      var pending := if definition.runImmediately then Some(clock) else None;
      if stored.None? {
        return Aggregate(Schedule(definition.task, trigger, true, true, Active, 1, nextRunAt, None, pending), map[]), true;
      }
      var schedule := stored.value.schedule;
      if schedule.task == definition.task && schedule.trigger == trigger && schedule.enabled && schedule.status == Active {
        return stored.value, false;
      }
      schedule := schedule.(task := definition.task, trigger := trigger, enabled := true, status := Active);
      schedule := schedule.(nextRunAt := nextRunAt, pendingFor := pending, revision := schedule.revision + 1);
      assert schedule.revision != stored.value.schedule.revision;
      after, wrote := stored.value.(schedule := schedule), true;
    }
  }

  /** The occurrences of one schedule among the listed executions. */
  function OccurrencesOf(ids: seq<ExecutionId>, sid: string): set<Micros> {
    set i | 0 <= i < |ids| && ids[i].schedule == sid :: ids[i].at
  }

  /** Terminal rows that finished before `cutoff`. */
  function PurgeableIds(st: State, cutoff: Micros): set<ExecutionId> {
    set id | id in RowIds(st) && IsPurgeable(st, cutoff, id)
  }

  predicate IsPurgeable(st: State, cutoff: Micros, id: ExecutionId) {
    RowAt(st, id).Some? && Purgeable(RowAt(st, id).value, cutoff)
  }

  function FinishedAt(st: State, id: ExecutionId): (r: Micros)
    ensures RowAt(st, id).Some? && RowAt(st, id).value.completedAt.Some? ==> RowAt(st, id).value.completedAt == Some(r)
  {
    if RowAt(st, id).Some? && RowAt(st, id).value.completedAt.Some? then RowAt(st, id).value.completedAt.value else 0
  }

  lemma PurgeableAreRows(st: State, cutoff: Micros)
    ensures forall id :: id in PurgeableIds(st, cutoff) <==> RowAt(st, id).Some? && Purgeable(RowAt(st, id).value, cutoff)
  {
    RowIdsAreRows(st);
  }

  lemma PurgedRow(st: State, ids: seq<ExecutionId>, cutoff: Micros, id: ExecutionId)
    requires forall i :: 0 <= i < |ids| ==> RowAt(st, ids[i]).Some? && Purgeable(RowAt(st, ids[i]).value, cutoff)
    ensures var after := st.(aggregates := map sid | sid in st.aggregates :: Purge(st.aggregates[sid], OccurrencesOf(ids, sid), cutoff));
      RowAt(after, id) == if id in ids then None else RowAt(st, id)
  {
    if id in ids {
      var i :| 0 <= i < |ids| && ids[i] == id;
      assert id.at in OccurrencesOf(ids, id.schedule);
    }
  }

  // ----- What the queries select -----

  /** Candidates of `claim_execution`. */
  predicate Runnable(st: State, generation: int, id: ExecutionId) {
    && id.schedule in st.aggregates
    && st.aggregates[id.schedule].schedule.status != Deleted
    && Claimable(st.aggregates[id.schedule], id.at, generation, st.clock)
  }

  /** Crashed work whose schedule was deleted. */
  predicate CrashedDeleted(st: State, t: Micros, id: ExecutionId) {
    && id.schedule in st.aggregates && id.at in st.aggregates[id.schedule].executions
    && st.aggregates[id.schedule].schedule.status == Deleted
    && st.aggregates[id.schedule].executions[id.at].state == Running
    && st.aggregates[id.schedule].executions[id.at].LeaseExpired(t)
  }

  function LeaseEnd(st: State, id: ExecutionId): (r: Micros)
    ensures RowAt(st, id).Some? && RowAt(st, id).value.leaseExpiresAt.Some? ==> RowAt(st, id).value.leaseExpiresAt == Some(r)
  {
    if RowAt(st, id).Some? && RowAt(st, id).value.leaseExpiresAt.Some? then RowAt(st, id).value.leaseExpiresAt.value else 0
  }

  /**
   * What `pending_dispatches` must list: unstarted work past its retry time that was never
   * dispatched or whose dispatch timed out, and crashed work of living schedules at once.
   */
  predicate DueForDelivery(st: State, generation: int, t: Micros, timeout: Micros, id: ExecutionId) {
    && RowAt(st, id).Some?
    && var row := RowAt(st, id).value;
       && row.generation == generation
       && (|| (row.Unstarted() && ReachedOrEmpty(row.retryAt, t)
               && (row.dispatch == Unsent || ReachedOrEmpty(row.dispatchedAt, t - timeout)))
           || (row.state == Running && row.LeaseExpired(t) && st.aggregates[id.schedule].schedule.status != Deleted))
  }

  lemma RequeuedIsListable(row: Execution, deleted: bool, generation: int, t: Micros, timeout: Micros)
    ensures Deliverable(Requeued(row, deleted, generation, t, timeout), generation, t) <==>
            && row.generation == generation
            && (|| (row.Unstarted() && ReachedOrEmpty(row.retryAt, t)
                    && (row.dispatch == Unsent || ReachedOrEmpty(row.dispatchedAt, t - timeout)))
                || (row.state == Running && row.LeaseExpired(t) && !deleted))
  {
  }

  /** Recovery after a cancelled batch makes exactly the rows due for delivery listable. */
  lemma RecoveryListsExactly(before: State, ids: seq<ExecutionId>, generation: int, t: Micros, timeout: Micros, id: ExecutionId)
    requires Distinct(ids) && forall i :: 0 <= i < |ids| ==> CrashedDeleted(before, t, ids[i])
    ensures var recovered := CancelAll(before, ids, t);
      Listable(recovered.(aggregates := map sid | sid in recovered.aggregates :: Requeue(recovered.aggregates[sid], generation, t, timeout)),
               generation, t, id)
      <==> DueForDelivery(before, generation, t, timeout, id)
  {
    CancelAllExactly(before, ids, t, id);
    hide CancelAll, Deliverable, Requeued;
    if RowAt(before, id).Some? {
      var row := if id in ids then CancelledRow(RowAt(before, id), t).value else RowAt(before, id).value;
      RequeuedIsListable(row, before.aggregates[id.schedule].schedule.status == Deleted, generation, t, timeout);
    }
  }

  /** In every reachable store this is the open, unblocked work of living schedules that runs, waits unsent or timed out. */
  lemma DueForDeliveryExactly(env: Env, w: World, t: Micros, timeout: Micros, id: ExecutionId)
    requires LawfulCalendar(env.calendar) && SchedulingRuns.Reachable(env, w) && RowAt(w.state, id).Some?
    ensures var row := RowAt(w.state, id).value;
      DueForDelivery(w.state, row.generation, t, timeout, id) <==>
      && row.Open() && w.state.aggregates[id.schedule].schedule.status != Deleted && row.Unblocked(t)
      && (row.state == Running || row.dispatch == Unsent || ReachedOrEmpty(row.dispatchedAt, t - timeout))
  {
    SchedulingRuns.ReachableSound(env, w);
    hide IsFire;
    assert Sound(env.calendar, w.state.aggregates[id.schedule], w.state.clock);
  }

  predicate Listable(st: State, generation: int, t: Micros, id: ExecutionId) {
    && id.schedule in st.aggregates && id.at in st.aggregates[id.schedule].executions
    && Deliverable(st.aggregates[id.schedule].executions[id.at], generation, t)
  }

  lemma RunnableIsRow(st: State, generation: int)
    ensures forall id :: Runnable(st, generation, id) ==> RowAt(st, id).Some? && id.schedule in st.aggregates
  {
  }

  /** In a sound store the candidate query selects exactly what a claim would get. */
  lemma RunnableExactly(calendar: Calendar, st: State, generation: int, id: ExecutionId, owner: Owner, lease: Micros)
    requires StateSound(calendar, st)
    ensures Runnable(st, generation, id) <==>
            id.schedule in st.aggregates && Claim(st.aggregates[id.schedule], id.at, generation, owner, lease, st.clock).Committed?
  {
    if Runnable(st, generation, id) {
      RunnableGetsClaimed(calendar, st, generation, id, owner, lease);
    }
  }

  /** The cancellation query selects exactly what the locked recheck cancels. */
  lemma CrashedExactly(st: State, t: Micros, id: ExecutionId)
    ensures CrashedDeleted(st, t, id) <==>
            id.schedule in st.aggregates && CancelExpired(st.aggregates[id.schedule], id.at, t).Committed?
  {
  }

  lemma RunnableGetsClaimed(calendar: Calendar, st: State, generation: int, id: ExecutionId, owner: Owner, lease: Micros)
    requires StateSound(calendar, st) && Runnable(st, generation, id)
    ensures id.schedule in st.aggregates && Claim(st.aggregates[id.schedule], id.at, generation, owner, lease, st.clock).Committed?
  {
    hide IsFire;
    assert SlotSound(st.aggregates[id.schedule]) by { assert Sound(calendar, st.aggregates[id.schedule], st.clock); }
  }

  lemma ListableIsRow(st: State, generation: int, t: Micros)
    ensures forall id :: Listable(st, generation, t, id) ==> RowAt(st, id).Some?
  {
  }

  function CreatedAt(st: State, id: ExecutionId): (r: Micros)
    ensures RowAt(st, id).Some? ==> RowAt(st, id).value.createdAt == r
  {
    if RowAt(st, id).Some? then RowAt(st, id).value.createdAt else 0
  }

  lemma BatchCoversAll<Id(!new)>(key: map<Id, seq<int>>, batch: nat, picked: seq<Id>)
    requires IsBatch(key, batch, picked) && |picked| < batch
    ensures forall id :: id in key ==> id in picked
  {
    var chosen := set id | id in picked;
    SizeOfDistinct(picked);
    assert chosen <= key.Keys;
    assert |chosen| == |key.Keys| by { assert |key.Keys| == |key|; }
    SizeOfSubset(chosen, key.Keys);
  }
}
