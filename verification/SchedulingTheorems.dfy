/** The guarantees of the scheduling protocol, for all reachable worlds and all runs. */
module SchedulingTheorems {
  import opened Options
  import opened Triggers
  import opened ScheduleAggregate
  import opened ScheduleInvariant
  import opened SchedulingProtocol
  import opened SchedulingRuns

  /** A run whose first world is sound, such as any part of a run from an initial world. */
  ghost predicate SoundRun(env: Env, worlds: seq<World>, steps: seq<Step>) {
    LawfulCalendar(env.calendar) && Run(env, worlds, steps) && WorldSound(env, worlds[0])
  }

  // ----- The execution slot -----

  /** The slot is set exactly to the one open execution; every guard on it is redundant. */
  lemma SlotNamesTheOpenExecution(env: Env, w: World, sid: string, at: Micros)
    requires LawfulCalendar(env.calendar) && Reachable(env, w) && sid in w.state.aggregates
    ensures var a := w.state.aggregates[sid];
      && (a.schedule.active == Some(at) <==> at in a.executions && a.executions[at].Open())
      && (forall generation, owner :: Accepts(a, at, generation, owner) ==> a.schedule.active == Some(at))
      && (forall victims, cutoff :: a.schedule.active == Some(at) ==> at in Purge(a, victims, cutoff).executions)
  {
    ReachableSound(env, w);
    hide IsFire;
    assert Sound(env.calendar, w.state.aggregates[sid], w.state.clock);
  }

  // ----- Fresh occurrences -----

  /**
   * All occurrences a user schedule can still record lie after `mark`; a dated one has none left.
   */
  ghost predicate AboveMark(a: Aggregate, mark: Micros) {
    && !a.schedule.systemManaged
    && (a.schedule.trigger.Recurring() || (a.schedule.pendingFor.None? && a.schedule.nextRunAt.None?))
    && (a.schedule.pendingFor.Some? ==> mark < a.schedule.pendingFor.value)
    && (a.schedule.nextRunAt.Some? ==> mark < a.schedule.nextRunAt.value)
  }

  /** What one transaction does to a mark: it stays valid, and only recurring triggers add rows, above it. */
  ghost predicate KeepsMark(a: Aggregate, after: Aggregate, mark: Micros) {
    && AboveMark(after, mark) && after.schedule.trigger == a.schedule.trigger
    && forall at :: at in after.executions && at !in a.executions ==> mark < at && a.schedule.trigger.Recurring()
  }

  lemma EnqueueKeepsMark(calendar: Calendar, a: Aggregate, generation: int, clock: Micros, t: Micros, grace: Micros, mark: Micros)
    requires LawfulCalendar(calendar) && Sound(calendar, a, clock) && AboveMark(a, mark)
    ensures KeepsMark(a, Settled(a, Enqueue(calendar, a, generation, t, grace)), mark)
  {
    hide IsFire, PollAdvance;
    if Pollable(a.schedule, t) {
      PollFacts(calendar, a, clock, t, grace);
    }
  }

  lemma ReleaseKeepsMark(a: Aggregate, generation: int, terminal: ScheduleStatus, now: Micros, mark: Micros)
    requires AboveMark(a, mark)
    ensures KeepsMark(a, Settled(a, Release(a, generation, terminal, now)), mark)
  {
  }

  lemma OutcomeKeepsMark(env: Env, w: World, step: Step, mark: Micros)
    requires LawfulCalendar(env.calendar) && StateSound(env.calendar, w.state) && Enabled(env, w, step)
    requires SingleTarget(step) && Targets(step) in w.state.aggregates
    requires step.UpdateSchedule? ==> !OutcomeOf(env.calendar, w.state, step).Committed?
    requires AboveMark(w.state.aggregates[Targets(step)], mark)
    ensures var a := w.state.aggregates[Targets(step)];
      KeepsMark(a, Settled(a, OutcomeOf(env.calendar, w.state, step)), mark)
  {
    hide Sound, Enqueue, Release, RetryDelay, IsFire, PollAdvance, GetNextFireTime;
    var a, now := w.state.aggregates[Targets(step)], w.state.clock;
    assert Sound(env.calendar, a, now);
    match step
    case Poll(_, generation, t, graceSeconds) => EnqueueKeepsMark(env.calendar, a, generation, now, t, graceSeconds * SECOND, mark);
    case ClaimLease(_, _, _, _) =>
    case RefreshLease(_, _) =>
    case CompleteWork(claim, generation) =>
      if Accepts(a, claim.id.at, generation, claim.owner) {
        var row := a.executions[claim.id.at].(state := Succeeded, completedAt := Some(now), leaseOwner := None, leaseExpiresAt := None);
        ReleaseKeepsMark(WithRow(a, claim.id.at, row), generation, ScheduleStatus.Completed, now, mark);
      }
    case FailWork(claim, generation, policy) =>
      if Accepts(a, claim.id.at, generation, claim.owner) && !WillRetry(a, claim.attempt, policy) {
        var row := a.executions[claim.id.at].(leaseOwner := None, leaseExpiresAt := None, state := ExecutionState.Failed, completedAt := Some(now));
        ReleaseKeepsMark(WithRow(a, claim.id.at, row), generation, ScheduleStatus.Failed, now, mark);
      }
    case MarkSent(_, _, _) =>
    case CancelDeleted(_, _) =>
    case UpdateSchedule(_, _, _, _, _) =>
    case DeleteSchedule(_, _) =>
  }

  /** The step is an edit of the schedule that goes through. */
  ghost predicate Edits(env: Env, w: World, step: Step, sid: string)
    requires WellFormed(w.state) && StepWellFormed(step)
  {
    step.UpdateSchedule? && step.schedule == sid && sid in w.state.aggregates && OutcomeOf(env.calendar, w.state, step).Committed?
  }

  lemma TransactionKeepsMark(env: Env, w: World, step: Step, sid: string, mark: Micros)
    requires LawfulCalendar(env.calendar) && StateSound(env.calendar, w.state) && WellFormed(w.state) && Enabled(env, w, step)
    requires sid in w.state.aggregates && AboveMark(w.state.aggregates[sid], mark)
    requires SingleTarget(step) && !Edits(env, w, step, sid)
    ensures var after := AfterState(env.calendar, w.state, step);
      sid in after.aggregates && KeepsMark(w.state.aggregates[sid], after.aggregates[sid], mark)
  {
    TransactionState(env.calendar, w.state, step);
    assert StepWellFormed(step);
    hide AfterState, Enabled, StateSound, WellFormed, Sound, OutcomeOf;
    if Targets(step) == sid {
      OutcomeKeepsMark(env, w, step, mark);
    }
  }

  lemma SweepKeepsMark(env: Env, w: World, step: Step, sid: string, mark: Micros)
    requires WellFormed(w.state) && Enabled(env, w, step) && !SingleTarget(step)
    requires sid in w.state.aggregates && AboveMark(w.state.aggregates[sid], mark)
    ensures var after := AfterState(env.calendar, w.state, step);
      sid in after.aggregates && KeepsMark(w.state.aggregates[sid], after.aggregates[sid], mark)
  {
    hide OutcomeOf, GetNextFireTime;
  }

  lemma StepKeepsMark(env: Env, w: World, step: Step, sid: string, mark: Micros)
    requires LawfulCalendar(env.calendar) && StateSound(env.calendar, w.state) && WellFormed(w.state) && Enabled(env, w, step)
    requires sid in w.state.aggregates && AboveMark(w.state.aggregates[sid], mark)
    requires !Edits(env, w, step, sid)
    ensures var after := Apply(env, w, step).state;
      sid in after.aggregates && KeepsMark(w.state.aggregates[sid], after.aggregates[sid], mark)
  {
    ApplyState(env, w, step);
    hide Apply, AfterState, Edits, KeepsMark, AboveMark;
    if SingleTarget(step) {
      TransactionKeepsMark(env, w, step, sid, mark);
    } else {
      SweepKeepsMark(env, w, step, sid, mark);
    }
  }

  /** The mark set by one creation is respected by the rest of a run without edits. */
  lemma {:induction false} RunKeepsMark(env: Env, worlds: seq<World>, steps: seq<Step>, sid: string, mark: Micros, i: nat)
    requires SoundRun(env, worlds, steps) && i <= |steps|
    requires sid in worlds[0].state.aggregates && AboveMark(worlds[0].state.aggregates[sid], mark)
    requires forall k :: 0 <= k < i ==> !Edits(env, worlds[k], steps[k], sid)
    ensures sid in worlds[i].state.aggregates && AboveMark(worlds[i].state.aggregates[sid], mark)
    ensures worlds[i].state.aggregates[sid].schedule.trigger == worlds[0].state.aggregates[sid].schedule.trigger
  {
    hide AboveMark, WorldSound, Enabled, Apply, Edits;
    if i > 0 {
      RunKeepsMark(env, worlds, steps, sid, mark, i - 1);
      RunKeepsWorldSound(env, worlds, steps, i - 1);
      SoundOfWorld(env, worlds[i - 1]);
      StepKeepsMark(env, worlds[i - 1], steps[i - 1], sid, mark);
    }
  }

  lemma SoundOfWorld(env: Env, w: World)
    requires WorldSound(env, w)
    ensures StateSound(env.calendar, w.state) && WellFormed(w.state) && HistorySound(env, w)
  {
    SoundIsWellFormed(env.calendar, w.state);
  }

  lemma StoredSetsMark(calendar: Calendar, a: Aggregate, clock: Micros, x: Micros)
    requires Sound(calendar, a, clock) && x in a.executions && !a.schedule.systemManaged
    requires a.schedule.trigger.Recurring() || (a.schedule.pendingFor.None? && a.schedule.nextRunAt.None?)
    ensures AboveMark(a, x)
  {
    hide IsFire;
  }

  /** A dated user schedule that records its occurrence has nothing left to record. */
  lemma EnqueueSpends(calendar: Calendar, a: Aggregate, generation: int, clock: Micros, t: Micros, grace: Micros, x: Micros)
    requires LawfulCalendar(calendar) && Sound(calendar, a, clock) && !a.schedule.systemManaged && a.schedule.trigger.Date?
    requires var after := Settled(a, Enqueue(calendar, a, generation, t, grace)); x in after.executions && x !in a.executions
    ensures var s := Settled(a, Enqueue(calendar, a, generation, t, grace)).schedule; s.pendingFor.None? && s.nextRunAt.None?
  {
    hide IsFire, PollAdvance;
    if Pollable(a.schedule, t) {
      PollFacts(calendar, a, clock, t, grace);
    }
  }

  lemma ReleaseSpends(a: Aggregate, generation: int, terminal: ScheduleStatus, now: Micros, x: Micros)
    requires OrderSound(a.schedule) && !a.schedule.systemManaged && a.schedule.trigger.Date?
    requires var after := Settled(a, Release(a, generation, terminal, now)); x in after.executions && x !in a.executions
    ensures var s := Settled(a, Release(a, generation, terminal, now)).schedule; s.pendingFor.None? && s.nextRunAt.None?
  {
  }

  lemma OutcomeSpends(env: Env, w: World, step: Step, x: Micros)
    requires LawfulCalendar(env.calendar) && StateSound(env.calendar, w.state) && Enabled(env, w, step)
    requires SingleTarget(step) && Targets(step) in w.state.aggregates
    requires var a := w.state.aggregates[Targets(step)];
      var after := Settled(a, OutcomeOf(env.calendar, w.state, step));
      && !a.schedule.systemManaged && after.schedule.trigger.Date?
      && x in after.executions && x !in a.executions
    ensures var a := w.state.aggregates[Targets(step)];
      var s := Settled(a, OutcomeOf(env.calendar, w.state, step)).schedule;
      s.pendingFor.None? && s.nextRunAt.None?
  {
    hide Sound, Enqueue, Release, RetryDelay, IsFire, PollAdvance, GetNextFireTime;
    var a, now := w.state.aggregates[Targets(step)], w.state.clock;
    assert Sound(env.calendar, a, now);
    OrderOfSound(env.calendar, a, now);
    match step
    case Poll(_, generation, t, graceSeconds) =>
      EnqueueKeepsTrigger(env.calendar, a, generation, t, graceSeconds * SECOND);
      EnqueueSpends(env.calendar, a, generation, now, t, graceSeconds * SECOND, x);
    case ClaimLease(_, _, _, _) =>
    case RefreshLease(_, _) =>
    case CompleteWork(claim, generation) =>
      var row := a.executions[claim.id.at].(state := Succeeded, completedAt := Some(now), leaseOwner := None, leaseExpiresAt := None);
      ReleaseKeepsTrigger(WithRow(a, claim.id.at, row), generation, ScheduleStatus.Completed, now);
      ReleaseSpends(WithRow(a, claim.id.at, row), generation, ScheduleStatus.Completed, now, x);
    case FailWork(claim, generation, policy) =>
      var row := a.executions[claim.id.at].(leaseOwner := None, leaseExpiresAt := None, state := ExecutionState.Failed, completedAt := Some(now));
      ReleaseKeepsTrigger(WithRow(a, claim.id.at, row), generation, ScheduleStatus.Failed, now);
      ReleaseSpends(WithRow(a, claim.id.at, row), generation, ScheduleStatus.Failed, now, x);
    case MarkSent(_, _, _) =>
    case CancelDeleted(_, _) =>
    case UpdateSchedule(_, _, _, _, _) =>
    case DeleteSchedule(_, _) =>
  }

  lemma OrderOfSound(calendar: Calendar, a: Aggregate, clock: Micros)
    requires Sound(calendar, a, clock)
    ensures OrderSound(a.schedule) && a.schedule.trigger.Valid()
  {
  }

  lemma EnqueueKeepsTrigger(calendar: Calendar, a: Aggregate, generation: int, t: Micros, grace: Micros)
    requires a.schedule.trigger.Valid()
    ensures Settled(a, Enqueue(calendar, a, generation, t, grace)).schedule.trigger == a.schedule.trigger
  {
    hide PollAdvance, PollOccurrence;
  }

  lemma ReleaseKeepsTrigger(a: Aggregate, generation: int, terminal: ScheduleStatus, now: Micros)
    ensures Settled(a, Release(a, generation, terminal, now)).schedule.trigger == a.schedule.trigger
  {
  }

  /** The step stores the occurrence anew. */
  predicate Records(before: World, after: World, sid: string, x: Micros) {
    RowAt(before.state, ExecutionId(sid, x)).None? && RowAt(after.state, ExecutionId(sid, x)).Some?
  }

  /** What a user schedule has just recorded marks off all that it can still record. */
  lemma RecordSetsMark(env: Env, w: World, step: Step, sid: string, x: Micros)
    requires LawfulCalendar(env.calendar) && WorldSound(env, w) && WellFormed(w.state) && Enabled(env, w, step)
    requires Records(w, Apply(env, w, step), sid, x) && !Apply(env, w, step).state.aggregates[sid].schedule.systemManaged
    ensures AboveMark(Apply(env, w, step).state.aggregates[sid], x)
  {
    StepKeepsSound(env, w, step);
    var after := Apply(env, w, step).state;
    assert Sound(env.calendar, after.aggregates[sid], after.clock);
    if after.aggregates[sid].schedule.trigger.Date? {
      OnlyTransactionsRecord(env, w, step, sid, x);
      hide StateSound, HistorySound, Apply, Sound;
      OutcomeSpends(env, w, step, x);
    }
    hide WorldSound, StateSound, Apply;
    StoredSetsMark(env.calendar, after.aggregates[sid], after.clock, x);
  }

  lemma OnlyTransactionsRecord(env: Env, w: World, step: Step, sid: string, x: Micros)
    requires WellFormed(w.state) && Enabled(env, w, step) && Records(w, Apply(env, w, step), sid, x)
    requires !Apply(env, w, step).state.aggregates[sid].schedule.systemManaged
    ensures SingleTarget(step) && Targets(step) == sid && sid in w.state.aggregates
    ensures var a := w.state.aggregates[sid];
      var after := Settled(a, OutcomeOf(env.calendar, w.state, step));
      && Apply(env, w, step).state.aggregates[sid] == after
      && !a.schedule.systemManaged && x in after.executions && x !in a.executions
  {
    assert StepWellFormed(step);
    hide IssuedAfter, Issues, GetNextFireTime, Enabled;
    if SingleTarget(step) {
      OutcomeKeepsManager(env, w, step);
    }
    hide OutcomeOf;
  }

  lemma OutcomeKeepsManager(env: Env, w: World, step: Step)
    requires WellFormed(w.state) && StepWellFormed(step) && SingleTarget(step)
    ensures Targets(step) in w.state.aggregates ==>
      var a := w.state.aggregates[Targets(step)];
      Settled(a, OutcomeOf(env.calendar, w.state, step)).schedule.systemManaged == a.schedule.systemManaged
  {
    hide GetNextFireTime, PollAdvance, PollOccurrence, RetryDelay;
  }

  /**
   * The occurrences recorded for a user-managed schedule between two edits strictly increase,
   * also across purged history: one recorded by a later step is later.  A dated schedule
   * never records a second one.
   */
  lemma OccurrencesIncrease(env: Env, worlds: seq<World>, steps: seq<Step>, sid: string, x: Micros, y: Micros, j: nat, i: nat)
    requires SoundRun(env, worlds, steps) && j < i < |steps|
    requires forall k :: j < k <= i ==> !Edits(env, worlds[k], steps[k], sid)
    ensures && Records(worlds[j], worlds[j + 1], sid, x) && !worlds[j + 1].state.aggregates[sid].schedule.systemManaged
            && Records(worlds[i], worlds[i + 1], sid, y)
            ==> x < y && worlds[i + 1].state.aggregates[sid].schedule.trigger.Recurring()
  {
    hide AboveMark, WorldSound, StateSound, Enabled, Apply, WellFormed, Edits;
    RunKeepsWorldSound(env, worlds, steps, j);
    RunKeepsWorldSound(env, worlds, steps, i);
    SoundOfWorld(env, worlds[i]);
    SoundOfWorld(env, worlds[j]);
    if Records(worlds[j], worlds[j + 1], sid, x) && !worlds[j + 1].state.aggregates[sid].schedule.systemManaged {
      RecordSetsMark(env, worlds[j], steps[j], sid, x);
      RunKeepsWorldSound(env, worlds, steps, j + 1);
      RunSuffix(env, worlds, steps, j + 1);
      MarkAt(env, worlds, steps, sid, x, j + 1, i);
      StepKeepsMark(env, worlds[i], steps[i], sid, x);
    }
  }

  lemma MarkAt(env: Env, worlds: seq<World>, steps: seq<Step>, sid: string, mark: Micros, j: nat, i: nat)
    requires SoundRun(env, worlds, steps) && j <= i <= |steps| && SoundRun(env, worlds[j..], steps[j..])
    requires sid in worlds[j].state.aggregates && AboveMark(worlds[j].state.aggregates[sid], mark)
    requires forall k :: j <= k < i ==> !Edits(env, worlds[k], steps[k], sid)
    ensures sid in worlds[i].state.aggregates && AboveMark(worlds[i].state.aggregates[sid], mark)
  {
    var rest, after := worlds[j..], steps[j..];
    hide AboveMark, WorldSound, Enabled, Apply, Edits;
    assert rest[0] == worlds[j] && rest[i - j] == worlds[i];
    forall k | 0 <= k < i - j
      ensures WellFormed(rest[k].state) && StepWellFormed(after[k]) && !Edits(env, rest[k], after[k], sid)
    {
      assert rest[k] == worlds[k + j] && after[k] == steps[k + j];
      assert !Edits(env, worlds[k + j], steps[k + j], sid);
    }
    RunKeepsMark(env, rest, after, sid, mark, i - j);
  }

  /** For user-managed schedules the unique occurrence constraint never aborts anything. */
  lemma UserSchedulesNeverAbort(env: Env, w: World, step: Step)
    requires LawfulCalendar(env.calendar) && Reachable(env, w) && WellFormed(w.state) && Enabled(env, w, step)
    requires SingleTarget(step) && Targets(step) in w.state.aggregates
    requires !w.state.aggregates[Targets(step)].schedule.systemManaged
    ensures !OutcomeOf(env.calendar, w.state, step).Aborted?
  {
    ReachableSound(env, w);
    hide WorldSound, Sound, Reachable, Enqueue, Complete, Fail, IsFire;
    SoundOfWorld(env, w);
    var a, clock := w.state.aggregates[Targets(step)], w.state.clock;
    assert Sound(env.calendar, a, clock);
    match step
    case Poll(_, generation, t, graceSeconds) => EnqueueSound(env.calendar, a, generation, clock, t, graceSeconds * SECOND);
    case CompleteWork(claim, generation) => CompleteSound(env.calendar, a, claim.id.at, generation, claim.owner, clock);
    case FailWork(claim, generation, policy) =>
      FailSound(env.calendar, a, claim.id.at, claim.attempt, generation, claim.owner, policy, clock);
    case _ =>
  }

  /** For any schedule, a poll aborts exactly when the occurrence it must start is stored. */
  lemma PollAbortsExactly(calendar: Calendar, a: Aggregate, generation: int, t: Micros, grace: Micros)
    requires a.schedule.trigger.Valid()
    ensures Enqueue(calendar, a, generation, t, grace).Aborted? <==>
            && Pollable(a.schedule, t) && a.schedule.active.None?
            && PollOccurrence(calendar, a.schedule, t, grace).Some?
            && PollOccurrence(calendar, a.schedule, t, grace).value in a.executions
  {
    hide PollOccurrence, PollAdvance;
  }

  // ----- Terminal outcomes and fencing -----

  /** In one step a terminal row stays exactly as it is, unless history is purged. */
  lemma TerminalStep(env: Env, w: World, step: Step, id: ExecutionId)
    requires WorldSound(env, w) && WellFormed(w.state) && Enabled(env, w, step)
    requires RowAt(w.state, id).Some? && !RowAt(w.state, id).value.Open()
    ensures RowAt(Apply(env, w, step).state, id).None? || RowAt(Apply(env, w, step).state, id) == RowAt(w.state, id)
  {
    StepMoves(env, w, step, id);
    hide Apply, RowAt;
  }

  /** An execution gets at most one terminal outcome for as long as it is stored. */
  lemma {:induction false} TerminalIsFinal(env: Env, worlds: seq<World>, steps: seq<Step>, id: ExecutionId, i: nat)
    requires SoundRun(env, worlds, steps) && i <= |steps|
    requires forall k :: 0 <= k <= i ==> RowAt(worlds[k].state, id).Some?
    requires !RowAt(worlds[0].state, id).value.Open()
    ensures RowAt(worlds[i].state, id) == RowAt(worlds[0].state, id)
  {
    hide WorldSound, Enabled, Apply, RowAt;
    if i > 0 {
      TerminalIsFinal(env, worlds, steps, id, i - 1);
      RunKeepsWorldSound(env, worlds, steps, i - 1);
      TerminalStep(env, worlds[i - 1], steps[i - 1], id);
    }
  }

  /** The claim under which an execution is running. */
  function Holder(w: World, id: ExecutionId): Option<ClaimToken> {
    if id in w.issued && w.issued[id] != [] && RowAt(w.state, id).Some? && RowAt(w.state, id).value.state == Running
    then Some(w.issued[id][|w.issued[id]| - 1]) else None
  }

  /** The claim no longer holds its execution. */
  predicate Superseded(w: World, claim: ClaimToken) {
    Holder(w, claim.id) != Some(claim)
  }

  /** Only a claim sets an execution running. */
  lemma OnlyClaimsStart(before: Option<Execution>, after: Option<Execution>, cause: Cause, now: Micros)
    requires Moved(before, after, cause, now) && !cause.Claiming?
    ensures after.Some? && after.value.state == Running ==> before.Some? && before.value.state == Running
  {
  }

  /** A step either issues a claim of the execution or leaves its claims alone. */
  lemma HolderAfter(env: Env, w: World, step: Step, id: ExecutionId)
    requires WellFormed(w.state) && StepWellFormed(step) && RowMoved(env, w, step, id)
    requires id in w.issued <==> RowAt(w.state, id).Some?
    ensures var after := Holder(Apply(env, w, step), id);
      after.Some? ==> after == Holder(w, id) || (after.value.serial == w.serial && after == Issues(env, w, step))
  {
    hide Apply, RowAt, Issues, Claims, WellFormed, StepWellFormed, Moved, RowMoved, CauseOf;
    IssuedShape(env, w, step, id);
    IssuesOnlyForClaims(env, w, step);
    if Issues(env, w, step).Some? { IssuedClaim(env, w, step); }
    if step.ClaimLease? {
      ClaimExact(env, w, step, id);
    } else {
      RunningStays(env, w, step, id);
    }
  }

  lemma RunningStays(env: Env, w: World, step: Step, id: ExecutionId)
    requires WellFormed(w.state) && StepWellFormed(step) && RowMoved(env, w, step, id) && !step.ClaimLease?
    ensures var after := RowAt(Apply(env, w, step).state, id);
      after.Some? && after.value.state == Running ==> RowAt(w.state, id).Some? && RowAt(w.state, id).value.state == Running
  {
    assert !CauseOf(w, step).Claiming?;
    hide Apply, RowAt, WellFormed, StepWellFormed, Moved, CauseOf;
    OnlyClaimsStart(RowAt(w.state, id), RowAt(Apply(env, w, step).state, id), CauseOf(w, step), w.state.clock);
  }

  lemma SupersededStep(env: Env, w: World, step: Step, claim: ClaimToken)
    requires WorldSound(env, w) && WellFormed(w.state) && Enabled(env, w, step)
    requires claim in w.claims && Superseded(w, claim)
    ensures claim in Apply(env, w, step).claims && Superseded(Apply(env, w, step), claim)
  {
    assert StepWellFormed(step);
    hide Apply, Issues, WorldSound, WellFormed, Enabled, Holder, RowMoved, StepWellFormed, RowAt;
    SoundOfWorld(env, w);
    SerialsKnown(env, w);
    IssuedShape(env, w, step, claim.id);
    RowStep(env, w, step, claim.id);
    HolderAfter(env, w, step, claim.id);
  }

  /** A superseded claim stays superseded through every later step of the run. */
  lemma {:induction false} SupersededForever(env: Env, worlds: seq<World>, steps: seq<Step>, claim: ClaimToken, i: nat)
    requires SoundRun(env, worlds, steps) && i <= |steps|
    requires claim in worlds[0].claims && Superseded(worlds[0], claim)
    ensures claim in worlds[i].claims && Superseded(worlds[i], claim)
  {
    hide WorldSound, Enabled, Apply, Superseded;
    if i > 0 {
      SupersededForever(env, worlds, steps, claim, i - 1);
      RunKeepsWorldSound(env, worlds, steps, i - 1);
      SupersededStep(env, worlds[i - 1], steps[i - 1], claim);
    }
  }

  /** A row is leased to the owner of the claim that holds it. */
  lemma HolderOwnsLease(env: Env, w: World, id: ExecutionId, owner: Owner)
    requires WorldSound(env, w)
    ensures RowAt(w.state, id).Some? && RowAt(w.state, id).value.HeldBy(owner) <==>
            Holder(w, id).Some? && Holder(w, id).value.owner == owner
    ensures Holder(w, id).Some? ==> Holder(w, id).value in w.claims && Holder(w, id).value.id == id
  {
    hide IsFire;
    assert LogMatches(w, id);
    if RowAt(w.state, id).Some? {
      assert RowSound(RowAt(w.state, id).value) by {
        assert Sound(env.calendar, w.state.aggregates[id.schedule], w.state.clock);
      }
    }
  }

  /**
   * Exactly when the fence lets a superseded claim through: when the execution is running
   * again under a later claim of the same owner, and for completion and failure in the
   * generation that the caller names.
   */
  lemma SupersededAcceptedExactly(env: Env, w: World, claim: ClaimToken, generation: int, policy: RetryPolicy, lease: Micros, now: Micros)
    requires WorldSound(env, w) && claim in w.claims && Superseded(w, claim) && claim.id.schedule in w.state.aggregates
    ensures claim.attempt >= 1
    ensures var a, holder := w.state.aggregates[claim.id.schedule], Holder(w, claim.id);
      var reused := holder.Some? && holder.value.owner == claim.owner && claim.serial < holder.value.serial;
      var current := reused && RowAt(w.state, claim.id).value.generation == generation;
      && (Complete(a, claim.id.at, generation, claim.owner, now).Rejected? <==> !current)
      && (Fail(a, claim.id.at, claim.attempt, generation, claim.owner, policy, now).Rejected? <==> !current)
      && (Refresh(a, claim.id.at, claim.owner, lease, now).Rejected? <==> !reused)
  {
    SerialsKnown(env, w);
    HolderOwnsLease(env, w, claim.id, claim.owner);
    HolderIsNewest(env, w, claim);
    hide WorldSound;
    FencedExactly(w.state.aggregates[claim.id.schedule], claim.id.at, claim.attempt, generation, claim.owner, policy, lease, now);
  }

  lemma HolderIsNewest(env: Env, w: World, claim: ClaimToken)
    requires WorldSound(env, w) && claim in w.claims && Superseded(w, claim)
    ensures Holder(w, claim.id).Some? ==> claim.serial < Holder(w, claim.id).value.serial
  {
    hide StateSound, LogMatches;
    assert ClaimSoundIn(w, claim);
  }

  /** No later claim was made under the same owner. */
  ghost predicate Latest(w: World, claim: ClaimToken) {
    forall c :: c in w.claims && c.owner == claim.owner ==> c.serial <= claim.serial
  }

  /** So a superseded claim that is the latest of its owner changes nothing, whatever it calls. */
  lemma LatestClaimIsFenced(env: Env, w: World, claim: ClaimToken, generation: int, policy: RetryPolicy, lease: Micros, now: Micros)
    requires WorldSound(env, w) && claim in w.claims && Superseded(w, claim) && Latest(w, claim) && claim.id.schedule in w.state.aggregates
    ensures claim.attempt >= 1
    ensures var a := w.state.aggregates[claim.id.schedule];
      && Complete(a, claim.id.at, generation, claim.owner, now).Rejected?
      && Fail(a, claim.id.at, claim.attempt, generation, claim.owner, policy, now).Rejected?
      && Refresh(a, claim.id.at, claim.owner, lease, now).Rejected?
  {
    HolderOwnsLease(env, w, claim.id, claim.owner);
    hide WorldSound, Superseded, Holder;
    SupersededAcceptedExactly(env, w, claim, generation, policy, lease, now);
  }

  lemma LatestStep(env: Env, w: World, step: Step, claim: ClaimToken)
    requires WorldSound(env, w) && WellFormed(w.state) && Enabled(env, w, step)
    requires claim in w.claims && Latest(w, claim)
    requires !(Claims(env, w, step) && step.owner == claim.owner)
    ensures claim in Apply(env, w, step).claims && Latest(Apply(env, w, step), claim)
  {
    if Issues(env, w, step).Some? { IssuedClaim(env, w, step); }
    hide AfterState, RowAt, IssuedAfter, Issues, Claims, OutcomeOf, WorldSound;
  }

  lemma IssuedIsLatest(env: Env, w: World, step: Step, claim: ClaimToken)
    requires WorldSound(env, w) && WellFormed(w.state) && Enabled(env, w, step) && Issues(env, w, step) == Some(claim)
    ensures claim in Apply(env, w, step).claims && Latest(Apply(env, w, step), claim)
  {
    SerialsKnown(env, w);
    IssuedClaim(env, w, step);
    IssuedShape(env, w, step, claim.id);
  }

  /**
   * A worker loop that claims anew under its owner only after it is done with its claim uses
   * latest claims only: a claim issued in the first step is the latest of its owner until that
   * owner claims again.
   */
  lemma {:induction false} WorkerUsesLatest(env: Env, worlds: seq<World>, steps: seq<Step>, claim: ClaimToken, i: nat)
    requires SoundRun(env, worlds, steps) && 1 <= i <= |steps|
    requires Issues(env, worlds[0], steps[0]) == Some(claim)
    requires forall k :: 1 <= k < i ==> !(Claims(env, worlds[k], steps[k]) && steps[k].owner == claim.owner)
    ensures claim in worlds[i].claims && Latest(worlds[i], claim)
  {
    hide WorldSound, Enabled, Apply, Issues, Claims;
    SoundOfWorld(env, worlds[0]);
    if i == 1 {
      IssuedIsLatest(env, worlds[0], steps[0], claim);
    } else {
      WorkerUsesLatest(env, worlds, steps, claim, i - 1);
      RunKeepsWorldSound(env, worlds, steps, i - 1);
      LatestStep(env, worlds[i - 1], steps[i - 1], claim);
    }
  }

  /** Completion and failure are accepted exactly from the holder in its generation, renewal from the holder. */
  lemma FencedExactly(a: Aggregate, at: Micros, attempt: nat, generation: int, owner: Owner, policy: RetryPolicy, lease: Micros, now: Micros)
    requires attempt >= 1
    ensures var held := Row(a, at).Some? && Row(a, at).value.HeldBy(owner);
      var current := held && Row(a, at).value.generation == generation;
      && (Complete(a, at, generation, owner, now).Rejected? <==> !current)
      && (Fail(a, at, attempt, generation, owner, policy, now).Rejected? <==> !current)
      && (Refresh(a, at, owner, lease, now).Rejected? <==> !held)
  {
    hide RetryDelay;
  }

  /**
   * The exception happens: completion does not compare the attempt, so a worker that claims
   * the same execution twice under one owner can finish the second attempt with its first claim.
   */
  lemma OwnerReuseDefeatsFence(calendar: Calendar, task: Task, owner: Owner)
    ensures var a := Created(calendar, task, Date(0), true, 0);
      var polled := Enqueue(calendar, a, 1, 0, 100);
      && polled.Committed?
      && var first := Claim(polled.after, 0, 1, owner, 10, 0);
      && first.Committed? && first.after.executions[0].attempt == 1
      && var second := Claim(first.after, 0, 1, owner, 10, 20);
      && second.Committed? && second.after.executions[0].attempt == 2
      && Complete(second.after, 0, 1, owner, 25).Committed?
  {
    var a := Created(calendar, task, Date(0), true, 0);
    LastFireUnique(calendar, Date(0), 0, 0, 0);
    assert PollAdvance(calendar, a.schedule, 0, 100) == TriggerAdvance(Some(0), None);
  }

  // ----- Leases -----

  /** At most one execution of a schedule is open, whatever its lease. */
  lemma OneOpenExecution(env: Env, w: World, id: ExecutionId, other: Micros)
    requires StateSound(env.calendar, w.state) && RowAt(w.state, id).Some? && RowAt(w.state, id).value.Open()
    requires other != id.at && RowAt(w.state, ExecutionId(id.schedule, other)).Some?
    ensures !RowAt(w.state, ExecutionId(id.schedule, other)).value.Open()
  {
    hide IsFire;
    var a := w.state.aggregates[id.schedule];
    assert SlotSound(a) by { assert Sound(env.calendar, a, w.state.clock); }
    assert id.at in a.executions && other in a.executions;
  }

  /** Completing or failing one execution leaves every other stored row alone. */
  lemma EndingTouchesItsTarget(env: Env, w: World, step: Step, id: ExecutionId)
    requires WellFormed(w.state) && Enabled(env, w, step) && (step.CompleteWork? || step.FailWork?)
    requires RowAt(w.state, id).Some? && step.claim.id != id
    ensures RowAt(Apply(env, w, step).state, id) == RowAt(w.state, id)
  {
    hide Release, RetryDelay, IssuedAfter;
    if step.claim.id.schedule == id.schedule && id.schedule in w.state.aggregates {
      var a, now := w.state.aggregates[id.schedule], w.state.clock;
      if Accepts(a, step.claim.id.at, step.generation, step.claim.owner) {
        var row := a.executions[step.claim.id.at].(leaseOwner := None, leaseExpiresAt := None, completedAt := Some(now));
        ReleaseRows(WithRow(a, step.claim.id.at, row.(state := Succeeded)), step.generation, ScheduleStatus.Completed, id.at, now);
        ReleaseRows(WithRow(a, step.claim.id.at, row.(state := ExecutionState.Failed)), step.generation, ScheduleStatus.Failed, id.at, now);
      }
    }
  }

  /** A live lease survives every cause but the end of its own work. */
  lemma LiveLeaseMoves(before: Execution, after: Option<Execution>, cause: Cause, now: Micros, owner: Owner)
    requires Moved(Some(before), after, cause, now) && before.LeaseLive(now) && before.HeldBy(owner)
    ensures || (after.Some? && after.value.HeldBy(owner) && after.value.attempt == before.attempt)
            || cause == Completing(owner) || cause == Failing(owner)
  {
  }

  /**
   * While a lease is live, its execution is the only open one of its schedule, and it ends
   * only by its own owner's completion or failure: no step hands it to another owner.
   */
  lemma LeaseExclusion(env: Env, w: World, step: Step, id: ExecutionId, owner: Owner)
    requires WorldSound(env, w) && WellFormed(w.state) && Enabled(env, w, step)
    requires RowAt(w.state, id).Some? && RowAt(w.state, id).value.LeaseLive(w.state.clock)
    requires RowAt(w.state, id).value.HeldBy(owner)
    ensures forall at :: at != id.at && RowAt(w.state, ExecutionId(id.schedule, at)).Some? ==>
                           !RowAt(w.state, ExecutionId(id.schedule, at)).value.Open()
    ensures var after := RowAt(Apply(env, w, step).state, id);
      || (after.Some? && after.value.HeldBy(owner) && after.value.attempt == RowAt(w.state, id).value.attempt)
      || ((step.CompleteWork? || step.FailWork?) && step.claim.owner == owner && step.claim.id == id)
  {
    hide Apply, RowAt;
    forall at | at != id.at && RowAt(w.state, ExecutionId(id.schedule, at)).Some?
      ensures !RowAt(w.state, ExecutionId(id.schedule, at)).value.Open()
    {
      OneOpenExecution(env, w, id, at);
    }
    StepMoves(env, w, step, id);
    hide Moved, WorldSound, Enabled;
    LiveLeaseMoves(RowAt(w.state, id).value, RowAt(Apply(env, w, step).state, id), CauseOf(w, step), w.state.clock, owner);
    if (step.CompleteWork? || step.FailWork?) && step.claim.id != id {
      EndingTouchesItsTarget(env, w, step, id);
    }
  }

  /** If workers use only the latest claim of their owner, a live lease ends only by its own claim. */
  lemma LeaseEndsByItsOwnClaim(env: Env, w: World, step: Step, id: ExecutionId)
    requires LawfulCalendar(env.calendar) && Reachable(env, w) && WellFormed(w.state) && Enabled(env, w, step)
    requires RowAt(w.state, id).Some? && RowAt(w.state, id).value.LeaseLive(w.state.clock)
    requires step.CompleteWork? || step.FailWork? ==> Latest(w, step.claim)
    ensures Holder(w, id).Some?
    ensures || Holder(Apply(env, w, step), id) == Holder(w, id)
            || ((step.CompleteWork? || step.FailWork?) && Holder(w, id) == Some(step.claim))
  {
    ReachableSound(env, w);
    SoundOfWorld(env, w);
    LiveIsHeld(env, w, id);
    var holder := Holder(w, id).value;
    HolderOwnsLease(env, w, id, holder.owner);
    LeaseExclusion(env, w, step, id, holder.owner);
    if (step.CompleteWork? || step.FailWork?) && step.claim.id == id && step.claim.owner == holder.owner {
      if Superseded(w, step.claim) {
        HolderIsNewest(env, w, step.claim);
      }
    } else {
      HolderKept(env, w, step, id);
    }
  }

  lemma LiveIsHeld(env: Env, w: World, id: ExecutionId)
    requires WorldSound(env, w) && RowAt(w.state, id).Some? && RowAt(w.state, id).value.LeaseLive(w.state.clock)
    ensures Holder(w, id).Some?
  {
    hide IsFire;
    assert RowSound(RowAt(w.state, id).value) by {
      assert Sound(env.calendar, w.state.aggregates[id.schedule], w.state.clock);
    }
    HolderOwnsLease(env, w, id, RowAt(w.state, id).value.leaseOwner.value);
  }

  /** A row that keeps its attempt and its lease keeps the claim that holds it. */
  lemma HolderKept(env: Env, w: World, step: Step, id: ExecutionId)
    requires WorldSound(env, w) && WellFormed(w.state) && Enabled(env, w, step) && Holder(w, id).Some?
    requires var after := RowAt(Apply(env, w, step).state, id);
      after.Some? && after.value.state == Running && after.value.attempt == RowAt(w.state, id).value.attempt
    ensures Holder(Apply(env, w, step), id) == Holder(w, id)
  {
    RowStep(env, w, step, id);
    IssuedShape(env, w, step, id);
    hide Apply, RowAt, Issues, WorldSound, RowMoved, WellFormed, Enabled, StepWellFormed;
  }

  // ----- No lost work -----

  /** A claim by identifier succeeds exactly when delivery is ready and the schedule lives. */
  lemma ClaimSucceedsExactly(calendar: Calendar, a: Aggregate, at: Micros, generation: int, owner: Owner, lease: Micros, clock: Micros)
    requires Sound(calendar, a, clock)
    ensures Claim(a, at, generation, owner, lease, clock).Committed? <==>
            DeliveryState(a, at, generation, clock) == Ready && a.schedule.status != Deleted
  {
    hide IsFire;
  }

  /** The delivery state alone does not decide: crashed work of a deleted schedule reads as ready. */
  lemma ReadyButDeleted(calendar: Calendar, task: Task, owner: Owner, next: Owner)
    ensures var a := Created(calendar, task, Date(0), true, 0);
      var polled := Enqueue(calendar, a, 1, 0, 10);
      && polled.Committed?
      && var claimed := Claim(polled.after, 0, 1, owner, 10, 0);
      && claimed.Committed?
      && var deleted := Delete(claimed.after, 1, 5);
      && deleted.Committed?
      && DeliveryState(deleted.after, 0, 1, 20) == Ready
      && Claim(deleted.after, 0, 1, next, 10, 20).Rejected?
  {
    var a := Created(calendar, task, Date(0), true, 0);
    LastFireUnique(calendar, Date(0), 0, 0, 0);
    assert PollAdvance(calendar, a.schedule, 0, 10) == TriggerAdvance(Some(0), None);
    var polled := Enqueue(calendar, a, 1, 0, 10);
    var claimed := Claim(polled.after, 0, 1, owner, 10, 0);
    var deleted := Delete(claimed.after, 1, 5);
  }

  /** Open work of a living schedule can be claimed in its generation once nothing blocks it. */
  lemma NoLostWork(env: Env, w: World, id: ExecutionId, owner: Owner, lease: Micros, now: Micros)
    requires LawfulCalendar(env.calendar) && Reachable(env, w) && RowAt(w.state, id).Some?
    requires RowAt(w.state, id).value.Open() && w.state.aggregates[id.schedule].schedule.status != Deleted
    requires RowAt(w.state, id).value.Unblocked(now)
    ensures Claim(w.state.aggregates[id.schedule], id.at, RowAt(w.state, id).value.generation, owner, lease, now).Committed?
  {
    ReachableSound(env, w);
    assert SlotSound(w.state.aggregates[id.schedule]) by { assert Sound(env.calendar, w.state.aggregates[id.schedule], w.state.clock); }
  }

  /** Once its dispatch mark has timed out as well, the same work is eligible for the dispatch list. */
  lemma RecoveredForDispatch(a: Aggregate, at: Micros, t: Micros, timeout: Micros)
    requires at in a.executions && RowSound(a.executions[at]) && a.executions[at].Open() && a.schedule.status != Deleted
    requires a.executions[at].Unblocked(t) && ReachedOrEmpty(a.executions[at].dispatchedAt, t - timeout)
    ensures var generation := a.executions[at].generation;
      Deliverable(Requeue(a, generation, t, timeout).executions[at], generation, t)
  {
  }

  /** Dispatch lists only work that a claim in the same generation would get. */
  lemma ListedIsClaimable(calendar: Calendar, a: Aggregate, at: Micros, generation: int, t: Micros, owner: Owner, lease: Micros, clock: Micros)
    requires Sound(calendar, a, clock) && at in a.executions && Deliverable(a.executions[at], generation, t) && t <= clock
    ensures a.schedule.status != Deleted && Claim(a, at, generation, owner, lease, clock).Committed?
  {
    hide IsFire;
    assert RowSound(a.executions[at]);
  }
}
