/** The coalesced occurrence of a busy schedule: how it can be replaced, promoted, cleared or lost. */
module SchedulingWaiting {
  import opened Options
  import opened Triggers
  import opened ScheduleAggregate
  import opened ScheduleInvariant
  import opened SchedulingProtocol
  import opened SchedulingRuns
  import opened SchedulingTheorems

  /** An occurrence at or after `p` waits. */
  predicate Waits(a: Aggregate, p: Micros) {
    a.schedule.pendingFor.Some? && p <= a.schedule.pendingFor.value
  }

  /** An occurrence at or after `p` has been started, and none waits any more. */
  predicate Promoted(a: Aggregate, after: Aggregate, p: Micros) {
    && after.schedule.pendingFor.None?
    && after.schedule.active.Some? && p <= after.schedule.active.value
    && after.schedule.active.value !in a.executions && after.schedule.active.value in after.executions
  }

  /** The schedule is edited, deleted or reconciled. */
  ghost predicate Clears(env: Env, w: World, step: Step, sid: string)
    requires WellFormed(w.state) && StepWellFormed(step) && sid in w.state.aggregates
  {
    || Edits(env, w, step, sid)
    || (step.DeleteSchedule? && step.schedule == sid && Delete(w.state.aggregates[sid], step.revision, w.state.clock).Committed?)
    || (step.Synchronize? && w.state.aggregates[sid].schedule.systemManaged)
  }

  /** A poll whose clock precedes what waits picks an earlier occurrence and records it. */
  predicate Drops(calendar: Calendar, a: Aggregate, t: Micros, grace: Micros)
    requires a.schedule.trigger.Valid()
  {
    && Pollable(a.schedule, t) && a.schedule.pendingFor.Some? && t < a.schedule.pendingFor.value
    && var picked := PollOccurrence(calendar, a.schedule, t, grace);
       picked.Some? && (a.schedule.active.Some? || picked.value !in a.executions)
  }

  predicate StepDrops(env: Env, w: World, step: Step, sid: string)
    requires WellFormed(w.state) && sid in w.state.aggregates
  {
    step.Poll? && step.schedule == sid && Drops(env.calendar, w.state.aggregates[sid], step.t, step.graceSeconds * SECOND)
  }

  /** Only a dated schedule of the system can have something waiting after its next run. */
  lemma OnlyDatedSystemDrops(calendar: Calendar, a: Aggregate, clock: Micros, t: Micros, grace: Micros)
    requires LawfulCalendar(calendar) && Sound(calendar, a, clock) && Drops(calendar, a, t, grace)
    ensures a.schedule.systemManaged && a.schedule.trigger.Date?
  {
    hide IsFire, PollAdvance;
    PollFacts(calendar, a, clock, t, grace);
  }

  lemma EnqueueWaits(calendar: Calendar, a: Aggregate, generation: int, clock: Micros, t: Micros, grace: Micros)
    requires LawfulCalendar(calendar) && Sound(calendar, a, clock) && a.schedule.pendingFor.Some?
    ensures var after := Settled(a, Enqueue(calendar, a, generation, t, grace));
      (Waits(after, a.schedule.pendingFor.value) || Promoted(a, after, a.schedule.pendingFor.value)) <==> !Drops(calendar, a, t, grace)
  {
    hide IsFire, PollAdvance, PollOccurrence;
    if Pollable(a.schedule, t) {
      PickFacts(calendar, a, clock, t, grace);
      if PendingDue(a.schedule, t) { PicksNoEarlier(calendar, a.schedule, t, grace); }
    }
  }

  lemma PicksNoEarlier(calendar: Calendar, s: Schedule, t: Micros, grace: Micros)
    requires s.trigger.Valid() && PendingDue(s, t)
    ensures var picked := PollOccurrence(calendar, s, t, grace); picked.Some? && s.pendingFor.value <= picked.value
  {
    hide PollAdvance;
  }

  lemma ReleaseWaits(a: Aggregate, generation: int, terminal: ScheduleStatus, now: Micros)
    requires a.schedule.pendingFor.Some?
    ensures var p, after := a.schedule.pendingFor.value, Settled(a, Release(a, generation, terminal, now));
      Waits(after, p) || Promoted(a, after, p)
  {
  }

  lemma OutcomeWaits(env: Env, w: World, step: Step)
    requires LawfulCalendar(env.calendar) && StateSound(env.calendar, w.state) && WellFormed(w.state) && Enabled(env, w, step)
    requires SingleTarget(step) && Targets(step) in w.state.aggregates
    requires w.state.aggregates[Targets(step)].schedule.pendingFor.Some?
    requires !Clears(env, w, step, Targets(step))
    ensures var a := w.state.aggregates[Targets(step)];
      var after := Settled(a, OutcomeOf(env.calendar, w.state, step));
      (Waits(after, a.schedule.pendingFor.value) || Promoted(a, after, a.schedule.pendingFor.value)) <==>
      !StepDrops(env, w, step, Targets(step))
  {
    hide Sound, Enqueue, Release, RetryDelay, IsFire, PollAdvance, GetNextFireTime, Drops, Delete, CancelUnstarted, StateSound,
      WellFormed;
    var a, now := w.state.aggregates[Targets(step)], w.state.clock;
    assert Sound(env.calendar, a, now) && a.schedule.trigger.Valid() by { SoundAt(env, w, Targets(step)); }
    match step
    case Poll(_, generation, t, graceSeconds) => EnqueueWaits(env.calendar, a, generation, now, t, graceSeconds * SECOND);
    case ClaimLease(_, _, _, _) =>
    case RefreshLease(_, _) =>
    case CompleteWork(claim, generation) =>
      if Accepts(a, claim.id.at, generation, claim.owner) {
        var row := a.executions[claim.id.at].(state := Succeeded, completedAt := Some(now), leaseOwner := None, leaseExpiresAt := None);
        ReleaseWaits(WithRow(a, claim.id.at, row), generation, ScheduleStatus.Completed, now);
      }
    case FailWork(claim, generation, policy) =>
      if Accepts(a, claim.id.at, generation, claim.owner) && !WillRetry(a, claim.attempt, policy) {
        var row := a.executions[claim.id.at].(leaseOwner := None, leaseExpiresAt := None, state := ExecutionState.Failed, completedAt := Some(now));
        ReleaseWaits(WithRow(a, claim.id.at, row), generation, ScheduleStatus.Failed, now);
      }
    case MarkSent(_, _, _) =>
    case CancelDeleted(_, _) =>
    case UpdateSchedule(_, _, _, _, _) =>
    case DeleteSchedule(_, _) =>
  }

  lemma SoundAt(env: Env, w: World, sid: string)
    requires StateSound(env.calendar, w.state) && sid in w.state.aggregates
    ensures Sound(env.calendar, w.state.aggregates[sid], w.state.clock) && w.state.aggregates[sid].schedule.trigger.Valid()
  {
  }

  lemma SweepKeepsWaiting(env: Env, w: World, step: Step, sid: string)
    requires WellFormed(w.state) && Enabled(env, w, step) && !SingleTarget(step)
    requires sid in w.state.aggregates && w.state.aggregates[sid].schedule.pendingFor.Some? && !Clears(env, w, step, sid)
    ensures var after := AfterState(env.calendar, w.state, step);
      sid in after.aggregates && Waits(after.aggregates[sid], w.state.aggregates[sid].schedule.pendingFor.value)
  {
    hide GetNextFireTime, Reconciled, Orphaned;
  }

  lemma TransactionWaits(env: Env, w: World, step: Step, sid: string)
    requires LawfulCalendar(env.calendar) && StateSound(env.calendar, w.state) && WellFormed(w.state) && Enabled(env, w, step)
    requires sid in w.state.aggregates && w.state.aggregates[sid].schedule.pendingFor.Some?
    requires SingleTarget(step) && !Clears(env, w, step, sid)
    ensures var a := w.state.aggregates[sid];
      var after := AfterState(env.calendar, w.state, step);
      && sid in after.aggregates
      && (StepDrops(env, w, step, sid) <==>
          !(Waits(after.aggregates[sid], a.schedule.pendingFor.value) || Promoted(a, after.aggregates[sid], a.schedule.pendingFor.value)))
  {
    TransactionState(env.calendar, w.state, step);
    assert StepWellFormed(step);
    hide AfterState, Enabled, StateSound, WellFormed, Sound, OutcomeOf, Drops, Clears;
    if Targets(step) == sid {
      OutcomeWaits(env, w, step);
    }
  }

  /**
   * In one step an occurrence that waits is kept, replaced by a later one, or started; else
   * the schedule is edited, deleted or reconciled, or the step is exactly a poll that drops it.
   */
  lemma WaitingStep(env: Env, w: World, step: Step, sid: string)
    requires LawfulCalendar(env.calendar) && StateSound(env.calendar, w.state) && WellFormed(w.state) && Enabled(env, w, step)
    requires sid in w.state.aggregates && w.state.aggregates[sid].schedule.pendingFor.Some?
    ensures var a := w.state.aggregates[sid];
      var after := Apply(env, w, step).state;
      && sid in after.aggregates
      && (StepDrops(env, w, step, sid) <==>
          !(|| Waits(after.aggregates[sid], a.schedule.pendingFor.value)
            || Promoted(a, after.aggregates[sid], a.schedule.pendingFor.value)
            || Clears(env, w, step, sid)))
      && (StepDrops(env, w, step, sid) ==> a.schedule.systemManaged && a.schedule.trigger.Date?)
  {
    var a := w.state.aggregates[sid];
    ApplyState(env, w, step);
    KeysGrow(env, w, step);
    if StepDrops(env, w, step, sid) {
      DropsOnlyDatedSystem(env, w, step, sid);
    }
    hide Apply, AfterState, StateSound, WellFormed, Waits, Promoted, Clears, StepDrops;
    if SingleTarget(step) {
      if !Clears(env, w, step, sid) { TransactionWaits(env, w, step, sid); } else { ClearsDropsNothing(env, w, step, sid); }
    } else {
      if !Clears(env, w, step, sid) { SweepKeepsWaiting(env, w, step, sid); }
      ClearsDropsNothing(env, w, step, sid);
    }
  }

  lemma DropsOnlyDatedSystem(env: Env, w: World, step: Step, sid: string)
    requires LawfulCalendar(env.calendar) && StateSound(env.calendar, w.state) && WellFormed(w.state)
    requires sid in w.state.aggregates && StepDrops(env, w, step, sid)
    ensures w.state.aggregates[sid].schedule.systemManaged && w.state.aggregates[sid].schedule.trigger.Date?
  {
    hide Sound;
    SoundAt(env, w, sid);
    OnlyDatedSystemDrops(env.calendar, w.state.aggregates[sid], w.state.clock, step.t, step.graceSeconds * SECOND);
  }

  lemma ClearsDropsNothing(env: Env, w: World, step: Step, sid: string)
    requires WellFormed(w.state) && StepWellFormed(step) && sid in w.state.aggregates
    requires Clears(env, w, step, sid) || !SingleTarget(step)
    ensures !StepDrops(env, w, step, sid)
  {
    hide OutcomeOf, Delete;
  }

  /** Schedules are never removed. */
  lemma KeysGrow(env: Env, w: World, step: Step)
    requires WellFormed(w.state) && Enabled(env, w, step)
    ensures w.state.aggregates.Keys <= Apply(env, w, step).state.aggregates.Keys
  {
    hide OutcomeOf, Issues, IssuedAfter, GetNextFireTime, Reconciled, Orphaned;
  }

  /** The wait of a schedule ends in this step. */
  ghost predicate EndsWait(env: Env, w: World, step: Step, after: World, sid: string)
    requires WellFormed(w.state) && StepWellFormed(step)
  {
    sid in w.state.aggregates && sid in after.state.aggregates && w.state.aggregates[sid].schedule.pendingFor.Some? &&
    (|| Promoted(w.state.aggregates[sid], after.state.aggregates[sid], w.state.aggregates[sid].schedule.pendingFor.value)
     || Clears(env, w, step, sid)
     || StepDrops(env, w, step, sid))
  }

  /**
   * Over any run a waiting occurrence goes on waiting, or a later one in its place, until one
   * at least as late is started, the schedule is edited, deleted or reconciled, or a poll drops it.
   */
  lemma {:induction false} WaitingLasts(env: Env, worlds: seq<World>, steps: seq<Step>, sid: string, p: Micros, i: nat)
    requires SoundRun(env, worlds, steps) && i <= |steps|
    requires sid in worlds[0].state.aggregates && Waits(worlds[0].state.aggregates[sid], p)
    requires forall k :: 0 <= k < i ==> !EndsWait(env, worlds[k], steps[k], worlds[k + 1], sid)
    ensures sid in worlds[i].state.aggregates && Waits(worlds[i].state.aggregates[sid], p)
  {
    hide WorldSound, Apply, Promoted, Clears, StepDrops;
    if i > 0 {
      assert StepWellFormed(steps[i - 1]) && Enabled(env, worlds[i - 1], steps[i - 1]);
      hide Enabled;
      WaitingLasts(env, worlds, steps, sid, p, i - 1);
      RunKeepsWorldSound(env, worlds, steps, i - 1);
      SoundOfWorld(env, worlds[i - 1]);
      WaitingStep(env, worlds[i - 1], steps[i - 1], sid);
      assert !EndsWait(env, worlds[i - 1], steps[i - 1], worlds[i], sid);
    }
  }

  /**
   * The drop happens: an edited dated definition asks for an immediate run at 200, and a poll
   * that read its clock at 150, when the old date had made the schedule due, starts the new
   * date instead and forgets the immediate run.
   */
  lemma StalePollDropsPending(calendar: Calendar, task: Task)
    ensures var stored := Reconciled(calendar, Definition(task, DefinedDate(100), false), None, 0);
      var edited := Reconciled(calendar, Definition(task, DefinedDate(120), true), Some(stored), 200);
      && Shortlisted(stored.schedule, 150)
      && edited.schedule.pendingFor == Some(200)
      && Drops(calendar, edited, 150, 100)
      && var polled := Enqueue(calendar, edited, 1, 150, 100);
      && polled.Committed? && polled.after.schedule.active == Some(120) && polled.after.schedule.pendingFor.None?
  {
    var stored := Reconciled(calendar, Definition(task, DefinedDate(100), false), None, 0);
    var edited := Reconciled(calendar, Definition(task, DefinedDate(120), true), Some(stored), 200);
    LastFireUnique(calendar, Date(120), 120, 150, 120);
    assert PollAdvance(calendar, edited.schedule, 150, 100) == TriggerAdvance(Some(120), None);
  }
}
