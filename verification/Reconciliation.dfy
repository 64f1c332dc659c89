/** Reconciliation of system schedules converges to the registered definitions. */
module Reconciliation {
  import opened Options
  import opened Triggers
  import opened ScheduleAggregate
  import opened ScheduleInvariant
  import opened SchedulingProtocol
  import opened SchedulingRuns
  import opened SchedulingTheorems

  type Desired = map<string, Definition>

  /** Each definition is stored as it is wanted, and every other system schedule is retired. */
  ghost predicate InSync(st: State, desired: Desired) {
    && (forall sid :: sid in desired ==>
          && sid in st.aggregates
          && st.aggregates[sid].schedule.systemManaged
          && Matches(st.aggregates[sid].schedule, desired[sid], st.clock))
    && (forall sid :: sid in st.aggregates && sid !in desired && st.aggregates[sid].schedule.systemManaged ==>
          st.aggregates[sid].schedule.status == Deleted && !st.aggregates[sid].schedule.enabled)
  }

  /** A stored trigger that matches once matches at any time: its anchor is its own. */
  lemma MatchesAtAnyTime(s: Schedule, definition: Definition, now: Micros, later: Micros)
    ensures Matches(s, definition, now) <==> Matches(s, definition, later)
  {
  }

  lemma ReconciledMatches(calendar: Calendar, definition: Definition, stored: Option<Aggregate>, now: Micros)
    requires definition.Valid() && (stored.Some? ==> stored.value.schedule.systemManaged)
    ensures var a := Reconciled(calendar, definition, stored, now);
      && a.schedule.systemManaged && Matches(a.schedule, definition, now)
      && (stored.Some? ==> a.executions == stored.value.executions && a.schedule.active == stored.value.schedule.active)
      && (stored.Some? && a == stored.value ==> Matches(stored.value.schedule, definition, now))
  {
    hide GetNextFireTime;
  }

  lemma OrphanRetired(a: Aggregate, now: Micros)
    ensures var b := Orphaned(a, now);
      && b.schedule.status == Deleted && !b.schedule.enabled && b.schedule.systemManaged == a.schedule.systemManaged
      && (b == a <==> a.schedule.status == Deleted && !a.schedule.enabled)
  {
    if a.schedule.enabled || a.schedule.status != Deleted {
      assert Orphaned(a, now).schedule.revision == a.schedule.revision + 1;
    }
  }

  /** A synchronization that is not refused leaves the store in sync. */
  lemma SyncEstablishes(calendar: Calendar, st: State, desired: Desired)
    requires ValidDefinitions(desired) && !SyncRefused(st, desired)
    ensures InSync(Synchronized(calendar, st, desired), desired)
  {
    hide Reconciled, Orphaned, Matches;
    var after := Synchronized(calendar, st, desired);
    forall sid | sid in after.aggregates
      ensures sid in desired ==> after.aggregates[sid].schedule.systemManaged && Matches(after.aggregates[sid].schedule, desired[sid], st.clock)
      ensures sid !in desired && after.aggregates[sid].schedule.systemManaged ==>
                after.aggregates[sid].schedule.status == Deleted && !after.aggregates[sid].schedule.enabled
    {
      if sid in desired {
        ReconciledMatches(calendar, desired[sid], if sid in st.aggregates then Some(st.aggregates[sid]) else None, st.clock);
      } else {
        OrphanRetired(st.aggregates[sid], st.clock);
      }
    }
  }

  /** A synchronization changes nothing exactly when the store is already in sync. */
  lemma UnchangedExactlyInSync(calendar: Calendar, st: State, desired: Desired)
    requires ValidDefinitions(desired) && !SyncRefused(st, desired)
    ensures Synchronized(calendar, st, desired) == st <==> InSync(st, desired)
  {
    hide Orphaned, Matches;
    var after := Synchronized(calendar, st, desired);
    if InSync(st, desired) {
      forall sid | sid in st.aggregates
        ensures sid in after.aggregates && after.aggregates[sid] == st.aggregates[sid]
      {
        OrphanRetired(st.aggregates[sid], st.clock);
      }
      assert after.aggregates.Keys == st.aggregates.Keys;
      assert after.aggregates == st.aggregates;
    }
    if after == st {
      SyncEstablishes(calendar, st, desired);
    }
  }

  /** Repeating a synchronization, at once or later, changes nothing. */
  lemma SyncIdempotent(calendar: Calendar, st: State, desired: Desired, later: Micros)
    requires ValidDefinitions(desired)
    ensures var once := Synchronized(calendar, st, desired).(clock := later);
      !SyncRefused(st, desired) ==> Synchronized(calendar, once, desired) == once
  {
    if !SyncRefused(st, desired) {
      SyncEstablishes(calendar, st, desired);
      hide Matches, Synchronized;
      var once := Synchronized(calendar, st, desired).(clock := later);
      LaterInSync(Synchronized(calendar, st, desired), desired, later);
      UnchangedExactlyInSync(calendar, once, desired);
    }
  }

  lemma LaterInSync(st: State, desired: Desired, later: Micros)
    requires InSync(st, desired)
    ensures InSync(st.(clock := later), desired) && !SyncRefused(st.(clock := later), desired)
  {
    forall sid | sid in desired
      ensures Matches(st.aggregates[sid].schedule, desired[sid], later)
    {
      MatchesAtAnyTime(st.aggregates[sid].schedule, desired[sid], st.clock, later);
    }
  }

  // ----- Steps of the engine in between -----

  /** Every definition fires again and again: an interval, or a cron expression that never runs out. */
  ghost predicate AllUnending(calendar: Calendar, desired: Desired) {
    forall sid :: sid in desired ==>
      match desired[sid].trigger
      case DefinedInterval(_, _) => true
      case DefinedDate(_) => false
      case DefinedCron(expression) => Unending(calendar, Cron(expression))
  }

  lemma MatchingIsUnending(calendar: Calendar, s: Schedule, desired: Desired, sid: string, now: Micros)
    requires AllUnending(calendar, desired) && sid in desired && desired[sid].Valid() && Matches(s, desired[sid], now)
    ensures Unending(calendar, s.trigger)
  {
    if desired[sid].trigger.DefinedInterval? {
      IntervalNeverEnds(calendar, s.trigger);
    }
  }

  /** A schedule that reconciliation has set up keeps its contract in every transaction. */
  ghost predicate KeepsContract(calendar: Calendar, s: Schedule, after: Schedule) {
    && after.systemManaged == s.systemManaged
    && (s.systemManaged ==>
          && after.task == s.task && after.trigger == s.trigger && after.enabled == s.enabled
          && (after.status == Deleted <==> s.status == Deleted)
          && (Unending(calendar, s.trigger) && s.status == Active ==> after.status == Active))
  }

  lemma EnqueueKeepsContract(calendar: Calendar, a: Aggregate, generation: int, clock: Micros, t: Micros, grace: Micros)
    requires LawfulCalendar(calendar) && Sound(calendar, a, clock)
    ensures KeepsContract(calendar, a.schedule, Settled(a, Enqueue(calendar, a, generation, t, grace)).schedule)
  {
    hide Unending, FirstFire, PollAdvance, PollOccurrence;
    if Pollable(a.schedule, t) {
      PollFacts(calendar, a, clock, t, grace);
    }
  }

  lemma ReleaseKeepsContract(calendar: Calendar, a: Aggregate, generation: int, terminal: ScheduleStatus, now: Micros)
    requires terminal != Deleted
    requires Unending(calendar, a.schedule.trigger) && a.schedule.status != Deleted ==> a.schedule.nextRunAt.Some?
    ensures KeepsContract(calendar, a.schedule, Settled(a, Release(a, generation, terminal, now)).schedule)
  {
  }

  lemma EndingKeepsContract(calendar: Calendar, a: Aggregate, at: Micros, attempt: nat, generation: int, owner: Owner, policy: RetryPolicy, now: Micros)
    requires attempt >= 1
    requires Unending(calendar, a.schedule.trigger) && a.schedule.status != Deleted ==> a.schedule.nextRunAt.Some?
    ensures KeepsContract(calendar, a.schedule, Settled(a, Complete(a, at, generation, owner, now)).schedule)
    ensures KeepsContract(calendar, a.schedule, Settled(a, Fail(a, at, attempt, generation, owner, policy, now)).schedule)
  {
    hide Release, RetryDelay;
    if Accepts(a, at, generation, owner) {
      var row := a.executions[at].(leaseOwner := None, leaseExpiresAt := None, completedAt := Some(now));
      ReleaseKeepsContract(calendar, WithRow(a, at, row.(state := Succeeded)), generation, ScheduleStatus.Completed, now);
      ReleaseKeepsContract(calendar, WithRow(a, at, row.(state := ExecutionState.Failed)), generation, ScheduleStatus.Failed, now);
    }
  }

  lemma UnendedKeepsContract(calendar: Calendar, a: Aggregate, step: Step, st: State)
    requires SingleTarget(step) && StepWellFormed(step) && Targets(step) in st.aggregates && st.aggregates[Targets(step)] == a
    requires a.schedule.trigger.Valid() && !step.Poll? && !step.CompleteWork? && !step.FailWork?
    ensures KeepsContract(calendar, a.schedule, Settled(a, OutcomeOf(calendar, st, step)).schedule)
  {
    hide GetNextFireTime;
  }

  lemma OutcomeKeepsContract(env: Env, w: World, step: Step)
    requires LawfulCalendar(env.calendar) && StateSound(env.calendar, w.state) && Enabled(env, w, step)
    requires SingleTarget(step) && Targets(step) in w.state.aggregates
    ensures var a := w.state.aggregates[Targets(step)];
      KeepsContract(env.calendar, a.schedule, Settled(a, OutcomeOf(env.calendar, w.state, step)).schedule)
  {
    var a, now := w.state.aggregates[Targets(step)], w.state.clock;
    assert Sound(env.calendar, a, now);
    assert Unending(env.calendar, a.schedule.trigger) && a.schedule.status != Deleted ==> a.schedule.nextRunAt.Some?;
    assert StepWellFormed(step) && (step.Poll? ==> step.t <= now);
    hide Sound, KeepsContract, Enqueue, Complete, Fail, StateSound, Enabled;
    if step.Poll? {
      EnqueueKeepsContract(env.calendar, a, step.generation, now, step.t, step.graceSeconds * SECOND);
    } else if step.CompleteWork? {
      EndingKeepsContract(env.calendar, a, step.claim.id.at, 1, step.generation, step.claim.owner, RetryPolicy(1, 1, 1), now);
    } else if step.FailWork? {
      EndingKeepsContract(env.calendar, a, step.claim.id.at, step.claim.attempt, step.generation, step.claim.owner, step.policy, now);
    } else {
      UnendedKeepsContract(env.calendar, a, step, w.state);
    }
  }

  lemma StaysInContract(calendar: Calendar, s: Schedule)
    ensures KeepsContract(calendar, s, s)
  {
  }

  /** A transaction against one schedule keeps every schedule's contract. */
  lemma TransactionKeepsContract(env: Env, w: World, step: Step, sid: string)
    requires LawfulCalendar(env.calendar) && StateSound(env.calendar, w.state) && WellFormed(w.state) && Enabled(env, w, step)
    requires SingleTarget(step) && sid in w.state.aggregates
    ensures var after := AfterState(env.calendar, w.state, step);
      sid in after.aggregates && KeepsContract(env.calendar, w.state.aggregates[sid].schedule, after.aggregates[sid].schedule)
  {
    assert StepWellFormed(step);
    assert Targets(step) in w.state.aggregates ==> w.state.aggregates[Targets(step)].schedule.trigger.Valid();
    TransactionState(env.calendar, w.state, step);
    hide StateSound, WellFormed, Enabled, OutcomeOf, KeepsContract, StepWellFormed, AfterState;
    StaysInContract(env.calendar, w.state.aggregates[sid].schedule);
    if Targets(step) == sid {
      OutcomeKeepsContract(env, w, step);
    }
  }

  lemma ContractStep(env: Env, w: World, step: Step, sid: string)
    requires LawfulCalendar(env.calendar) && StateSound(env.calendar, w.state) && WellFormed(w.state) && Enabled(env, w, step)
    requires !step.Synchronize? && sid in w.state.aggregates
    ensures var after := Apply(env, w, step).state;
      sid in after.aggregates && KeepsContract(env.calendar, w.state.aggregates[sid].schedule, after.aggregates[sid].schedule)
  {
    if SingleTarget(step) {
      TransactionKeepsContract(env, w, step, sid);
      hide AfterState;
    }
    hide StateSound, WellFormed, OutcomeOf, IssuedAfter, Created, Claims;
  }

  /** Only user-managed schedules appear outside reconciliation. */
  lemma NewSchedulesAreUsers(env: Env, w: World, step: Step, sid: string)
    requires WellFormed(w.state) && Enabled(env, w, step) && !step.Synchronize?
    requires sid !in w.state.aggregates && sid in Apply(env, w, step).state.aggregates
    ensures !Apply(env, w, step).state.aggregates[sid].schedule.systemManaged
  {
    hide OutcomeOf, IssuedAfter, GetNextFireTime;
  }

  lemma WantedStaysWanted(env: Env, w: World, step: Step, desired: Desired, sid: string)
    requires LawfulCalendar(env.calendar) && StateSound(env.calendar, w.state) && WellFormed(w.state) && Enabled(env, w, step)
    requires AllUnending(env.calendar, desired) && ValidDefinitions(desired) && InSync(w.state, desired)
    requires !step.Synchronize? && sid in desired
    ensures var after := Apply(env, w, step).state;
      sid in after.aggregates && after.aggregates[sid].schedule.systemManaged
      && Matches(after.aggregates[sid].schedule, desired[sid], after.clock)
  {
    assert sid in w.state.aggregates && Matches(w.state.aggregates[sid].schedule, desired[sid], w.state.clock);
    assert w.state.aggregates[sid].schedule.systemManaged && desired[sid].Valid();
    hide Apply, StateSound, Enabled, Unending, InSync, AllUnending, WellFormed;
    var after := Apply(env, w, step).state;
    ContractStep(env, w, step, sid);
    MatchingIsUnending(env.calendar, w.state.aggregates[sid].schedule, desired, sid, w.state.clock);
    MatchesAtAnyTime(w.state.aggregates[sid].schedule, desired[sid], w.state.clock, after.clock);
  }

  lemma RetiredStaysRetired(env: Env, w: World, step: Step, desired: Desired, sid: string)
    requires LawfulCalendar(env.calendar) && StateSound(env.calendar, w.state) && WellFormed(w.state) && Enabled(env, w, step)
    requires InSync(w.state, desired) && !step.Synchronize? && sid !in desired && sid in Apply(env, w, step).state.aggregates
    ensures var s := Apply(env, w, step).state.aggregates[sid].schedule;
      s.systemManaged ==> s.status == Deleted && !s.enabled
  {
    hide Apply, StateSound, Enabled, Unending, WellFormed;
    if sid in w.state.aggregates {
      ContractStep(env, w, step, sid);
    } else {
      NewSchedulesAreUsers(env, w, step, sid);
    }
  }

  lemma StepKeepsInSync(env: Env, w: World, step: Step, desired: Desired)
    requires LawfulCalendar(env.calendar) && StateSound(env.calendar, w.state) && WellFormed(w.state) && Enabled(env, w, step)
    requires AllUnending(env.calendar, desired) && ValidDefinitions(desired) && InSync(w.state, desired)
    requires step.Synchronize? ==> step.desired == desired
    ensures InSync(Apply(env, w, step).state, desired)
  {
    var after := Apply(env, w, step).state;
    if step.Synchronize? {
      ApplyState(env, w, step);
      hide Apply, StateSound, Enabled, Unending, AllUnending, Matches, InSync;
      UnchangedExactlyInSync(env.calendar, w.state, desired);
    } else {
      hide Apply, StateSound, Enabled, Unending, AllUnending, WellFormed, ValidDefinitions, Matches;
      forall sid | sid in desired
        ensures sid in after.aggregates && after.aggregates[sid].schedule.systemManaged
        ensures Matches(after.aggregates[sid].schedule, desired[sid], after.clock)
      {
        WantedStaysWanted(env, w, step, desired, sid);
      }
      forall sid | sid in after.aggregates && sid !in desired && after.aggregates[sid].schedule.systemManaged
        ensures after.aggregates[sid].schedule.status == Deleted && !after.aggregates[sid].schedule.enabled
      {
        RetiredStaysRetired(env, w, step, desired, sid);
      }
    }
  }

  /** With definitions that never run out the store stays in sync through any steps of the engine and its users. */
  lemma {:induction false} RunKeepsInSync(env: Env, worlds: seq<World>, steps: seq<Step>, desired: Desired, i: nat)
    requires SoundRun(env, worlds, steps) && i <= |steps|
    requires AllUnending(env.calendar, desired) && ValidDefinitions(desired) && InSync(worlds[0].state, desired)
    requires forall k :: 0 <= k < i && steps[k].Synchronize? ==> steps[k].desired == desired
    ensures InSync(worlds[i].state, desired)
    ensures Synchronized(env.calendar, worlds[i].state, desired) == worlds[i].state
  {
    if i > 0 {
      hide WorldSound, Enabled, Apply, InSync;
      RunKeepsInSync(env, worlds, steps, desired, i - 1);
      RunKeepsWorldSound(env, worlds, steps, i - 1);
      SoundOfWorld(env, worlds[i - 1]);
      StepKeepsInSync(env, worlds[i - 1], steps[i - 1], desired);
    }
    UnchangedExactlyInSync(env.calendar, worlds[i].state, desired);
  }

  // ----- The generated anchor -----

  ghost predicate Anchored(st: State, sid: string, start: Micros) {
    && sid in st.aggregates
    && st.aggregates[sid].schedule.systemManaged
    && st.aggregates[sid].schedule.trigger.Interval?
    && st.aggregates[sid].schedule.trigger.start == start
  }

  /** The step does not give this schedule another trigger type or an explicit anchor. */
  predicate LeavesAnchor(step: Step, sid: string) {
    step.Synchronize? && sid in step.desired ==>
      step.desired[sid].trigger.DefinedInterval? && step.desired[sid].trigger.start.None?
  }

  lemma OrphanKeepsTrigger(a: Aggregate, now: Micros)
    ensures Orphaned(a, now).schedule.trigger == a.schedule.trigger
    ensures Orphaned(a, now).schedule.systemManaged == a.schedule.systemManaged
  {
  }

  lemma AnchorStep(env: Env, w: World, step: Step, sid: string, start: Micros)
    requires LawfulCalendar(env.calendar) && StateSound(env.calendar, w.state) && WellFormed(w.state) && Enabled(env, w, step)
    requires Anchored(w.state, sid, start) && LeavesAnchor(step, sid)
    ensures Anchored(Apply(env, w, step).state, sid, start)
  {
    if step.Synchronize? {
      OrphanKeepsTrigger(w.state.aggregates[sid], w.state.clock);
      hide Orphaned, GetNextFireTime, IssuedAfter;
    } else {
      hide Apply, StateSound, Enabled;
      ContractStep(env, w, step, sid);
    }
  }

  /** A generated interval anchor never moves, through period changes, retirement and return. */
  lemma {:induction false} AnchorNeverMoves(env: Env, worlds: seq<World>, steps: seq<Step>, sid: string, start: Micros, i: nat)
    requires SoundRun(env, worlds, steps) && i <= |steps|
    requires Anchored(worlds[0].state, sid, start)
    requires forall k :: 0 <= k < i ==> LeavesAnchor(steps[k], sid)
    ensures Anchored(worlds[i].state, sid, start)
  {
    hide WorldSound, Enabled, Apply, Anchored, LeavesAnchor;
    if i > 0 {
      AnchorNeverMoves(env, worlds, steps, sid, start, i - 1);
      RunKeepsWorldSound(env, worlds, steps, i - 1);
      SoundOfWorld(env, worlds[i - 1]);
      AnchorStep(env, worlds[i - 1], steps[i - 1], sid, start);
    }
  }

  /**
   * Convergence needs more than a dated definition: once such a schedule has completed,
   * reconciliation starts it again.  From then on a poll breaks the unique occurrence constraint
   * exactly in the grace window after its date; the first one past it completes the schedule
   * without a new row, and the next reconciliation starts it once more.
   */
  lemma DatedDefinitionNeverSettles(calendar: Calendar, definition: Definition, done: Aggregate, generation: int,
                                    now: Micros, t: Micros, grace: nat)
    requires definition.trigger.DefinedDate? && !definition.runImmediately
    requires done.schedule.systemManaged && done.schedule.status == ScheduleStatus.Completed && done.schedule.active.None?
    requires definition.trigger.runAt in done.executions
    ensures var again, runAt := Reconciled(calendar, definition, Some(done), now), definition.trigger.runAt;
      var polled := Enqueue(calendar, again, generation, t, grace);
      && again != done
      && (polled.Rejected? <==> t < runAt)
      && (polled.Aborted? <==> runAt <= t <= runAt + grace)
      && (polled.Aborted? ==> Shortlisted(again.schedule, t) && again.schedule.pendingFor.None? && again.schedule.nextRunAt == Some(runAt))
      && (polled.Committed? ==>
            && polled.after.schedule.status == ScheduleStatus.Completed && polled.after.executions == done.executions
            && Reconciled(calendar, definition, Some(polled.after), t) != polled.after)
  {
    var again := Reconciled(calendar, definition, Some(done), now);
    var runAt := definition.trigger.runAt;
    assert again.schedule.revision == done.schedule.revision + 1;
    if runAt <= t {
      assert PollAdvance(calendar, again.schedule, t, grace) == Advanced(calendar, Date(runAt), runAt, t, grace);
      if t - grace <= runAt {
        LastFireUnique(calendar, Date(runAt), Max(runAt, t - grace), t, runAt);
      } else {
        var after := Enqueue(calendar, again, generation, t, grace).after;
        assert Reconciled(calendar, definition, Some(after), t).schedule.revision == after.schedule.revision + 1;
      }
    }
  }

  /** Such a completed schedule is what running a dated definition once leads to. */
  lemma DatedDefinitionCompletes(calendar: Calendar, task: Task, owner: Owner)
    ensures var definition := Definition(task, DefinedDate(0), false);
      var a := Reconciled(calendar, definition, None, 0);
      var polled := Enqueue(calendar, a, 1, 0, 10);
      && polled.Committed?
      && var claimed := Claim(polled.after, 0, 1, owner, 10, 0);
      && claimed.Committed?
      && var done := Complete(claimed.after, 0, 1, owner, 5);
      && done.Committed? && done.after.schedule.status == ScheduleStatus.Completed && 0 in done.after.executions
      && Enqueue(calendar, Reconciled(calendar, definition, Some(done.after), 5), 1, 5, 10).Aborted?
  {
    var definition := Definition(task, DefinedDate(0), false);
    var a := Reconciled(calendar, definition, None, 0);
    LastFireUnique(calendar, Date(0), 0, 0, 0);
    assert PollAdvance(calendar, a.schedule, 0, 10) == TriggerAdvance(Some(0), None);
    var polled := Enqueue(calendar, a, 1, 0, 10);
    var claimed := Claim(polled.after, 0, 1, owner, 10, 0);
    var done := Complete(claimed.after, 0, 1, owner, 5);
    DatedDefinitionNeverSettles(calendar, definition, done.after, 1, 5, 5, 10);
  }
}
