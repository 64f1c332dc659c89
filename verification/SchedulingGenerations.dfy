/** When the work of living schedules belongs to the provider generation that is in force. */
module SchedulingGenerations {
  import opened Options
  import opened Triggers
  import opened ScheduleAggregate
  import opened ScheduleInvariant
  import opened SchedulingProtocol
  import opened SchedulingFences

  /** A living schedule has no open execution of another generation. */
  ghost predicate AllCurrent(a: Aggregate, generation: int) {
    a.schedule.status != Deleted ==>
      forall at :: at in a.executions && a.executions[at].Open() ==> a.executions[at].generation == generation
  }

  ghost predicate WorkCurrent(st: State) {
    forall sid :: sid in st.aggregates ==> AllCurrent(st.aggregates[sid], CurrentGeneration(st))
  }

  /** A poll that starts an execution, made by a scheduler of another generation. */
  predicate StartsElsewhere(calendar: Calendar, a: Aggregate, step: Step, current: int)
    requires a.schedule.trigger.Valid() && step.Poll?
  {
    && step.generation != current
    && Pollable(a.schedule, step.t) && a.schedule.active.None?
    && var picked := PollOccurrence(calendar, a.schedule, step.t, step.graceSeconds * SECOND);
       picked.Some? && picked.value !in a.executions
  }

  /** A deleted schedule with open work of another generation. */
  ghost predicate LeftBehind(a: Aggregate, current: int) {
    a.schedule.status == Deleted &&
    exists at :: at in a.executions && a.executions[at].Open() && a.executions[at].generation != current
  }

  /** The two ways in which open work of a living schedule can be of another generation. */
  ghost predicate Misplaces(env: Env, st: State, step: Step)
    requires WellFormed(st)
  {
    || (step.Poll? && step.schedule in st.aggregates
        && StartsElsewhere(env.calendar, st.aggregates[step.schedule], step, CurrentGeneration(st)))
    || (step.Synchronize? && !SyncRefused(st, step.desired)
        && exists sid :: sid in step.desired && sid in st.aggregates && LeftBehind(st.aggregates[sid], CurrentGeneration(st)))
  }

  lemma EnqueueCurrentExactly(env: Env, a: Aggregate, step: Step, current: int)
    requires a.schedule.trigger.Valid() && step.Poll? && AllCurrent(a, current)
    ensures AllCurrent(Settled(a, Enqueue(env.calendar, a, step.generation, step.t, step.graceSeconds * SECOND)), current) <==>
            !StartsElsewhere(env.calendar, a, step, current)
  {
    hide PollAdvance, PollOccurrence;
    var outcome := Enqueue(env.calendar, a, step.generation, step.t, step.graceSeconds * SECOND);
    var picked := PollOccurrence(env.calendar, a.schedule, step.t, step.graceSeconds * SECOND);
    if Pollable(a.schedule, step.t) && a.schedule.active.None? && picked.Some? && picked.value !in a.executions {
      assert picked.value in outcome.after.executions && outcome.after.executions[picked.value].Open();
      assert outcome.after.executions[picked.value].generation == step.generation;
    }
  }

  lemma ReleaseKeepsCurrent(a: Aggregate, generation: int, terminal: ScheduleStatus, now: Micros)
    requires AllCurrent(a, generation) && terminal != Deleted
    ensures AllCurrent(Settled(a, Release(a, generation, terminal, now)), generation)
  {
  }

  /** Work ends in the generation it belongs to, and so does what is promoted in its place. */
  lemma EndingKeepsCurrent(a: Aggregate, at: Micros, attempt: nat, generation: int, owner: Owner, policy: RetryPolicy, now: Micros, current: int)
    requires AllCurrent(a, current) && attempt >= 1
    ensures AllCurrent(Settled(a, Complete(a, at, generation, owner, now)), current)
    ensures AllCurrent(Settled(a, Fail(a, at, attempt, generation, owner, policy, now)), current)
  {
    hide Release, RetryDelay;
    if Accepts(a, at, generation, owner) && a.schedule.status != Deleted {
      assert generation == current;
      var row := a.executions[at].(leaseOwner := None, leaseExpiresAt := None, completedAt := Some(now));
      ReleaseKeepsCurrent(WithRow(a, at, row.(state := Succeeded)), generation, ScheduleStatus.Completed, now);
      ReleaseKeepsCurrent(WithRow(a, at, row.(state := ExecutionState.Failed)), generation, ScheduleStatus.Failed, now);
    } else {
      DeletedStays(a, at, attempt, generation, owner, policy, now);
    }
  }

  lemma DeletedStays(a: Aggregate, at: Micros, attempt: nat, generation: int, owner: Owner, policy: RetryPolicy, now: Micros)
    requires attempt >= 1 && (a.schedule.status == Deleted || !Accepts(a, at, generation, owner))
    ensures var done := Settled(a, Complete(a, at, generation, owner, now));
      done == a || done.schedule.status == Deleted
    ensures var failed := Settled(a, Fail(a, at, attempt, generation, owner, policy, now));
      failed == a || failed.schedule.status == Deleted
  {
    hide RetryDelay;
  }

  lemma OtherOutcomesKeepCurrent(calendar: Calendar, a: Aggregate, step: Step, st: State, current: int)
    requires SingleTarget(step) && StepWellFormed(step) && Targets(step) in st.aggregates && st.aggregates[Targets(step)] == a
    requires a.schedule.trigger.Valid() && !step.Poll? && !step.CompleteWork? && !step.FailWork? && AllCurrent(a, current)
    ensures AllCurrent(Settled(a, OutcomeOf(calendar, st, step)), current)
  {
    hide GetNextFireTime;
  }

  lemma OutcomeCurrentExactly(env: Env, w: World, step: Step)
    requires WellFormed(w.state) && Enabled(env, w, step) && SingleTarget(step) && Targets(step) in w.state.aggregates
    requires AllCurrent(w.state.aggregates[Targets(step)], CurrentGeneration(w.state))
    ensures var a, current := w.state.aggregates[Targets(step)], CurrentGeneration(w.state);
      AllCurrent(Settled(a, OutcomeOf(env.calendar, w.state, step)), current) <==>
      !(step.Poll? && StartsElsewhere(env.calendar, a, step, current))
  {
    var a, current := w.state.aggregates[Targets(step)], CurrentGeneration(w.state);
    assert StepWellFormed(step) && a.schedule.trigger.Valid();
    hide Enabled, WellFormed, AllCurrent, Enqueue, Complete, Fail, StartsElsewhere;
    if step.Poll? {
      EnqueueCurrentExactly(env, a, step, current);
    } else if step.CompleteWork? {
      EndingKeepsCurrent(a, step.claim.id.at, 1, step.generation, step.claim.owner, RetryPolicy(1, 1, 1), w.state.clock, current);
    } else if step.FailWork? {
      EndingKeepsCurrent(a, step.claim.id.at, step.claim.attempt, step.generation, step.claim.owner, step.policy, w.state.clock, current);
    } else {
      OtherOutcomesKeepCurrent(env.calendar, a, step, w.state, current);
    }
  }

  lemma TransactionCurrentExactly(env: Env, w: World, step: Step)
    requires WellFormed(w.state) && Enabled(env, w, step) && SingleTarget(step) && WorkCurrent(w.state)
    ensures WorkCurrent(AfterState(env.calendar, w.state, step)) <==> !Misplaces(env, w.state, step)
  {
    var after := AfterState(env.calendar, w.state, step);
    assert StepWellFormed(step);
    if Targets(step) in w.state.aggregates {
      OutcomeCurrentExactly(env, w, step);
      hide AllCurrent, OutcomeOf, StartsElsewhere, Enabled;
      assert after.aggregates[Targets(step)] == Settled(w.state.aggregates[Targets(step)], OutcomeOf(env.calendar, w.state, step));
      assert forall sid :: sid in after.aggregates && sid != Targets(step) ==> after.aggregates[sid] == w.state.aggregates[sid];
    }
  }

  /** A synchronization revives schedules without touching their executions. */
  lemma ReconciledCurrentExactly(calendar: Calendar, definition: Definition, stored: Option<Aggregate>, now: Micros, current: int)
    requires definition.Valid() && (stored.Some? ==> AllCurrent(stored.value, current))
    ensures AllCurrent(Reconciled(calendar, definition, stored, now), current) <==> !(stored.Some? && LeftBehind(stored.value, current))
  {
    hide GetNextFireTime;
    var after := Reconciled(calendar, definition, stored, now);
    assert after.schedule.status == Active;
    assert stored.Some? ==> after.executions == stored.value.executions;
  }

  lemma SyncCurrentExactly(env: Env, w: World, step: Step)
    requires WellFormed(w.state) && Enabled(env, w, step) && step.Synchronize? && WorkCurrent(w.state)
    ensures WorkCurrent(AfterState(env.calendar, w.state, step)) <==> !Misplaces(env, w.state, step)
  {
    var st, current, after := w.state, CurrentGeneration(w.state), AfterState(env.calendar, w.state, step);
    if !SyncRefused(st, step.desired) {
      forall sid | sid in after.aggregates
        ensures AllCurrent(after.aggregates[sid], current) <==>
                !(sid in step.desired && sid in st.aggregates && LeftBehind(st.aggregates[sid], current))
      {
        if sid in step.desired {
          ReconciledCurrentExactly(env.calendar, step.desired[sid], if sid in st.aggregates then Some(st.aggregates[sid]) else None, st.clock, current);
        } else {
          OrphanIsCurrent(st.aggregates[sid], st.clock, current);
        }
      }
      hide AllCurrent, LeftBehind, Reconciled, Orphaned;
    }
  }

  lemma OrphanIsCurrent(a: Aggregate, now: Micros, current: int)
    ensures AllCurrent(Orphaned(a, now), current)
  {
  }

  lemma SweepKeepsCurrent(env: Env, w: World, step: Step)
    requires StateSound(env.calendar, w.state) && WellFormed(w.state) && Enabled(env, w, step)
    requires !SingleTarget(step) && !step.Synchronize? && WorkCurrent(w.state)
    ensures WorkCurrent(AfterState(env.calendar, w.state, step))
  {
    var st, after := w.state, AfterState(env.calendar, w.state, step);
    forall sid | sid in after.aggregates
      ensures AllCurrent(after.aggregates[sid], CurrentGeneration(after))
    {
      assert sid in st.aggregates ==>
          AllCurrent(st.aggregates[sid], CurrentGeneration(st)) && GenerationsBounded(st.aggregates[sid], CurrentGeneration(st));
      hide StateSound, GetNextFireTime;
    }
  }

  /**
   * Open work of living schedules stays in the generation in force, in every step but two:
   * a poll by a scheduler of another generation that starts an execution, since a poll does
   * not compare generations, and the revival of a deleted schedule whose crashed work an
   * earlier switch has left behind.
   */
  lemma WorkStaysCurrentExactly(env: Env, w: World, step: Step)
    requires StateSound(env.calendar, w.state) && WellFormed(w.state) && Enabled(env, w, step) && WorkCurrent(w.state)
    ensures WorkCurrent(Apply(env, w, step).state) <==> !Misplaces(env, w.state, step)
  {
    if SingleTarget(step) {
      TransactionCurrentExactly(env, w, step);
    } else if step.Synchronize? {
      SyncCurrentExactly(env, w, step);
    } else {
      SweepKeepsCurrent(env, w, step);
    }
    hide WorkCurrent, StateSound, AfterState, IssuedAfter, Issues;
  }

  /** What a stale poll starts, no worker of the generation in force can take. */
  lemma StalePollStrandsWork(calendar: Calendar, task: Task, owner: Owner, lease: Micros, now: Micros)
    ensures var a := Created(calendar, task, Date(0), true, 0);
      var polled := Enqueue(calendar, a, 1, 0, 10);
      && polled.Committed? && polled.after.schedule.active == Some(0)
      && Claim(polled.after, 0, 2, owner, lease, now).Rejected?
      && DeliveryState(polled.after, 0, 2, now) == Stale
  {
    var a := Created(calendar, task, Date(0), true, 0);
    LastFireUnique(calendar, Date(0), 0, 0, 0);
    assert PollAdvance(calendar, a.schedule, 0, 10) == TriggerAdvance(Some(0), None);
  }

  /** A switch puts everything right again. */
  lemma SwitchMakesCurrent(st: State, provider: Provider)
    requires Switches(st, provider)
    ensures WorkCurrent(EnsuredRuntime(st, provider))
  {
  }
}
