/** How executions end, and how long leases last: for every step, and over every run. */
module SchedulingOutcomes {
  import opened Options
  import opened Triggers
  import opened ScheduleAggregate
  import opened ScheduleInvariant
  import opened SchedulingEffects
  import opened SchedulingProtocol
  import opened SchedulingRuns
  import opened SchedulingTheorems
  import opened SchedulingPolls

  // ----- Which step ends an execution, and how -----

  /** The step is a completion or failure of `id` called by the owner that it runs under, in its generation. */
  predicate CalledByHolder(w: World, step: Step, id: ExecutionId) {
    && (step.CompleteWork? || step.FailWork?) && step.claim.id == id
    && id.schedule in w.state.aggregates
    && RunsUnder(w.state.aggregates[id.schedule], id.at, step.generation, step.claim.owner)
  }

  predicate Completes(w: World, step: Step, id: ExecutionId) {
    step.CompleteWork? && CalledByHolder(w, step, id) && !PromotionClashes(w.state.aggregates[id.schedule], id.at)
  }

  /** A failure whose claim has attempts left, on a schedule that is not deleted. */
  predicate Retries(w: World, step: Step, id: ExecutionId) {
    && step.FailWork? && CalledByHolder(w, step, id)
    && step.claim.attempt < step.policy.maxAttempts && w.state.aggregates[id.schedule].schedule.status != Deleted
  }

  predicate FailsForGood(w: World, step: Step, id: ExecutionId) {
    && step.FailWork? && CalledByHolder(w, step, id) && !PromotionClashes(w.state.aggregates[id.schedule], id.at)
    && (step.policy.maxAttempts <= step.claim.attempt || w.state.aggregates[id.schedule].schedule.status == Deleted)
  }

  /** The row after a transaction against its own schedule. */
  lemma TargetRow(env: Env, w: World, step: Step, id: ExecutionId)
    requires WellFormed(w.state) && StepWellFormed(step) && SingleTarget(step) && Targets(step) == id.schedule
    ensures id.schedule !in w.state.aggregates ==> RowAt(Apply(env, w, step).state, id).None?
    ensures id.schedule in w.state.aggregates ==>
              var a := w.state.aggregates[id.schedule];
              RowAt(Apply(env, w, step).state, id) == Row(Settled(a, OutcomeOf(env.calendar, w.state, step)), id.at)
  {
    ApplyState(env, w, step);
    TransactionState(env.calendar, w.state, step);
    hide OutcomeOf, Apply, AfterState;
  }

  /** An accepted completion or failure, in the columns of its row. */
  lemma EndingStep(env: Env, w: World, step: Step, id: ExecutionId)
    requires WellFormed(w.state) && Enabled(env, w, step) && (step.CompleteWork? || step.FailWork?) && step.claim.id == id
    ensures var before, after := RowAt(w.state, id), RowAt(Apply(env, w, step).state, id);
      && (Completes(w, step, id) ==>
            after.Some? && after.value.state == Succeeded && after.value.completedAt == Some(w.state.clock))
      && (Retries(w, step, id) ==>
            && after.Some? && after.value.state == RetryWait && after.value.dispatch == Unsent
            && step.claim.attempt >= 1
            && after.value.retryAt == Some(w.state.clock + RetryDelay(step.policy, step.claim.attempt)))
      && (FailsForGood(w, step, id) ==>
            after.Some? && after.value.state == ExecutionState.Failed && after.value.completedAt == Some(w.state.clock))
      && (!Completes(w, step, id) && !Retries(w, step, id) && !FailsForGood(w, step, id) ==> after == before)
  {
    assert StepWellFormed(step);
    TargetRow(env, w, step, id);
    hide Apply, WellFormed, Enabled, StepWellFormed, RetryDelay, Complete, Fail, SlotFreed;
    if id.schedule in w.state.aggregates {
      var a := w.state.aggregates[id.schedule];
      if step.CompleteWork? {
        CompleteEffect(a, id.at, step.generation, step.claim.owner, w.state.clock);
      } else {
        FailEffect(a, id.at, step.claim.attempt, step.generation, step.claim.owner, step.policy, w.state.clock);
      }
    }
  }

  lemma EndingCauses(before: Option<Execution>, after: Option<Execution>, cause: Cause, now: Micros)
    requires Moved(before, after, cause, now) && after.Some? && before != after
    ensures after.value.state == Succeeded ==> cause.Completing? && before.Some?
    ensures after.value.state == ExecutionState.Failed ==> cause.Failing? && before.Some?
    ensures after.value.state == RetryWait && !(before.Some? && before.value.state == RetryWait) ==> cause.Failing? && before.Some?
    ensures after.value.state == Cancelled ==> cause.Upkeep? && before.Some?
  {
  }

  /**
   * A row becomes succeeded in a step exactly if the step is a completion that its holder calls,
   * failed exactly by a failure without attempts left or of a deleted schedule, and waits for a
   * retry exactly after a failure with attempts left.
   */
  lemma OutcomesExactly(env: Env, w: World, step: Step, id: ExecutionId)
    requires WorldSound(env, w) && WellFormed(w.state) && Enabled(env, w, step)
    ensures var before, after := RowAt(w.state, id), RowAt(Apply(env, w, step).state, id);
      var changed := after.Some? && before != after;
      && (changed && after.value.state == Succeeded <==> Completes(w, step, id))
      && (changed && after.value.state == ExecutionState.Failed <==> FailsForGood(w, step, id))
      && (changed && after.value.state == RetryWait && !(before.Some? && before.value.state == RetryWait) <==> Retries(w, step, id))
  {
    var before, after := RowAt(w.state, id), RowAt(Apply(env, w, step).state, id);
    StepMoves(env, w, step, id);
    if after.Some? && before != after {
      EndingCauses(before, after, CauseOf(w, step), w.state.clock);
    }
    hide Apply, WellFormed, Enabled, Moved, WorldSound, PromotionClashes;
    if step.CompleteWork? || step.FailWork? {
      if step.claim.id == id {
        EndingStep(env, w, step, id);
      } else if before.Some? {
        EndingTouchesItsTarget(env, w, step, id);
      }
    }
  }

  /** In a sound state only the schedule's waiting occurrence can turn an outcome of its holder away. */
  lemma UsersAreNeverTurnedAway(env: Env, w: World, step: Step, id: ExecutionId)
    requires LawfulCalendar(env.calendar) && Reachable(env, w) && CalledByHolder(w, step, id)
    requires !w.state.aggregates[id.schedule].schedule.systemManaged
    ensures step.CompleteWork? ==> Completes(w, step, id)
    ensures step.FailWork? ==> Retries(w, step, id) || FailsForGood(w, step, id)
  {
    ReachableSound(env, w);
    hide IsFire;
    assert Sound(env.calendar, w.state.aggregates[id.schedule], w.state.clock);
  }

  // ----- Which step records an execution -----

  /** The poll finds the slot free and `at` is the latest occurrence that it may record. */
  ghost predicate PollRecords(env: Env, w: World, step: Step, id: ExecutionId)
    requires WellFormed(w.state)
  {
    && step.Poll? && step.schedule == id.schedule && id.schedule in w.state.aggregates
    && var a, grace := w.state.aggregates[id.schedule], step.graceSeconds * 1_000_000;
    && a.schedule.enabled && a.schedule.status == Active && a.schedule.active.None?
    && Eligible(env.calendar, a.schedule, step.t, grace, id.at)
    && forall x :: Eligible(env.calendar, a.schedule, step.t, grace, x) ==> x <= id.at
  }

  /** The step frees a slot behind which `id` waits. */
  predicate PromotionRecords(w: World, step: Step, id: ExecutionId) {
    && id.schedule in w.state.aggregates
    && var s := w.state.aggregates[id.schedule].schedule;
    && s.status != Deleted && s.pendingFor == Some(id.at) && s.active.Some?
    && (Completes(w, step, ExecutionId(id.schedule, s.active.value)) || FailsForGood(w, step, ExecutionId(id.schedule, s.active.value)))
  }

  lemma PollRow(env: Env, w: World, step: Step, id: ExecutionId)
    requires LawfulCalendar(env.calendar) && StateSound(env.calendar, w.state) && WellFormed(w.state) && Enabled(env, w, step)
    requires step.Poll? && RowAt(w.state, id).None?
    ensures var after := RowAt(Apply(env, w, step).state, id);
      && (after.Some? <==> PollRecords(env, w, step, id))
      && (after.Some? ==> after.value.createdAt == step.t && after.value.generation == step.generation
                          && after.value.task == w.state.aggregates[id.schedule].schedule.task)
  {
    assert StepWellFormed(step);
    if step.schedule == id.schedule {
      TargetRow(env, w, step, id);
      hide Apply;
      if id.schedule in w.state.aggregates {
        var a, grace := w.state.aggregates[id.schedule], step.graceSeconds * SECOND;
        assert Sound(env.calendar, a, w.state.clock);
        hide StateSound, Enabled;
        PollStarts(env.calendar, a, step.generation, w.state.clock, step.t, grace, id.at);
      }
    } else {
      OtherScheduleKept(env, w, step, id);
    }
  }

  /** Which occurrence a poll records, in the terms of what is eligible. */
  lemma PollStarts(calendar: Calendar, a: Aggregate, generation: int, clock: Micros, t: Micros, grace: Micros, at: Micros)
    requires LawfulCalendar(calendar) && Sound(calendar, a, clock) && at !in a.executions
    ensures var after := Settled(a, Enqueue(calendar, a, generation, t, grace));
      && (at in after.executions <==>
            && a.schedule.enabled && a.schedule.status == Active && a.schedule.active.None?
            && Eligible(calendar, a.schedule, t, grace, at)
            && forall x :: Eligible(calendar, a.schedule, t, grace, x) ==> x <= at)
      && (at in after.executions ==> FirstStored(after.executions[at], a.schedule.task, generation, t))
  {
    PollPicksLatest(calendar, a, clock, t, grace);
    hide IsFire, PollAdvance, PollOccurrence, Sound;
  }

  lemma OtherScheduleKept(env: Env, w: World, step: Step, id: ExecutionId)
    requires WellFormed(w.state) && StepWellFormed(step) && SingleTarget(step) && Targets(step) != id.schedule
    ensures RowAt(Apply(env, w, step).state, id) == RowAt(w.state, id)
  {
    ApplyState(env, w, step);
    TransactionState(env.calendar, w.state, step);
    hide OutcomeOf, Apply, AfterState;
  }

  /** What a freed slot records. */
  lemma FreedRecords(a: Aggregate, after: Aggregate, at: Micros, generation: int, terminal: ScheduleStatus, now: Micros, x: Micros)
    requires SlotFreed(a, after, at, generation, terminal, now) && x !in a.executions
    ensures x in after.executions <==> a.schedule.active == Some(at) && a.schedule.status != Deleted && a.schedule.pendingFor == Some(x)
    ensures x in after.executions ==> FirstStored(after.executions[x], a.schedule.task, generation, now)
  {
  }

  lemma EndingRecords(env: Env, w: World, step: Step, id: ExecutionId)
    requires StateSound(env.calendar, w.state) && WellFormed(w.state) && Enabled(env, w, step)
    requires (step.CompleteWork? || step.FailWork?) && RowAt(w.state, id).None?
    ensures var after := RowAt(Apply(env, w, step).state, id);
      && (after.Some? <==> PromotionRecords(w, step, id))
      && (after.Some? ==> after.value.createdAt == w.state.clock && after.value.generation == step.generation
                          && after.value.task == w.state.aggregates[id.schedule].schedule.task)
  {
    assert StepWellFormed(step);
    if step.claim.id.schedule == id.schedule {
      TargetRow(env, w, step, id);
      hide Apply, RetryDelay, Complete, Fail;
      if id.schedule in w.state.aggregates {
        var a, at := w.state.aggregates[id.schedule], step.claim.id.at;
        assert SlotSound(a) by { assert Sound(env.calendar, a, w.state.clock); }
        hide StateSound, Enabled, WellFormed, StepWellFormed;
        if step.CompleteWork? {
          var outcome := Complete(a, at, step.generation, step.claim.owner, w.state.clock);
          CompleteEffect(a, at, step.generation, step.claim.owner, w.state.clock);
          hide SlotFreed;
          if outcome.Committed? {
            FreedRecords(a, outcome.after, at, step.generation, ScheduleStatus.Completed, w.state.clock, id.at);
          }
        } else {
          var outcome := Fail(a, at, step.claim.attempt, step.generation, step.claim.owner, step.policy, w.state.clock);
          FailEffect(a, at, step.claim.attempt, step.generation, step.claim.owner, step.policy, w.state.clock);
          hide SlotFreed;
          if outcome.Committed? && FailsForGood(w, step, step.claim.id) {
            FreedRecords(a, outcome.after, at, step.generation, ScheduleStatus.Failed, w.state.clock, id.at);
          }
        }
      }
    } else {
      OtherScheduleKept(env, w, step, id);
    }
  }

  /** No other step records anything. */
  lemma NothingRecorded(env: Env, w: World, step: Step, id: ExecutionId)
    requires WellFormed(w.state) && Enabled(env, w, step) && RowAt(w.state, id).None?
    requires !step.Poll? && !step.CompleteWork? && !step.FailWork?
    ensures RowAt(Apply(env, w, step).state, id).None?
  {
    assert StepWellFormed(step);
    if SingleTarget(step) {
      if Targets(step) == id.schedule {
        TargetRow(env, w, step, id);
        hide Apply, GetNextFireTime;
      } else {
        OtherScheduleKept(env, w, step, id);
      }
    } else {
      ApplyState(env, w, step);
      hide Apply, GetNextFireTime;
    }
  }

  /**
   * An execution is recorded in a step exactly by a poll that finds the slot free and picks it as
   * the latest eligible occurrence, or by the end of the execution behind which it waited.
   */
  lemma RecordedExactly(env: Env, w: World, step: Step, id: ExecutionId)
    requires LawfulCalendar(env.calendar) && StateSound(env.calendar, w.state) && WellFormed(w.state) && Enabled(env, w, step)
    requires RowAt(w.state, id).None?
    ensures RowAt(Apply(env, w, step).state, id).Some? <==> PollRecords(env, w, step, id) || PromotionRecords(w, step, id)
  {
    hide Apply, PollRecords, PromotionRecords, StateSound, Enabled, WellFormed;
    if step.Poll? {
      PollRow(env, w, step, id);
      assert !PromotionRecords(w, step, id) by { EndsOnlyByOutcomes(w, step, id); }
    } else if step.CompleteWork? || step.FailWork? {
      EndingRecords(env, w, step, id);
      assert !PollRecords(env, w, step, id) by { OnlyPollsPoll(env, w, step, id); }
    } else {
      NothingRecorded(env, w, step, id);
      EndsOnlyByOutcomes(w, step, id);
      OnlyPollsPoll(env, w, step, id);
    }
  }

  lemma EndsOnlyByOutcomes(w: World, step: Step, id: ExecutionId)
    ensures PromotionRecords(w, step, id) ==> step.CompleteWork? || step.FailWork?
  {
  }

  lemma OnlyPollsPoll(env: Env, w: World, step: Step, id: ExecutionId)
    requires WellFormed(w.state)
    ensures PollRecords(env, w, step, id) ==> step.Poll?
  {
  }

  // ----- The past of an outcome -----

  /**
   * Over any run from the beginning, an execution that has succeeded was completed by its holder,
   * at its completion time and in its last attempt.
   */
  lemma {:induction false} SucceededWasCompleted(env: Env, worlds: seq<World>, steps: seq<Step>, id: ExecutionId, i: nat) returns (k: nat)
    requires LawfulCalendar(env.calendar) && Run(env, worlds, steps) && Initial(worlds[0]) && i <= |steps|
    requires RowAt(worlds[i].state, id).Some? && RowAt(worlds[i].state, id).value.state == Succeeded
    ensures k < i && Completes(worlds[k], steps[k], id)
    ensures RowAt(worlds[i].state, id).value.completedAt == Some(worlds[k].state.clock)
    ensures RowAt(worlds[k].state, id).Some? && RowAt(worlds[i].state, id).value.attempt == RowAt(worlds[k].state, id).value.attempt
  {
    hide Enabled, Apply, Completes;
    if i == 0 {
      assert false;
    } else if RowAt(worlds[i - 1].state, id) == RowAt(worlds[i].state, id) {
      k := SucceededWasCompleted(env, worlds, steps, id, i - 1);
    } else {
      k := i - 1;
      InitialSound(env, worlds[0]);
      RunKeepsWorldSound(env, worlds, steps, k);
      OutcomesExactly(env, worlds[k], steps[k], id);
      EndedRow(env, worlds[k], steps[k], id);
    }
  }

  /** The columns of a row that an accepted outcome has just ended. */
  lemma EndedRow(env: Env, w: World, step: Step, id: ExecutionId)
    requires WorldSound(env, w) && WellFormed(w.state) && Enabled(env, w, step) && (Completes(w, step, id) || FailsForGood(w, step, id))
    ensures RowAt(w.state, id).Some? && RowAt(Apply(env, w, step).state, id).Some?
    ensures RowAt(Apply(env, w, step).state, id).value.completedAt == Some(w.state.clock)
    ensures RowAt(Apply(env, w, step).state, id).value.attempt == RowAt(w.state, id).value.attempt
    ensures Holder(w, id) == Some(step.claim) ==> RowAt(w.state, id).value.attempt == step.claim.attempt
  {
    EndingStep(env, w, step, id);
    StepMoves(env, w, step, id);
    assert LogMatches(w, id);
    hide Apply, Enabled, StateSound, WellFormed;
  }

  /**
   * Over any run from the beginning, an execution that has failed was failed by its holder with a
   * claim whose attempt had reached the limit, unless its schedule had been deleted; that attempt is
   * the row's own if the claim was the one that held it.
   */
  lemma {:induction false} FailedWasExhausted(env: Env, worlds: seq<World>, steps: seq<Step>, id: ExecutionId, i: nat) returns (k: nat)
    requires LawfulCalendar(env.calendar) && Run(env, worlds, steps) && Initial(worlds[0]) && i <= |steps|
    requires RowAt(worlds[i].state, id).Some? && RowAt(worlds[i].state, id).value.state == ExecutionState.Failed
    ensures k < i && FailsForGood(worlds[k], steps[k], id)
    ensures worlds[k].state.aggregates[id.schedule].schedule.status != Deleted ==> steps[k].policy.maxAttempts <= steps[k].claim.attempt
    ensures RowAt(worlds[i].state, id).value.completedAt == Some(worlds[k].state.clock)
    ensures Holder(worlds[k], id) == Some(steps[k].claim) ==> RowAt(worlds[i].state, id).value.attempt == steps[k].claim.attempt
  {
    hide Enabled, Apply, Holder;
    if i == 0 {
      assert false;
    } else if RowAt(worlds[i - 1].state, id) == RowAt(worlds[i].state, id) {
      k := FailedWasExhausted(env, worlds, steps, id, i - 1);
    } else {
      k := i - 1;
      InitialSound(env, worlds[0]);
      RunKeepsWorldSound(env, worlds, steps, k);
      OutcomesExactly(env, worlds[k], steps[k], id);
      EndedRow(env, worlds[k], steps[k], id);
    }
  }

  // ----- How long a lease lasts -----

  /** `id` runs under `owner` with a lease that lasts at least until `deadline`. */
  predicate Leased(w: World, id: ExecutionId, owner: Owner, deadline: Micros) {
    && RowAt(w.state, id).Some? && RowAt(w.state, id).value.HeldBy(owner)
    && RowAt(w.state, id).value.leaseExpiresAt.Some? && deadline <= RowAt(w.state, id).value.leaseExpiresAt.value
  }

  /** A committed claim leases its execution until its whole length has passed. */
  lemma ClaimIsLeased(env: Env, w: World, step: Step)
    requires WellFormed(w.state) && Enabled(env, w, step) && Claims(env, w, step)
    ensures var after := RowAt(Apply(env, w, step).state, step.id);
      && Leased(Apply(env, w, step), step.id, step.owner, w.state.clock + step.lease)
      && forall t :: w.state.clock <= t ==> (after.value.LeaseLive(t) <==> t < w.state.clock + step.lease)
  {
    assert StepWellFormed(step);
    TargetRow(env, w, step, step.id);
    hide Apply, Enabled, WellFormed, Claim;
    ClaimEffect(w.state.aggregates[step.id.schedule], step.id.at, step.generation, step.owner, step.lease, w.state.clock);
  }

  /** The step ends the work under its own owner, or renews the lease to an end before `deadline`. */
  ghost predicate GivesUpLease(env: Env, w: World, step: Step, id: ExecutionId, owner: Owner, deadline: Micros) {
    || ((Completes(w, step, id) || Retries(w, step, id) || FailsForGood(w, step, id)) && step.claim.owner == owner)
    || (step.RefreshLease? && step.claim.id == id && step.claim.owner == owner && w.state.clock + step.lease < deadline)
  }

  lemma LeasedRowMoves(before: Execution, after: Option<Execution>, cause: Cause, now: Micros, owner: Owner, deadline: Micros)
    requires Moved(Some(before), after, cause, now) && now < deadline
    requires before.HeldBy(owner) && before.leaseExpiresAt.Some? && deadline <= before.leaseExpiresAt.value
    ensures || (after.Some? && after.value.HeldBy(owner) && after.value.attempt == before.attempt
                && after.value.leaseExpiresAt.Some? && deadline <= after.value.leaseExpiresAt.value)
            || cause == Completing(owner) || cause == Failing(owner)
            || (cause.Renewing? && cause.owner == owner && now + cause.lease < deadline)
  {
  }

  lemma RefreshTouchesItsTarget(env: Env, w: World, step: Step, id: ExecutionId)
    requires WellFormed(w.state) && Enabled(env, w, step) && step.RefreshLease? && step.claim.id != id
    ensures RowAt(Apply(env, w, step).state, id) == RowAt(w.state, id)
  {
    ApplyState(env, w, step);
    TransactionState(env.calendar, w.state, step);
    hide Apply, AfterState;
  }

  /** Before the deadline no step takes a lease away but those of its own owner. */
  lemma LeaseStep(env: Env, w: World, step: Step, id: ExecutionId, owner: Owner, deadline: Micros)
    requires WorldSound(env, w) && WellFormed(w.state) && Enabled(env, w, step)
    requires Leased(w, id, owner, deadline) && w.state.clock < deadline && !GivesUpLease(env, w, step, id, owner, deadline)
    ensures Leased(Apply(env, w, step), id, owner, deadline)
    ensures RowAt(Apply(env, w, step).state, id).value.attempt == RowAt(w.state, id).value.attempt
  {
    assert StepWellFormed(step);
    hide Apply, WellFormed, Moved, StateSound, HistorySound, Enabled, StepWellFormed;
    StepMoves(env, w, step, id);
    LeasedRowMoves(RowAt(w.state, id).value, RowAt(Apply(env, w, step).state, id), CauseOf(w, step), w.state.clock, owner, deadline);
    hide Completes, Retries, FailsForGood;
    if step.CompleteWork? || step.FailWork? {
      if step.claim.id == id {
        EndingStep(env, w, step, id);
      } else {
        EndingTouchesItsTarget(env, w, step, id);
      }
    } else if step.RefreshLease? && step.claim.id != id {
      RefreshTouchesItsTarget(env, w, step, id);
    }
  }

  /**
   * After a claim, over any run, the lease stands for its whole length: until the clock has passed
   * it no other claim of the execution and no switch goes through, unless its own owner ended the
   * work or renewed for less.
   */
  lemma {:induction false} LeaseLasts(env: Env, worlds: seq<World>, steps: seq<Step>, deadline: Micros, i: nat)
    requires SoundRun(env, worlds, steps) && 1 <= i <= |steps|
    requires Claims(env, worlds[0], steps[0]) && deadline <= worlds[0].state.clock + steps[0].lease
    requires forall k :: 1 <= k < i ==>
               worlds[k].state.clock < deadline && !GivesUpLease(env, worlds[k], steps[k], steps[0].id, steps[0].owner, deadline)
    ensures Leased(worlds[i], steps[0].id, steps[0].owner, deadline)
    ensures RowAt(worlds[1].state, steps[0].id).Some?
    ensures RowAt(worlds[i].state, steps[0].id).value.attempt == RowAt(worlds[1].state, steps[0].id).value.attempt
  {
    assert StepWellFormed(steps[0]) && (Claims(env, worlds[0], steps[0]) ==> steps[0].ClaimLease?);
    hide WorldSound, Enabled, Apply, GivesUpLease, Claims;
    SoundOfWorld(env, worlds[0]);
    ClaimIsLeased(env, worlds[0], steps[0]);
    if i > 1 {
      LeaseLasts(env, worlds, steps, deadline, i - 1);
      RunKeepsWorldSound(env, worlds, steps, i - 1);
      SoundOfWorld(env, worlds[i - 1]);
      LeaseStep(env, worlds[i - 1], steps[i - 1], steps[0].id, steps[0].owner, deadline);
    }
  }

  /** While a lease stands, its execution cannot be claimed and the provider cannot be switched. */
  lemma LeaseShutsOut(env: Env, w: World, step: Step, id: ExecutionId, owner: Owner, deadline: Micros)
    requires WorldSound(env, w) && WellFormed(w.state) && Enabled(env, w, step)
    requires Leased(w, id, owner, deadline) && w.state.clock < deadline
    ensures !(Claims(env, w, step) && step.id == id)
    ensures step.EnsureRuntime? ==> Apply(env, w, step).state.runtime == w.state.runtime
  {
    if step.ClaimLease? && step.id == id && id.schedule in w.state.aggregates {
      ClaimEffect(w.state.aggregates[id.schedule], id.at, step.generation, step.owner, step.lease, w.state.clock);
    }
    if step.EnsureRuntime? {
      ApplyState(env, w, step);
      assert GenerationsBounded(w.state.aggregates[id.schedule], CurrentGeneration(w.state));
      assert w.state.aggregates[id.schedule].executions[id.at].LeaseLive(w.state.clock);
      assert !Switches(w.state, step.provider) && w.state.runtime.Some?;
      assert AfterState(env.calendar, w.state, step) == w.state;
    }
    hide Apply, Claim;
  }

  /** Renewing for less does cut a lease short: nothing keeps the later of the two ends. */
  lemma ShortRenewalCutsLease(calendar: Calendar, task: Task, owner: Owner, other: Owner)
    ensures var a := Created(calendar, task, Date(0), true, 0);
      var polled := Enqueue(calendar, a, 1, 0, 100);
      && polled.Committed?
      && var claimed := Claim(polled.after, 0, 1, owner, 60, 0);
      && claimed.Committed? && Claim(claimed.after, 0, 1, other, 60, 20).Rejected?
      && var renewed := Refresh(claimed.after, 0, owner, 10, 5);
      && renewed.Committed? && Claim(renewed.after, 0, 1, other, 60, 20).Committed?
  {
    var a := Created(calendar, task, Date(0), true, 0);
    LastFireUnique(calendar, Date(0), 0, 0, 0);
    assert PollAdvance(calendar, a.schedule, 0, 100) == TriggerAdvance(Some(0), None);
  }
}
