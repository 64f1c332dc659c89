/** Provider generations, deletion, and the attempt budget, over whole runs. */
module SchedulingFences {
  import opened Options
  import opened Triggers
  import opened ScheduleAggregate
  import opened ScheduleInvariant
  import opened SchedulingProtocol
  import opened SchedulingRuns
  import opened SchedulingTheorems

  // ----- Provider generations -----

  /** The first mode opens generation 1; a switch goes through exactly when another one is asked for and no lease is live. */
  lemma SwitchOutcome(w: World, provider: Provider)
    ensures var before := w.state;
      var after := EnsuredRuntime(before, provider);
      var live := exists id :: RowAt(before, id).Some? && RowAt(before, id).value.state == Running
                               && RowAt(before, id).value.leaseExpiresAt.Some? && before.clock < RowAt(before, id).value.leaseExpiresAt.value;
      && (before.runtime.None? ==> after == before.(runtime := Some(Runtime(provider, 1))))
      && (before.runtime.Some? && (before.runtime.value.provider == provider || live) ==> after == before)
      && (before.runtime.Some? && before.runtime.value.provider != provider && !live ==>
            && after.clock == before.clock && after.runtime == Some(Runtime(provider, before.runtime.value.generation + 1))
            && after.aggregates.Keys == before.aggregates.Keys
            && forall sid :: sid in before.aggregates ==>
                 after.aggregates[sid] == Regenerate(before.aggregates[sid], before.runtime.value.generation + 1))
  {
    LiveExactly(w.state);
    hide Regenerate;
  }

  lemma LiveExactly(st: State)
    ensures LeaseLiveSomewhere(st) <==>
            exists id :: RowAt(st, id).Some? && RowAt(st, id).value.state == Running
                         && RowAt(st, id).value.leaseExpiresAt.Some? && st.clock < RowAt(st, id).value.leaseExpiresAt.value
  {
    if LeaseLiveSomewhere(st) {
      var sid :| sid in st.aggregates &&
                 exists at :: at in st.aggregates[sid].executions && st.aggregates[sid].executions[at].LeaseLive(st.clock);
      var at :| at in st.aggregates[sid].executions && st.aggregates[sid].executions[at].LeaseLive(st.clock);
      assert RowAt(st, ExecutionId(sid, at)).Some?;
    }
    if id :| && RowAt(st, id).Some? && RowAt(st, id).value.state == Running
             && RowAt(st, id).value.leaseExpiresAt.Some? && st.clock < RowAt(st, id).value.leaseExpiresAt.value {
      assert st.aggregates[id.schedule].executions[id.at].LeaseLive(st.clock);
    }
  }

  /** No execution of generation `g` or later runs under one of these claims. */
  ghost predicate NewlyHeld(w: World, g: int, known: set<ClaimToken>) {
    forall id :: RowAt(w.state, id).Some? && RowAt(w.state, id).value.generation >= g && Holder(w, id).Some? ==>
                   Holder(w, id).value !in known
  }

  lemma SwitchFreesAll(env: Env, w: World, step: Step, known: set<ClaimToken>)
    requires StateSound(env.calendar, w.state) && WellFormed(w.state)
    requires step.EnsureRuntime? && Switches(w.state, step.provider)
    ensures CurrentGeneration(Apply(env, w, step).state) == w.state.runtime.value.generation + 1
    ensures NewlyHeld(Apply(env, w, step), w.state.runtime.value.generation + 1, known)
  {
    var next, g := Apply(env, w, step), w.state.runtime.value.generation;
    assert next.state == EnsuredRuntime(w.state, step.provider);
    forall id | RowAt(next.state, id).Some? && RowAt(next.state, id).value.generation >= g + 1
      ensures RowAt(next.state, id).value.state != Running
    {
      assert id.at in w.state.aggregates[id.schedule].executions;
      assert GenerationsBounded(w.state.aggregates[id.schedule], g);
    }
    hide Apply, RowAt;
  }

  /** A row that goes on running stays in its generation. */
  lemma RunningKeepsGeneration(before: Execution, after: Option<Execution>, cause: Cause, now: Micros)
    requires Moved(Some(before), after, cause, now)
    ensures after.Some? && after.value.state == Running ==> after.value.generation == before.generation
  {
  }

  lemma NewlyHeldStep(env: Env, w: World, step: Step, g: int, known: set<ClaimToken>, id: ExecutionId)
    requires WorldSound(env, w) && WellFormed(w.state) && Enabled(env, w, step)
    requires NewlyHeld(w, g, known) && known <= w.claims
    ensures var next := Apply(env, w, step);
      RowAt(next.state, id).Some? && RowAt(next.state, id).value.generation >= g && Holder(next, id).Some? ==>
        Holder(next, id).value !in known
  {
    assert StepWellFormed(step);
    SerialsKnown(env, w);
    RowStep(env, w, step, id);
    hide Apply, Issues, WorldSound, WellFormed, Enabled, StepWellFormed, RowAt, Moved, LogSound, CauseOf;
    HolderAfter(env, w, step, id);
    if RowAt(w.state, id).Some? {
      RunningKeepsGeneration(RowAt(w.state, id).value, RowAt(Apply(env, w, step).state, id), CauseOf(w, step), w.state.clock);
    }
  }

  lemma {:induction false} RunKeepsNewlyHeld(env: Env, worlds: seq<World>, steps: seq<Step>, g: int, known: set<ClaimToken>, i: nat)
    requires SoundRun(env, worlds, steps) && i <= |steps|
    requires NewlyHeld(worlds[0], g, known) && known <= worlds[0].claims
    ensures NewlyHeld(worlds[i], g, known) && known <= worlds[i].claims
  {
    hide WorldSound, RowAt, Enabled, Apply, Holder;
    if i > 0 {
      RunKeepsNewlyHeld(env, worlds, steps, g, known, i - 1);
      RunKeepsWorldSound(env, worlds, steps, i - 1);
      var w, step := worlds[i - 1], steps[i - 1];
      SoundOfWorld(env, w);
      hide StateSound, HistorySound;
      forall id | RowAt(worlds[i].state, id).Some? && RowAt(worlds[i].state, id).value.generation >= g && Holder(worlds[i], id).Some?
        ensures Holder(worlds[i], id).value !in known
      {
        NewlyHeldStep(env, w, step, g, known, id);
      }
      ClaimsGrow(env, w, step);
    }
  }

  lemma ClaimsGrow(env: Env, w: World, step: Step)
    requires WellFormed(w.state) && Enabled(env, w, step)
    ensures w.claims <= Apply(env, w, step).claims
  {
    hide AfterState, IssuedAfter, Issues;
  }

  /** Every call made with another generation than the row's is refused or leaves the row alone. */
  lemma OtherGenerationRefused(a: Aggregate, at: Micros, attempt: nat, generation: int, owner: Owner, policy: RetryPolicy, lease: Micros, now: Micros)
    requires at in a.executions && a.executions[at].generation != generation && attempt >= 1
    ensures Claim(a, at, generation, owner, lease, now).Rejected?
    ensures Complete(a, at, generation, owner, now).Rejected?
    ensures Fail(a, at, attempt, generation, owner, policy, now).Rejected?
    ensures MarkDispatched(a, at, generation, attempt, now).Rejected?
    ensures forall t, timeout :: Requeue(a, generation, t, timeout).executions[at] == a.executions[at]
  {
  }

  /**
   * After the run's first step has switched the provider, no claim issued before the switch
   * ever holds an execution of the new generation or of a later one. While it is the latest of
   * its owner it can renew, complete or fail none; otherwise only one that a claim made after
   * the switch under the same owner holds.
   */
  lemma GenerationFence(env: Env, worlds: seq<World>, steps: seq<Step>, i: nat, claim: ClaimToken,
                        generation: int, policy: RetryPolicy, lease: Micros, now: Micros)
    requires SoundRun(env, worlds, steps) && 1 <= i <= |steps|
    requires steps[0].EnsureRuntime? && Switches(worlds[0].state, steps[0].provider)
    requires claim in worlds[0].claims && claim.id.schedule in worlds[i].state.aggregates
    requires RowAt(worlds[i].state, claim.id).Some?
    requires RowAt(worlds[i].state, claim.id).value.generation >= CurrentGeneration(worlds[1].state)
    ensures claim.attempt >= 1 && Superseded(worlds[i], claim)
    ensures var a := worlds[i].state.aggregates[claim.id.schedule];
      var holder := Holder(worlds[i], claim.id);
      || (&& Refresh(a, claim.id.at, claim.owner, lease, now).Rejected?
          && Complete(a, claim.id.at, generation, claim.owner, now).Rejected?
          && Fail(a, claim.id.at, claim.attempt, generation, claim.owner, policy, now).Rejected?)
      || (!Latest(worlds[i], claim) && holder.Some? && holder.value !in worlds[0].claims && holder.value.owner == claim.owner)
  {
    SoundOfWorld(env, worlds[0]);
    SwitchFreesAll(env, worlds[0], steps[0], worlds[0].claims);
    ClaimsGrow(env, worlds[0], steps[0]);
    var g := CurrentGeneration(worlds[1].state);
    RunKeepsWorldSound(env, worlds, steps, 1);
    RunKeepsWorldSound(env, worlds, steps, i);
    hide WorldSound, StateSound, HistorySound, Apply, Enabled, RowAt, Holder, Latest;
    RunSuffix(env, worlds, steps, 1);
    ClaimsOnlyKnown(env, worlds, steps, claim, g, i);
    var w := worlds[i];
    SupersededAcceptedExactly(env, w, claim, generation, policy, lease, now);
    if Latest(w, claim) {
      LatestClaimIsFenced(env, w, claim, generation, policy, lease, now);
    }
  }

  lemma ClaimsOnlyKnown(env: Env, worlds: seq<World>, steps: seq<Step>, claim: ClaimToken, g: int, i: nat)
    requires SoundRun(env, worlds, steps) && 1 <= i <= |steps| && SoundRun(env, worlds[1..], steps[1..])
    requires claim in worlds[0].claims && worlds[0].claims <= worlds[1].claims && NewlyHeld(worlds[1], g, worlds[0].claims)
    requires RowAt(worlds[i].state, claim.id).Some? && RowAt(worlds[i].state, claim.id).value.generation >= g
    ensures claim in worlds[i].claims
    ensures Holder(worlds[i], claim.id).Some? ==> Holder(worlds[i], claim.id).value !in worlds[0].claims
  {
    assert |worlds| == |steps| + 1;
    hide WorldSound, Apply, Enabled, RowAt, Holder, Run;
    assert worlds[1..][0] == worlds[1];
    RunKeepsNewlyHeld(env, worlds[1..], steps[1..], g, worlds[0].claims, i - 1);
    assert worlds[1..][i - 1] == worlds[i];
  }

  // ----- Deletion -----

  /** What remains of a deleted schedule in every reachable world. */
  lemma DeletedIsQuiet(env: Env, w: World, sid: string, generation: int, owner: Owner, lease: Micros, t: Micros)
    requires LawfulCalendar(env.calendar) && Reachable(env, w)
    requires sid in w.state.aggregates && w.state.aggregates[sid].schedule.status == Deleted
    ensures var a := w.state.aggregates[sid];
      && a.schedule.nextRunAt.None? && a.schedule.pendingFor.None?
      && (forall at :: at in a.executions && a.executions[at].Open() ==> a.executions[at].state == Running)
      && (forall at :: at in a.executions ==> !Deliverable(a.executions[at], generation, t))
      && (forall at :: Claim(a, at, generation, owner, lease, w.state.clock).Rejected?)
  {
    ReachableSound(env, w);
    hide IsFire;
    assert Sound(env.calendar, w.state.aggregates[sid], w.state.clock);
  }

  /** A deleted aggregate after one transaction: still deleted, nothing created, nothing retried. */
  ghost predicate StaysDeleted(a: Aggregate, after: Aggregate) {
    && after.schedule.status == Deleted
    && after.executions.Keys <= a.executions.Keys
    && (forall at :: at in after.executions ==>
                       && after.executions[at].attempt == a.executions[at].attempt
                       && (after.executions[at].Unstarted() ==> a.executions[at].Unstarted()))
  }

  lemma OutcomeStaysDeleted(env: Env, w: World, step: Step)
    requires StateSound(env.calendar, w.state) && Enabled(env, w, step)
    requires SingleTarget(step) && Targets(step) in w.state.aggregates
    requires w.state.aggregates[Targets(step)].schedule.status == Deleted
    ensures var a := w.state.aggregates[Targets(step)];
      StaysDeleted(a, Settled(a, OutcomeOf(env.calendar, w.state, step)))
  {
    hide PollAdvance, PollOccurrence, RetryDelay, CreateExecution, GetNextFireTime, Sound, CancelUnstarted;
  }

  lemma BulkStaysDeleted(a: Aggregate, generation: int, t: Micros, timeout: Micros, victims: set<Micros>, cutoff: Micros, now: Micros)
    requires SlotSound(a) && DeletionSound(a) && a.schedule.status == Deleted
    ensures StaysDeleted(a, a)
    ensures StaysDeleted(a, Requeue(a, generation, t, timeout))
    ensures StaysDeleted(a, Regenerate(a, generation))
    ensures StaysDeleted(a, Purge(a, victims, cutoff))
    ensures Orphaned(a, now) == a
  {
  }

  /** Deletion lasts until reconciliation wants the schedule again. */
  lemma DeletionStep(env: Env, w: World, step: Step, sid: string)
    requires StateSound(env.calendar, w.state) && WellFormed(w.state) && Enabled(env, w, step)
    requires sid in w.state.aggregates && w.state.aggregates[sid].schedule.status == Deleted
    requires step.Synchronize? ==> sid !in step.desired
    ensures var after := Apply(env, w, step).state;
      sid in after.aggregates && StaysDeleted(w.state.aggregates[sid], after.aggregates[sid])
  {
    ApplyState(env, w, step);
    hide Apply;
    if SingleTarget(step) {
      TransactionState(env.calendar, w.state, step);
      hide AfterState, OutcomeOf, StaysDeleted;
      DeletedUnchanged(w.state.aggregates[sid]);
      if Targets(step) == sid { OutcomeStaysDeleted(env, w, step); }
    } else {
      DeletionBulkStep(env, w, step, sid);
    }
  }

  lemma DeletedUnchanged(a: Aggregate)
    requires a.schedule.status == Deleted
    ensures StaysDeleted(a, a)
  {
  }

  lemma DeletionBulkStep(env: Env, w: World, step: Step, sid: string)
    requires StateSound(env.calendar, w.state) && WellFormed(w.state) && Enabled(env, w, step) && !SingleTarget(step)
    requires sid in w.state.aggregates && w.state.aggregates[sid].schedule.status == Deleted
    requires step.Synchronize? ==> sid !in step.desired
    ensures var after := AfterState(env.calendar, w.state, step);
      sid in after.aggregates && StaysDeleted(w.state.aggregates[sid], after.aggregates[sid])
  {
    var st, a := w.state, w.state.aggregates[sid];
    assert SlotSound(a) && DeletionSound(a) by { assert Sound(env.calendar, a, w.state.clock); }
    hide StateSound, OutcomeOf, Created, Orphaned, Reconciled, StaysDeleted, Requeue, Regenerate, Purge, LeaseLiveSomewhere;
    BulkStaysDeleted(a, 0, 0, 0, {}, 0, st.clock);
    match step
    case EnsureRuntime(_) => BulkStaysDeleted(a, CurrentGeneration(st) + 1, 0, 0, {}, 0, st.clock);
    case RecoverDispatches(generation, t, timeout) => BulkStaysDeleted(a, generation, t, timeout, {}, 0, st.clock);
    case PurgeHistory(victims, cutoff) => if sid in victims { BulkStaysDeleted(a, 0, 0, 0, victims[sid], cutoff, st.clock); }
    case _ =>
  }

  lemma {:induction false} DeletionLasts(env: Env, worlds: seq<World>, steps: seq<Step>, sid: string, i: nat)
    requires SoundRun(env, worlds, steps) && i <= |steps|
    requires sid in worlds[0].state.aggregates && worlds[0].state.aggregates[sid].schedule.status == Deleted
    requires forall k :: 0 <= k < i && steps[k].Synchronize? ==> sid !in steps[k].desired
    ensures sid in worlds[i].state.aggregates && StaysDeleted(worlds[0].state.aggregates[sid], worlds[i].state.aggregates[sid])
  {
    hide WorldSound, Enabled, Apply;
    if i > 0 {
      DeletionLasts(env, worlds, steps, sid, i - 1);
      RunKeepsWorldSound(env, worlds, steps, i - 1);
      SoundOfWorld(env, worlds[i - 1]);
      DeletionStep(env, worlds[i - 1], steps[i - 1], sid);
    }
  }

  // ----- Attempts -----

  /** The starts of task code that belong to the execution stored under `id`. */
  function Starts(w: World, id: ExecutionId): set<ClaimToken> {
    set claim | claim in w.started && claim.id == id && ForStoredRow(w, claim)
  }

  /** Claims with distinct attempts in 1..limit are at most `limit` many. */
  lemma {:induction false} DistinctAttemptsFit(claims: set<ClaimToken>, limit: nat)
    requires forall c :: c in claims ==> 1 <= c.attempt <= limit
    requires forall c, d :: c in claims && d in claims && c.attempt == d.attempt ==> c == d
    ensures |claims| <= limit
  {
    if limit == 0 {
      assert claims == {};
    } else if c :| c in claims && c.attempt == limit {
      var rest := claims - {c};
      assert forall d :: d in rest ==> d.attempt != c.attempt;
      DistinctAttemptsFit(rest, limit - 1);
      assert claims == rest + {c};
    } else {
      DistinctAttemptsFit(claims, limit - 1);
    }
  }

  /** A start stands in the log of its execution, at the place of its attempt. */
  lemma StartIsLogged(env: Env, w: World, id: ExecutionId, c: ClaimToken)
    requires WorldSound(env, w) && c in Starts(w, id)
    ensures RowAt(w.state, id).Some? && id in w.issued
    ensures 1 <= c.attempt <= |w.issued[id]| && w.issued[id][c.attempt - 1] == c
    ensures c.task == RowAt(w.state, id).value.task && PassesGate(env.registry, c.task, c.attempt)
  {
    hide StateSound, RowAt, PassesGate;
    assert LogMatches(w, id);
  }

  /**
   * Task code runs at most `maxAttempts` times for one execution, over any run with crashes
   * and lost leases, each time under a distinct attempt between 1 and `maxAttempts`.
   */
  lemma BoundedAttempts(env: Env, w: World, id: ExecutionId)
    requires LawfulCalendar(env.calendar) && Reachable(env, w) && RowAt(w.state, id).Some?
    requires RowAt(w.state, id).value.task.name in env.registry
    requires env.registry[RowAt(w.state, id).value.task.name].retry.Valid()
    ensures var limit := env.registry[RowAt(w.state, id).value.task.name].retry.maxAttempts;
      && |Starts(w, id)| <= limit
      && (forall c :: c in Starts(w, id) ==> 1 <= c.attempt <= limit)
      && (forall c, d :: c in Starts(w, id) && d in Starts(w, id) && c.attempt == d.attempt ==> c == d)
  {
    ReachableSound(env, w);
    hide Reachable, WorldSound, RowAt, Starts;
    var limit := env.registry[RowAt(w.state, id).value.task.name].retry.maxAttempts;
    forall c | c in Starts(w, id)
      ensures id in w.issued && 1 <= c.attempt <= limit && c.attempt <= |w.issued[id]| && w.issued[id][c.attempt - 1] == c
    {
      StartIsLogged(env, w, id, c);
    }
    DistinctAttemptsFit(Starts(w, id), limit);
  }

  lemma {:induction false} Pow2Grows(m: nat, n: nat)
    requires m <= n
    ensures 1 <= Pow2(m) <= Pow2(n)
  {
    if m < n {
      Pow2Grows(m, n - 1);
    } else if m > 0 {
      Pow2Grows(m - 1, n - 1);
    }
  }

  /** Every retry delay lies between the configured backoffs and never shrinks. */
  lemma BackoffBounded(policy: RetryPolicy, attempt: nat, later: nat)
    requires policy.Valid() && 1 <= attempt <= later
    ensures policy.initialSeconds * SECOND <= RetryDelay(policy, attempt) <= policy.maximumSeconds * SECOND
    ensures RetryDelay(policy, attempt) <= RetryDelay(policy, later)
  {
    Pow2Grows(0, attempt - 1);
    Pow2Grows(attempt - 1, later - 1);
    ScaleMonotone(policy.initialSeconds, 1, Pow2(attempt - 1));
    ScaleMonotone(policy.initialSeconds, Pow2(attempt - 1), Pow2(later - 1));
  }

  lemma ScaleMonotone(k: nat, x: nat, y: nat)
    requires x <= y
    ensures k * x <= k * y
  {
    assert k * y == k * x + k * (y - x);
  }
}
