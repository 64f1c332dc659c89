/** What holds over whole runs of the scheduling protocol. */
module SchedulingRuns {
  import opened Options
  import opened Triggers
  import opened ScheduleAggregate
  import opened ScheduleInvariant
  import opened SchedulingProtocol

  // ----- How one stored execution can change in one step -----

  datatype Cause =
    | Claiming(owner: Owner, lease: Micros)
    | Renewing(owner: Owner, lease: Micros)
    | Completing(owner: Owner)
    | Failing(owner: Owner)
    | Switching(generation: int)
    | Upkeep

  /** One row before and after a step that happened at `now` for the given cause. */
  ghost predicate Moved(before: Option<Execution>, after: Option<Execution>, cause: Cause, now: Micros) {
    || before == after
    || (before.None? && after.value.state == Pending && after.value.leaseOwner.None? && after.value.attempt == 0
        && (cause.Completing? || cause.Failing? || cause.Upkeep?))
    || (before.Some? && after.None? && !before.value.Open() && cause.Upkeep?)
    || (before.Some? && after.Some? && Changed(before.value, after.value, cause, now))
  }

  /** A row changes only while open, keeps its snapshot, and gains or loses its lease by rule. */
  ghost predicate Changed(r: Execution, n: Execution, cause: Cause, now: Micros) {
    && r.Open()
    && n.task == r.task && n.createdAt == r.createdAt
    && match cause
       case Claiming(owner, lease) =>
         && r.Unblocked(now) && n.HeldBy(owner) && n.leaseExpiresAt == Some(now + lease)
         && n.attempt == r.attempt + 1 && n.generation == r.generation
       case Renewing(owner, lease) =>
         r.HeldBy(owner) && n == r.(leaseExpiresAt := Some(now + lease))
       case Completing(owner) =>
         && r.HeldBy(owner) && n.leaseOwner.None? && n.state == Succeeded && n.completedAt == Some(now)
         && n.attempt == r.attempt && n.generation == r.generation
       case Failing(owner) =>
         && r.HeldBy(owner) && n.leaseOwner.None?
         && (n.state == RetryWait || (n.state == ExecutionState.Failed && n.completedAt == Some(now)))
         && n.attempt == r.attempt && n.generation == r.generation
       case Switching(generation) =>
         && ReachedOrEmpty(r.leaseExpiresAt, now) && n.state == Pending && n.leaseOwner.None?
         && n.attempt == r.attempt && n.generation == generation
       case Upkeep =>
         && n.attempt == r.attempt && n.generation == r.generation
         && ((n.state == r.state && n.leaseOwner == r.leaseOwner && n.leaseExpiresAt == r.leaseExpiresAt)
             || (ReachedOrEmpty(r.leaseExpiresAt, now) && n.leaseOwner.None? && (n.state == Pending || n.state == Cancelled)))
  }

  function CauseOf(w: World, step: Step): Cause {
    match step
    case ClaimLease(_, _, owner, lease) => Claiming(owner, lease)
    case RefreshLease(claim, lease) => Renewing(claim.owner, lease)
    case CompleteWork(claim, _) => Completing(claim.owner)
    case FailWork(claim, _, _) => Failing(claim.owner)
    case EnsureRuntime(_) => Switching(CurrentGeneration(w.state) + 1)
    case _ => Upkeep
  }

  lemma RetiredRowMoves(a: Aggregate, at: Micros, now: Micros)
    requires RowsSound(a)
    ensures Moved(Row(a, at), Row(CancelUnstarted(a.(schedule := Retired(a.schedule)), now), at), Upkeep, now)
  {
  }

  lemma EnqueueMoves(calendar: Calendar, a: Aggregate, generation: int, t: Micros, grace: Micros, at: Micros, now: Micros)
    requires a.schedule.trigger.Valid()
    ensures Moved(Row(a, at), Row(Settled(a, Enqueue(calendar, a, generation, t, grace)), at), Upkeep, now)
  {
    hide PollAdvance, PollOccurrence;
  }

  lemma ClaimMoves(a: Aggregate, target: Micros, generation: int, owner: Owner, lease: Micros, at: Micros, now: Micros)
    ensures Moved(Row(a, at), Row(Settled(a, Claim(a, target, generation, owner, lease, now)), at), Claiming(owner, lease), now)
  {
  }

  lemma RefreshMoves(a: Aggregate, target: Micros, owner: Owner, lease: Micros, at: Micros, now: Micros)
    ensures Moved(Row(a, at), Row(Settled(a, Refresh(a, target, owner, lease, now)), at), Renewing(owner, lease), now)
  {
  }

  /** Promotion touches no stored row; it can only add one. */
  lemma ReleaseRows(a: Aggregate, generation: int, terminal: ScheduleStatus, at: Micros, now: Micros)
    ensures var outcome := Release(a, generation, terminal, now);
      outcome.Committed? ==>
        || Row(outcome.after, at) == Row(a, at)
        || (Row(a, at).None? && Row(outcome.after, at) == Some(NewExecution(a.schedule.task, generation, now)))
  {
  }

  lemma CompleteMoves(a: Aggregate, target: Micros, generation: int, owner: Owner, at: Micros, now: Micros)
    ensures Moved(Row(a, at), Row(Settled(a, Complete(a, target, generation, owner, now)), at), Completing(owner), now)
  {
    hide Release;
    if Accepts(a, target, generation, owner) {
      var row := a.executions[target].(state := Succeeded, completedAt := Some(now), leaseOwner := None, leaseExpiresAt := None);
      ReleaseRows(WithRow(a, target, row), generation, ScheduleStatus.Completed, at, now);
    }
  }

  lemma FailMoves(a: Aggregate, target: Micros, attempt: nat, generation: int, owner: Owner, policy: RetryPolicy, at: Micros, now: Micros)
    requires attempt >= 1
    ensures Moved(Row(a, at), Row(Settled(a, Fail(a, target, attempt, generation, owner, policy, now)), at), Failing(owner), now)
  {
    hide Release, RetryDelay;
    if Accepts(a, target, generation, owner) && !WillRetry(a, attempt, policy) {
      var row := a.executions[target].(state := ExecutionState.Failed, completedAt := Some(now), leaseOwner := None, leaseExpiresAt := None);
      ReleaseRows(WithRow(a, target, row), generation, ScheduleStatus.Failed, at, now);
    }
  }

  lemma DispatchMoves(a: Aggregate, target: Micros, generation: int, attempt: int, at: Micros, now: Micros)
    ensures Moved(Row(a, at), Row(Settled(a, MarkDispatched(a, target, generation, attempt, now)), at), Upkeep, now)
  {
  }

  lemma CancelMoves(a: Aggregate, target: Micros, t: Micros, at: Micros, now: Micros)
    requires t <= now
    ensures Moved(Row(a, at), Row(Settled(a, CancelExpired(a, target, t)), at), Upkeep, now)
  {
  }

  lemma RequeueMoves(a: Aggregate, generation: int, t: Micros, timeout: Micros, at: Micros, now: Micros)
    requires t <= now
    ensures Moved(Row(a, at), Row(Requeue(a, generation, t, timeout), at), Upkeep, now)
  {
  }

  lemma RegenerateMoves(a: Aggregate, generation: int, at: Micros, now: Micros)
    requires RowsSound(a) && (at in a.executions ==> !a.executions[at].LeaseLive(now))
    ensures Moved(Row(a, at), Row(Regenerate(a, generation), at), Switching(generation), now)
  {
  }

  lemma PurgeMoves(a: Aggregate, victims: set<Micros>, cutoff: Micros, at: Micros, now: Micros)
    ensures Moved(Row(a, at), Row(Purge(a, victims, cutoff), at), Upkeep, now)
  {
  }

  /** The steps of a worker that holds or asks for a lease. */
  predicate IsLeaseStep(step: Step) {
    step.ClaimLease? || step.RefreshLease? || step.CompleteWork? || step.FailWork?
  }

  lemma LeaseMoves(env: Env, w: World, step: Step, at: Micros)
    requires WellFormed(w.state) && Enabled(env, w, step)
    requires IsLeaseStep(step) && Targets(step) in w.state.aggregates
    ensures var a := w.state.aggregates[Targets(step)];
      Moved(Row(a, at), Row(Settled(a, OutcomeOf(env.calendar, w.state, step)), at), CauseOf(w, step), w.state.clock)
  {
    var a, now := w.state.aggregates[Targets(step)], w.state.clock;
    assert a.schedule.trigger.Valid() && StepWellFormed(step);
    hide Moved, Claim, Refresh, Complete, Fail, Row, Enabled, WellFormed;
    match step
    case ClaimLease(id, generation, owner, lease) => ClaimMoves(a, id.at, generation, owner, lease, at, now);
    case RefreshLease(claim, lease) => RefreshMoves(a, claim.id.at, claim.owner, lease, at, now);
    case CompleteWork(claim, generation) => CompleteMoves(a, claim.id.at, generation, claim.owner, at, now);
    case FailWork(claim, generation, policy) =>
      FailMoves(a, claim.id.at, claim.attempt, generation, claim.owner, policy, at, now);
  }

  lemma UpkeepMoves(env: Env, w: World, step: Step, at: Micros)
    requires WellFormed(w.state) && Enabled(env, w, step)
    requires SingleTarget(step) && !IsLeaseStep(step) && Targets(step) in w.state.aggregates
    requires RowsSound(w.state.aggregates[Targets(step)])
    ensures var a := w.state.aggregates[Targets(step)];
      Moved(Row(a, at), Row(Settled(a, OutcomeOf(env.calendar, w.state, step)), at), CauseOf(w, step), w.state.clock)
  {
    var a, now := w.state.aggregates[Targets(step)], w.state.clock;
    assert a.schedule.trigger.Valid() && StepWellFormed(step);
    assert (step.Poll? ==> step.t <= now) && (step.CancelDeleted? ==> step.t <= now);
    hide Moved, Enqueue, MarkDispatched, CancelExpired, CancelUnstarted, Retired, Row, GetNextFireTime, Enabled,
      RowsSound, Update, WellFormed;
    match step
    case Poll(_, generation, t, graceSeconds) => EnqueueMoves(env.calendar, a, generation, t, graceSeconds * SECOND, at, now);
    case MarkSent(id, generation, attempt) => DispatchMoves(a, id.at, generation, attempt, at, now);
    case CancelDeleted(id, t) => CancelMoves(a, id.at, t, at, now);
    case UpdateSchedule(_, revision, task, trigger, enabled) => UpdateMoves(env.calendar, a, revision, task, trigger, enabled, at, now);
    case DeleteSchedule(_, revision) => RetiredRowMoves(a, at, now); StaysMoves(Row(a, at), Upkeep, now);
  }

  lemma OutcomeMoves(env: Env, w: World, step: Step, at: Micros)
    requires WellFormed(w.state) && StateSound(env.calendar, w.state) && Enabled(env, w, step)
    requires SingleTarget(step) && Targets(step) in w.state.aggregates
    ensures var a := w.state.aggregates[Targets(step)];
      Moved(Row(a, at), Row(Settled(a, OutcomeOf(env.calendar, w.state, step)), at), CauseOf(w, step), w.state.clock)
  {
    hide OutcomeOf, Moved, Row, Enabled, CauseOf, WellFormed;
    if IsLeaseStep(step) {
      LeaseMoves(env, w, step, at);
    } else {
      UpkeepMoves(env, w, step, at);
    }
  }

  lemma UpdateMoves(calendar: Calendar, a: Aggregate, revision: int, task: Task, trigger: Trigger, enabled: bool, at: Micros, now: Micros)
    requires trigger.Valid()
    ensures Moved(Row(a, at), Row(Settled(a, Update(calendar, a, revision, task, trigger, enabled, now)), at), Upkeep, now)
  {
    hide GetNextFireTime;
  }

  lemma StaysMoves(row: Option<Execution>, cause: Cause, now: Micros)
    ensures Moved(row, row, cause, now)
  {
  }

  lemma SyncMoves(calendar: Calendar, st: State, desired: map<string, Definition>, id: ExecutionId)
    requires ValidDefinitions(desired) && (forall sid :: sid in st.aggregates ==> RowsSound(st.aggregates[sid]))
    ensures Moved(RowAt(st, id), RowAt(Synchronized(calendar, st, desired), id), Upkeep, st.clock)
  {
    hide GetNextFireTime, DesiredTrigger, CancelUnstarted, Retired, Matches;
    if id.schedule in st.aggregates {
      RetiredRowMoves(st.aggregates[id.schedule], id.at, st.clock);
    }
  }

  /** A transaction against one schedule leaves the rows of all others alone. */
  lemma TransactionMoves(env: Env, w: World, step: Step, id: ExecutionId)
    requires WellFormed(w.state) && StateSound(env.calendar, w.state) && Enabled(env, w, step) && SingleTarget(step)
    ensures Moved(RowAt(w.state, id), RowAt(AfterState(env.calendar, w.state, step), id), CauseOf(w, step), w.state.clock)
  {
    assert StepWellFormed(step) && (Targets(step) in w.state.aggregates ==> w.state.aggregates[Targets(step)].schedule.trigger.Valid());
    TransactionState(env.calendar, w.state, step);
    hide Moved, OutcomeOf, StateSound, Enabled, WellFormed, CauseOf, Row, StepWellFormed, AfterState;
    StaysMoves(RowAt(w.state, id), CauseOf(w, step), w.state.clock);
    if Targets(step) in w.state.aggregates {
      OutcomeMoves(env, w, step, id.at);
    }
  }

  /** The steps that sweep over many schedules. */
  lemma SweepMoves(env: Env, w: World, step: Step, id: ExecutionId)
    requires WellFormed(w.state) && StateSound(env.calendar, w.state) && Enabled(env, w, step) && !SingleTarget(step)
    ensures Moved(RowAt(w.state, id), RowAt(AfterState(env.calendar, w.state, step), id), CauseOf(w, step), w.state.clock)
  {
    var st, sid := w.state, id.schedule;
    assert forall s :: s in st.aggregates ==> RowsSound(st.aggregates[s]) && st.aggregates[s].schedule.trigger.Valid();
    StaysMoves(RowAt(st, id), CauseOf(w, step), st.clock);
    hide Moved, OutcomeOf, Sound, Requeue, Regenerate, Purge, Row, Created, Synchronized;
    match step
    case Tick(_) =>
    case StartTask(_) =>
    case EnsureRuntime(provider) =>
      if Switches(st, provider) && sid in st.aggregates {
        RegenerateMoves(st.aggregates[sid], st.runtime.value.generation + 1, id.at, st.clock);
      }
    case RecoverDispatches(generation, t, timeout) =>
      if sid in st.aggregates { RequeueMoves(st.aggregates[sid], generation, t, timeout, id.at, st.clock); }
    case PurgeHistory(victims, cutoff) =>
      if sid in st.aggregates && sid in victims { PurgeMoves(st.aggregates[sid], victims[sid], cutoff, id.at, st.clock); }
    case CreateSchedule(schedule, task, trigger, enabled) => CreatedHasNoRows(env.calendar, task, trigger, enabled, id.at, st.clock);
    case Synchronize(desired) => SyncMoves(env.calendar, st, desired, id);
  }

  /** Every step moves every row by the rule of its cause. */
  lemma StepMoves(env: Env, w: World, step: Step, id: ExecutionId)
    requires WellFormed(w.state) && StateSound(env.calendar, w.state) && Enabled(env, w, step)
    ensures Moved(RowAt(w.state, id), RowAt(Apply(env, w, step).state, id), CauseOf(w, step), w.state.clock)
  {
    if SingleTarget(step) {
      TransactionMoves(env, w, step, id);
    } else {
      SweepMoves(env, w, step, id);
    }
    ApplyState(env, w, step);
    hide Apply, Moved, OutcomeOf, StateSound, WellFormed, CauseOf, RowAt, AfterState, IssuedAfter, Claims, Issues;
  }

  lemma CreatedHasNoRows(calendar: Calendar, task: Task, trigger: Trigger, enabled: bool, at: Micros, now: Micros)
    requires trigger.Valid()
    ensures Row(Created(calendar, task, trigger, enabled, now), at) == None
  {
  }

  // ----- The history of a run -----

  /** The claims of a row: one per attempt, in order of issue, the last one holding any lease. */
  ghost predicate LogSound(id: ExecutionId, row: Execution, log: seq<ClaimToken>, serial: nat) {
    && |log| == row.attempt
    && (forall i :: 0 <= i < |log| ==>
          log[i].id == id && log[i].attempt == i + 1 && log[i].task == row.task && log[i].serial < serial)
    && (forall i, j :: 0 <= i < j < |log| ==> log[i].serial < log[j].serial)
    && (row.leaseOwner.Some? ==> |log| > 0 && log[|log| - 1].owner == row.leaseOwner.value)
  }

  /** The claim is one of those issued for the row that is stored now. */
  predicate ForStoredRow(w: World, claim: ClaimToken) {
    claim.id in w.issued && claim in w.issued[claim.id]
  }

  ghost predicate ClaimSoundIn(w: World, claim: ClaimToken) {
    && claim.serial < w.serial
    && claim.attempt >= 1
    && (claim.id in w.issued && w.issued[claim.id] != [] ==>
          var log := w.issued[claim.id]; claim == log[|log| - 1] || claim.serial < log[|log| - 1].serial)
  }

  ghost predicate LogMatches(w: World, id: ExecutionId) {
    && (id in w.issued <==> RowAt(w.state, id).Some?)
    && (id in w.issued ==> LogSound(id, RowAt(w.state, id).value, w.issued[id], w.serial))
    && (id in w.issued ==> forall c :: c in w.issued[id] ==> c in w.claims)
  }

  ghost predicate HistorySound(env: Env, w: World) {
    && (forall id :: LogMatches(w, id))
    && (forall claim :: claim in w.claims ==> ClaimSoundIn(w, claim))
    && (forall c, d :: c in w.claims && d in w.claims && c.serial == d.serial ==> c == d)
    && w.started <= w.claims
    && (forall claim :: claim in w.started ==> PassesGate(env.registry, claim.task, claim.attempt))
  }

  ghost predicate WorldSound(env: Env, w: World) {
    StateSound(env.calendar, w.state) && HistorySound(env, w)
  }

  /** A claim step changes the row it names, if it succeeds, and no other. */
  lemma ClaimExact(env: Env, w: World, step: Step, id: ExecutionId)
    requires WellFormed(w.state) && step.ClaimLease?
    ensures Claims(env, w, step) && id == step.id ==>
      && RowAt(w.state, id).Some? && RowAt(Apply(env, w, step).state, id).Some?
      && var r := RowAt(w.state, id).value;
         var n := RowAt(Apply(env, w, step).state, id).value;
         n.attempt == r.attempt + 1 && n.leaseOwner == Some(step.owner) && n.task == r.task
    ensures !(Claims(env, w, step) && id == step.id) ==> RowAt(Apply(env, w, step).state, id) == RowAt(w.state, id)
  {
    hide IssuedAfter;
  }

  /** How a step updates the log of one row. */
  lemma IssuedShape(env: Env, w: World, step: Step, id: ExecutionId)
    requires WellFormed(w.state) && StepWellFormed(step)
    ensures var next, token := Apply(env, w, step), Issues(env, w, step);
      && (id in next.issued <==> RowAt(next.state, id).Some?)
      && (id in next.issued ==>
            next.issued[id] == if id !in w.issued then []
                               else if token.Some? && id == token.value.id then w.issued[id] + [token.value]
                               else w.issued[id])
      && next.serial == (if token.Some? then w.serial + 1 else w.serial)
      && next.claims == (if token.Some? then w.claims + {token.value} else w.claims)
  {
    hide AfterState, RowAt, RowIds, Claims, Issues;
    RowIdsAreRows(AfterState(env.calendar, w.state, step));
  }

  /** The claim a step issues is for the next attempt of the row it leases. */
  lemma IssuedClaim(env: Env, w: World, step: Step)
    requires WellFormed(w.state) && StepWellFormed(step) && Claims(env, w, step)
    ensures var token := Issues(env, w, step).value;
      && token.serial == w.serial && token.id == step.id && token.owner == step.owner
      && RowAt(w.state, token.id).Some?
      && token.task == RowAt(w.state, token.id).value.task
      && token.attempt == RowAt(w.state, token.id).value.attempt + 1
  {
    hide WellFormed;
  }

  /** A step other than a successful claim of the row keeps its log in step with it. */
  lemma LogKept(id: ExecutionId, before: Execution, after: Execution, cause: Cause, now: Micros, log: seq<ClaimToken>, serial: nat, more: nat)
    requires Moved(Some(before), Some(after), cause, now) && LogSound(id, before, log, serial) && serial <= more
    requires cause.Claiming? ==> before == after
    ensures LogSound(id, after, log, more)
  {
  }

  lemma LogExtended(id: ExecutionId, before: Execution, after: Execution, log: seq<ClaimToken>, token: ClaimToken)
    requires LogSound(id, before, log, token.serial)
    requires token.id == id && token.task == before.task && token.attempt == before.attempt + 1
    requires after.attempt == before.attempt + 1 && after.leaseOwner == Some(token.owner) && after.task == before.task
    ensures LogSound(id, after, log + [token], token.serial + 1)
  {
  }

  /** The row moved by the rule of the step's cause. */
  ghost predicate RowMoved(env: Env, w: World, step: Step, id: ExecutionId)
    requires WellFormed(w.state) && StepWellFormed(step)
  {
    Moved(RowAt(w.state, id), RowAt(Apply(env, w, step).state, id), CauseOf(w, step), w.state.clock)
  }

  lemma LogStep(env: Env, w: World, step: Step, id: ExecutionId)
    requires WellFormed(w.state) && Enabled(env, w, step) && LogMatches(w, id) && RowMoved(env, w, step, id)
    ensures LogMatches(Apply(env, w, step), id)
  {
    assert StepWellFormed(step);
    assert CauseOf(w, step).Claiming? ==> step.ClaimLease?;
    hide Apply, AfterState, RowAt, Claims, Issues, Enabled, CauseOf, OutcomeOf, WellFormed, Moved, StepWellFormed, LogSound;
    IssuedShape(env, w, step, id);
    if Issues(env, w, step).Some? { IssuedClaim(env, w, step); }
    if step.ClaimLease? { ClaimExact(env, w, step, id); }
    var next := Apply(env, w, step);
    if id in next.issued && id in w.issued {
      var r, n := RowAt(w.state, id).value, RowAt(next.state, id).value;
      if Issues(env, w, step).Some? && id == step.id {
        LogExtended(id, r, n, w.issued[id], Issues(env, w, step).value);
      } else {
        IssuesOnlyForClaims(env, w, step);
        LogKept(id, r, n, CauseOf(w, step), w.state.clock, w.issued[id], w.serial, next.serial);
      }
    } else if id in next.issued {
      LogBegun(id, RowAt(next.state, id).value, CauseOf(w, step), w.state.clock, next.serial);
    }
  }

  lemma IssuesOnlyForClaims(env: Env, w: World, step: Step)
    requires WellFormed(w.state) && StepWellFormed(step)
    ensures Claims(env, w, step) ==> step.ClaimLease?
  {
  }

  lemma LogBegun(id: ExecutionId, row: Execution, cause: Cause, now: Micros, serial: nat)
    requires Moved(None, Some(row), cause, now)
    ensures LogSound(id, row, [], serial)
  {
  }

  lemma ClaimsStep(env: Env, w: World, step: Step, claim: ClaimToken)
    requires WellFormed(w.state) && StepWellFormed(step)
    requires LogMatches(w, claim.id)
    requires forall c :: c in w.claims ==> ClaimSoundIn(w, c)
    requires claim in Apply(env, w, step).claims
    ensures ClaimSoundIn(Apply(env, w, step), claim)
  {
    hide Apply, Claims, Issues, AfterState, RowIds, OutcomeOf, CauseOf, WellFormed, RowAt, StepWellFormed, LogSound;
    IssuedShape(env, w, step, claim.id);
    if Issues(env, w, step).Some? { IssuedClaim(env, w, step); }
    if claim in w.claims {
      assert ClaimSoundIn(w, claim);
    }
  }

  /** Serial numbers keep claims apart, and the gate guards every start. */
  lemma TokensStep(env: Env, w: World, step: Step)
    requires HistorySound(env, w) && WellFormed(w.state) && Enabled(env, w, step)
    ensures var next := Apply(env, w, step);
      && (forall c, d :: c in next.claims && d in next.claims && c.serial == d.serial ==> c == d)
      && next.started <= next.claims
      && (forall claim :: claim in next.started ==> PassesGate(env.registry, claim.task, claim.attempt))
  {
    SerialsKnown(env, w);
    if Issues(env, w, step).Some? { IssuedClaim(env, w, step); }
    hide AfterState, RowAt, RowIds, LogSound, IssuedAfter, ClaimSoundIn, PassesGate, OutcomeOf, Issues, LogMatches;
  }

  lemma RowStep(env: Env, w: World, step: Step, id: ExecutionId)
    requires WellFormed(w.state) && WorldSound(env, w) && Enabled(env, w, step)
    ensures RowMoved(env, w, step, id) && LogMatches(w, id) && LogMatches(Apply(env, w, step), id)
  {
    hide Apply, Moved, LogMatches, RowAt, CauseOf, Enabled, WellFormed;
    StepMoves(env, w, step, id);
    LogStep(env, w, step, id);
  }

  lemma StepKeepsHistory(env: Env, w: World, step: Step)
    requires WorldSound(env, w) && WellFormed(w.state) && Enabled(env, w, step)
    ensures HistorySound(env, Apply(env, w, step))
  {
    assert StepWellFormed(step);
    hide Apply, RowAt, LogMatches, ClaimSoundIn, PassesGate, StateSound, Enabled, RowMoved, WellFormed, StepWellFormed;
    var next := Apply(env, w, step);
    forall id
      ensures LogMatches(next, id)
    {
      RowStep(env, w, step, id);
    }
    forall claim | claim in next.claims
      ensures ClaimSoundIn(next, claim)
    {
      ClaimsStep(env, w, step, claim);
    }
    TokensStep(env, w, step);
  }

  lemma StepKeepsWorldSound(env: Env, w: World, step: Step)
    requires LawfulCalendar(env.calendar) && WorldSound(env, w) && Enabled(env, w, step)
    ensures WellFormed(w.state) && WorldSound(env, Apply(env, w, step))
  {
    SoundIsWellFormed(env.calendar, w.state);
    StepKeepsSound(env, w, step);
    StepKeepsHistory(env, w, step);
  }

  lemma SerialsKnown(env: Env, w: World)
    requires HistorySound(env, w)
    ensures forall c :: c in w.claims ==> c.serial < w.serial && c.attempt >= 1
  {
    hide LogMatches;
    assert forall c :: c in w.claims ==> ClaimSoundIn(w, c);
  }

  /** The invariant holds in every world of every run from an initial world. */
  lemma {:induction false} RunKeepsWorldSound(env: Env, worlds: seq<World>, steps: seq<Step>, i: nat)
    requires LawfulCalendar(env.calendar) && Run(env, worlds, steps) && i < |worlds|
    requires WorldSound(env, worlds[0])
    ensures WorldSound(env, worlds[i])
  {
    hide WorldSound, Enabled, Apply;
    if i > 0 {
      RunKeepsWorldSound(env, worlds, steps, i - 1);
      StepKeepsWorldSound(env, worlds[i - 1], steps[i - 1]);
    }
  }

  lemma InitialSound(env: Env, w: World)
    requires Initial(w)
    ensures WorldSound(env, w)
  {
  }

  ghost predicate Reachable(env: Env, w: World) {
    exists worlds, steps :: Run(env, worlds, steps) && Initial(worlds[0]) && worlds[|steps|] == w
  }

  lemma ReachableSound(env: Env, w: World)
    requires LawfulCalendar(env.calendar) && Reachable(env, w)
    ensures WorldSound(env, w)
  {
    var worlds, steps :| Run(env, worlds, steps) && Initial(worlds[0]) && worlds[|steps|] == w;
    InitialSound(env, worlds[0]);
    RunKeepsWorldSound(env, worlds, steps, |steps|);
  }

  /** Any part of a run is a run. */
  lemma RunSuffix(env: Env, worlds: seq<World>, steps: seq<Step>, k: nat)
    requires Run(env, worlds, steps) && k <= |steps|
    ensures Run(env, worlds[k..], steps[k..])
  {
    hide Apply, WellFormed;
    forall i | 0 <= i < |steps[k..]|
      ensures WellFormed(worlds[k..][i].state) && Enabled(env, worlds[k..][i], steps[k..][i])
      ensures worlds[k..][i + 1] == Apply(env, worlds[k..][i], steps[k..][i])
    {
      assert steps[k..][i] == steps[k + i];
    }
  }
}
