/**
 * The scheduling protocol as a transition system: every transaction of every process is one
 * atomic step, and a run interleaves them in any order, with crashes and repeated calls.
 *
 * Beside the stored state, a world keeps history that the program never reads: the claims
 * issued, each with a serial number of its own, and those whose task code has been started.
 * Nothing is asked of the owners under which workers claim: they may be used again.
 */
module SchedulingProtocol {
  import opened Options
  import opened Triggers
  import opened ScheduleAggregate
  import opened ScheduleInvariant

  datatype ExecutionId = ExecutionId(schedule: string, at: Micros)

  /** A scheduling mode; a Redis namespace is part of its identity. */
  datatype Provider = Local | Redis(namespace: string)

  datatype Runtime = Runtime(provider: Provider, generation: int)

  datatype State = State(clock: Micros, runtime: Option<Runtime>, aggregates: map<string, Aggregate>)

  /** What a worker holds after a successful claim. */
  datatype ClaimedExecution = ClaimedExecution(id: ExecutionId, task: Task, attempt: nat, owner: Owner)

  /** One claim of a run: two claims are never equal, even if workers cannot tell them apart. */
  datatype ClaimToken = ClaimToken(serial: nat, id: ExecutionId, task: Task, attempt: nat, owner: Owner)

  datatype Registration = Registration(contractVersion: int, userSchedulable: bool, retry: RetryPolicy)

  datatype Env = Env(calendar: Calendar, registry: map<string, Registration>)

  datatype World = World(
    state: State,
    serial: nat,                                // of the next claim
    issued: map<ExecutionId, seq<ClaimToken>>,  // for each stored execution, its claims in order
    claims: set<ClaimToken>,
    started: set<ClaimToken>)

  datatype Step =
    | Tick(now: Micros)
    | EnsureRuntime(provider: Provider)
    | Poll(schedule: string, generation: int, t: Micros, graceSeconds: nat)
    | ClaimLease(id: ExecutionId, generation: int, owner: Owner, lease: Micros)
    | RefreshLease(claim: ClaimToken, lease: Micros)
    | CompleteWork(claim: ClaimToken, generation: int)
    | FailWork(claim: ClaimToken, generation: int, policy: RetryPolicy)
    | StartTask(claim: ClaimToken)
    | RecoverDispatches(generation: int, t: Micros, timeout: Micros)
    | MarkSent(id: ExecutionId, generation: int, attempt: int)
    | CancelDeleted(id: ExecutionId, t: Micros)
    | PurgeHistory(victims: map<string, set<Micros>>, cutoff: Micros)
    | CreateSchedule(schedule: string, task: Task, trigger: Trigger, enabled: bool)
    | UpdateSchedule(schedule: string, revision: int, task: Task, trigger: Trigger, enabled: bool)
    | DeleteSchedule(schedule: string, revision: int)
    | Synchronize(desired: map<string, Definition>)

  function RowAt(st: State, id: ExecutionId): Option<Execution> {
    if id.schedule in st.aggregates then Row(st.aggregates[id.schedule], id.at) else None
  }

  function RowIds(st: State): set<ExecutionId> {
    set sid, at | sid in st.aggregates && at in st.aggregates[sid].executions :: ExecutionId(sid, at)
  }

  lemma RowIdsAreRows(st: State)
    ensures forall id :: id in RowIds(st) <==> RowAt(st, id).Some?
  {
    forall id
      ensures id in RowIds(st) <==> RowAt(st, id).Some?
    {
      if RowAt(st, id).Some? {
        assert id == ExecutionId(id.schedule, id.at);
      }
    }
  }

  function CurrentGeneration(st: State): int {
    if st.runtime.Some? then st.runtime.value.generation else 0
  }

  /** Stored triggers and definitions have passed validation. */
  ghost predicate WellFormed(st: State) {
    forall sid :: sid in st.aggregates ==> st.aggregates[sid].schedule.trigger.Valid()
  }

  // ----- The steps on the stored state -----

  function Put(st: State, sid: string, outcome: Outcome): State {
    if outcome.Committed? then st.(aggregates := st.aggregates[sid := outcome.after]) else st
  }

  predicate LeaseLiveSomewhere(st: State) {
    exists sid :: sid in st.aggregates &&
                  exists at :: at in st.aggregates[sid].executions && st.aggregates[sid].executions[at].LeaseLive(st.clock)
  }

  predicate Switches(st: State, provider: Provider) {
    st.runtime.Some? && st.runtime.value.provider != provider && !LeaseLiveSomewhere(st)
  }

  /** `ensure_runtime_state`. */
  function EnsuredRuntime(st: State, provider: Provider): State {
    if st.runtime.None? then st.(runtime := Some(Runtime(provider, 1)))
    else if !Switches(st, provider) then st
    else
      var generation := st.runtime.value.generation + 1;
      st.(runtime := Some(Runtime(provider, generation)),
      aggregates := map sid | sid in st.aggregates :: Regenerate(st.aggregates[sid], generation))
  }

  /** `synchronize_system_schedules`: one transaction, refused if an identifier is user managed. */
  predicate SyncRefused(st: State, desired: map<string, Definition>) {
    exists sid :: sid in desired && sid in st.aggregates && !st.aggregates[sid].schedule.systemManaged
  }

  function SyncedAggregate(calendar: Calendar, st: State, desired: map<string, Definition>, sid: string): Aggregate
    requires sid in st.aggregates || sid in desired
    requires sid in desired ==> desired[sid].Valid()
  {
    if sid in desired then
      Reconciled(calendar, desired[sid], if sid in st.aggregates then Some(st.aggregates[sid]) else None, st.clock)
    else if st.aggregates[sid].schedule.systemManaged then Orphaned(st.aggregates[sid], st.clock)
    else st.aggregates[sid]
  }

  predicate ValidDefinitions(desired: map<string, Definition>) {
    forall sid :: sid in desired ==> desired[sid].Valid()
  }

  function Synchronized(calendar: Calendar, st: State, desired: map<string, Definition>): State
    requires ValidDefinitions(desired)
  {
    if SyncRefused(st, desired) then st
    else st.(aggregates := map sid | sid in st.aggregates.Keys + desired.Keys :: SyncedAggregate(calendar, st, desired, sid))
  }

  /** The transaction that a step runs against the schedule it names. */
  function OutcomeOf(calendar: Calendar, st: State, step: Step): Outcome
    requires SingleTarget(step) && StepWellFormed(step)
    requires Targets(step) in st.aggregates && st.aggregates[Targets(step)].schedule.trigger.Valid()
  {
    var a := st.aggregates[Targets(step)];
    match step
    case Poll(_, generation, t, graceSeconds) => Enqueue(calendar, a, generation, t, graceSeconds * SECOND)
    case ClaimLease(id, generation, owner, lease) => Claim(a, id.at, generation, owner, lease, st.clock)
    case RefreshLease(claim, lease) => Refresh(a, claim.id.at, claim.owner, lease, st.clock)
    case CompleteWork(claim, generation) => Complete(a, claim.id.at, generation, claim.owner, st.clock)
    case FailWork(claim, generation, policy) => Fail(a, claim.id.at, claim.attempt, generation, claim.owner, policy, st.clock)
    case MarkSent(id, generation, attempt) => MarkDispatched(a, id.at, generation, attempt, st.clock)
    case CancelDeleted(id, t) => CancelExpired(a, id.at, t)
    case UpdateSchedule(_, revision, task, trigger, enabled) => Update(calendar, a, revision, task, trigger, enabled, st.clock)
    case DeleteSchedule(_, revision) => Delete(a, revision, st.clock)
  }

  predicate SingleTarget(step: Step) {
    || step.Poll? || step.ClaimLease? || step.RefreshLease? || step.CompleteWork? || step.FailWork?
    || step.MarkSent? || step.CancelDeleted? || step.UpdateSchedule? || step.DeleteSchedule?
  }

  function Targets(step: Step): string
    requires SingleTarget(step)
  {
    match step
    case Poll(schedule, _, _, _) => schedule
    case ClaimLease(id, _, _, _) => id.schedule
    case RefreshLease(claim, _) => claim.id.schedule
    case CompleteWork(claim, _) => claim.id.schedule
    case FailWork(claim, _, _) => claim.id.schedule
    case MarkSent(id, _, _) => id.schedule
    case CancelDeleted(id, _) => id.schedule
    case UpdateSchedule(schedule, _, _, _, _) => schedule
    case DeleteSchedule(schedule, _) => schedule
  }

  /** Arguments have passed the validation that precedes the transaction. */
  predicate StepWellFormed(step: Step) {
    && (step.FailWork? ==> step.claim.attempt >= 1)
    && (step.UpdateSchedule? ==> step.trigger.Valid())
    && (step.CreateSchedule? ==> step.trigger.Valid())
    && (step.Synchronize? ==> ValidDefinitions(step.desired))
  }

  function AfterState(calendar: Calendar, st: State, step: Step): State
    requires WellFormed(st) && StepWellFormed(step)
  {
    if SingleTarget(step) then
      if Targets(step) in st.aggregates then Put(st, Targets(step), OutcomeOf(calendar, st, step)) else st
    else
      match step
      case Tick(now) => st.(clock := now)
      case EnsureRuntime(provider) => EnsuredRuntime(st, provider)
      case StartTask(_) => st
      case RecoverDispatches(generation, t, timeout) =>
        st.(aggregates := map sid | sid in st.aggregates :: Requeue(st.aggregates[sid], generation, t, timeout))
      case PurgeHistory(victims, cutoff) =>
        st.(aggregates := map sid | sid in st.aggregates ::
          if sid in victims then Purge(st.aggregates[sid], victims[sid], cutoff) else st.aggregates[sid])
      case CreateSchedule(schedule, task, trigger, enabled) =>
        st.(aggregates := st.aggregates[schedule := Created(calendar, task, trigger, enabled, st.clock)])
      case Synchronize(desired) => Synchronized(calendar, st, desired)
  }

  /** A transaction against one schedule changes that schedule alone. */
  lemma TransactionState(calendar: Calendar, st: State, step: Step)
    requires WellFormed(st) && StepWellFormed(step) && SingleTarget(step)
    ensures AfterState(calendar, st, step) ==
            if Targets(step) in st.aggregates then Put(st, Targets(step), OutcomeOf(calendar, st, step)) else st
  {
    hide OutcomeOf;
  }

  // ----- Which steps can happen, and the history they leave -----

  /** The runner's gate: task code starts only for a known contract within its attempts. */
  predicate PassesGate(registry: map<string, Registration>, task: Task, attempt: nat) {
    && task.name in registry
    && registry[task.name].contractVersion == task.contractVersion
    && attempt <= registry[task.name].retry.maxAttempts
  }

  /** A process can only know a generation that the runtime row has carried. */
  predicate KnownGeneration(st: State, generation: int) {
    1 <= generation <= CurrentGeneration(st)
  }

  predicate Enabled(env: Env, w: World, step: Step) {
    && StepWellFormed(step)
    && match step
       case Tick(now) => w.state.clock <= now
       case EnsureRuntime(_) => true
       case Poll(_, generation, t, _) => KnownGeneration(w.state, generation) && t <= w.state.clock
       case ClaimLease(_, generation, _, lease) => KnownGeneration(w.state, generation) && lease > 0
       case RefreshLease(claim, lease) => claim in w.claims && lease > 0
       case CompleteWork(claim, generation) => claim in w.claims && KnownGeneration(w.state, generation)
       case FailWork(claim, generation, _) => claim in w.claims && KnownGeneration(w.state, generation)
       case StartTask(claim) => claim in w.claims && claim !in w.started && PassesGate(env.registry, claim.task, claim.attempt)
       case RecoverDispatches(_, t, _) => t <= w.state.clock
       case MarkSent(_, _, _) => true
       case CancelDeleted(_, t) => t <= w.state.clock
       case PurgeHistory(_, _) => true
       case CreateSchedule(schedule, _, _, _) => schedule !in w.state.aggregates
       case UpdateSchedule(_, _, _, _, _) => true
       case DeleteSchedule(_, _) => true
       case Synchronize(_) => true
  }

  /** The claim step that succeeds in `w`. */
  predicate Claims(env: Env, w: World, step: Step)
    requires WellFormed(w.state) && StepWellFormed(step)
  {
    step.ClaimLease? && step.id.schedule in w.state.aggregates && OutcomeOf(env.calendar, w.state, step).Committed?
  }

  /** The claim that a step issues. */
  function Issues(env: Env, w: World, step: Step): (token: Option<ClaimToken>)
    requires WellFormed(w.state) && StepWellFormed(step)
    ensures token.Some? <==> Claims(env, w, step)
  {
    if Claims(env, w, step) then
      var row := w.state.aggregates[step.id.schedule].executions[step.id.at];
      Some(ClaimToken(w.serial, step.id, row.task, row.attempt + 1, step.owner))
    else None
  }

  /** Each execution's claims: dropped with the row, and empty for a new row. */
  function IssuedAfter(w: World, after: State, token: Option<ClaimToken>): map<ExecutionId, seq<ClaimToken>> {
    map id | id in RowIds(after) ::
      if id !in w.issued then []
      else if token.Some? && id == token.value.id then w.issued[id] + [token.value] else w.issued[id]
  }

  function Apply(env: Env, w: World, step: Step): World
    requires WellFormed(w.state) && StepWellFormed(step)
  {
    var after := AfterState(env.calendar, w.state, step);
    var token := Issues(env, w, step);
    var issued := IssuedAfter(w, after, token);
    if token.Some? then World(after, w.serial + 1, issued, w.claims + {token.value}, w.started)
    else World(after, w.serial, issued, w.claims, if step.StartTask? then w.started + {step.claim} else w.started)
  }

  lemma ApplyState(env: Env, w: World, step: Step)
    requires WellFormed(w.state) && StepWellFormed(step)
    ensures Apply(env, w, step).state == AfterState(env.calendar, w.state, step)
  {
    hide AfterState, Issues, IssuedAfter;
  }

  predicate Initial(w: World) {
    && w.state.runtime.None? && w.state.aggregates == map[]
    && w.issued == map[] && w.claims == {} && w.started == {}
  }

  /** Consecutive worlds of a run. */
  ghost predicate Run(env: Env, worlds: seq<World>, steps: seq<Step>) {
    && |worlds| == |steps| + 1
    && forall i :: 0 <= i < |steps| ==>
                     && WellFormed(worlds[i].state)
                     && Enabled(env, worlds[i], steps[i])
                     && worlds[i + 1] == Apply(env, worlds[i], steps[i])
  }

  // ----- The invariant of the stored state -----

  ghost predicate StateSound(calendar: Calendar, st: State) {
    && (forall sid :: sid in st.aggregates ==> Sound(calendar, st.aggregates[sid], st.clock))
    && (forall sid :: sid in st.aggregates ==> GenerationsBounded(st.aggregates[sid], CurrentGeneration(st)))
    && 0 <= CurrentGeneration(st)
  }

  /** Every execution belongs to a generation that has begun. */
  ghost predicate GenerationsBounded(a: Aggregate, generation: int) {
    forall at :: at in a.executions ==> 1 <= a.executions[at].generation <= generation
  }

  lemma SoundIsWellFormed(calendar: Calendar, st: State)
    requires StateSound(calendar, st)
    ensures WellFormed(st)
  {
  }

  lemma OutcomeSound(env: Env, w: World, step: Step)
    requires LawfulCalendar(env.calendar) && StateSound(env.calendar, w.state) && Enabled(env, w, step)
    requires SingleTarget(step) && Targets(step) in w.state.aggregates
    ensures Sound(env.calendar, Settled(w.state.aggregates[Targets(step)], OutcomeOf(env.calendar, w.state, step)), w.state.clock)
  {
    hide Sound, Enqueue, Claim, Refresh, Complete, Fail, MarkDispatched, CancelExpired, Update;
    var calendar, clock := env.calendar, w.state.clock;
    var a := w.state.aggregates[Targets(step)];
    assert Sound(calendar, a, clock);
    match step
    case Poll(_, generation, t, graceSeconds) => EnqueueSound(calendar, a, generation, clock, t, graceSeconds * SECOND);
    case ClaimLease(id, generation, owner, lease) => ClaimSound(calendar, a, id.at, generation, owner, lease, clock);
    case RefreshLease(claim, lease) => RefreshSound(calendar, a, claim.id.at, claim.owner, lease, clock);
    case CompleteWork(claim, generation) => CompleteSound(calendar, a, claim.id.at, generation, claim.owner, clock);
    case FailWork(claim, generation, policy) =>
      FailSound(calendar, a, claim.id.at, claim.attempt, generation, claim.owner, policy, clock);
    case MarkSent(id, generation, attempt) => MarkDispatchedSound(calendar, a, id.at, generation, attempt, clock);
    case CancelDeleted(id, t) => CancelExpiredSound(calendar, a, id.at, t, clock);
    case UpdateSchedule(_, revision, task, trigger, enabled) => UpdateSound(calendar, a, revision, task, trigger, enabled, clock);
    case DeleteSchedule(_, revision) => RetireSound(calendar, a, clock);
  }

  /** Every aggregate after a step comes from one before it by a sound transaction. */
  lemma AggregateAfter(env: Env, w: World, step: Step, sid: string)
    requires LawfulCalendar(env.calendar) && StateSound(env.calendar, w.state) && Enabled(env, w, step)
    requires sid in AfterState(env.calendar, w.state, step).aggregates
    ensures var after := AfterState(env.calendar, w.state, step);
      Sound(env.calendar, after.aggregates[sid], after.clock)
  {
    hide Sound, Enqueue, Claim, Refresh, Complete, Fail, MarkDispatched, CancelExpired, Update, OutcomeOf;
    var calendar, st := env.calendar, w.state;
    if SingleTarget(step) {
      if Targets(step) in st.aggregates {
        OutcomeSound(env, w, step);
      }
    } else {
      match step
      case Tick(now) => TimePasses(calendar, st.aggregates[sid], st.clock, now);
      case EnsureRuntime(provider) =>
        if Switches(st, provider) { RegenerateSound(calendar, st.aggregates[sid], st.runtime.value.generation + 1, st.clock); }
      case StartTask(_) =>
      case RecoverDispatches(generation, t, timeout) => RequeueSound(calendar, st.aggregates[sid], generation, t, timeout, st.clock);
      case PurgeHistory(victims, cutoff) =>
        if sid in victims { PurgeSound(calendar, st.aggregates[sid], victims[sid], cutoff, st.clock); }
      case CreateSchedule(schedule, task, trigger, enabled) =>
        if sid == schedule { CreatedSound(calendar, task, trigger, enabled, st.clock); }
      case Synchronize(desired) =>
        if SyncRefused(st, desired) {
        } else if sid in desired {
          ReconciledSound(calendar, desired[sid], if sid in st.aggregates then Some(st.aggregates[sid]) else None, st.clock);
        } else {
          OrphanedSound(calendar, st.aggregates[sid], st.clock);
        }
    }
  }

  lemma OutcomeGenerations(env: Env, w: World, step: Step)
    requires StateSound(env.calendar, w.state) && Enabled(env, w, step)
    requires SingleTarget(step) && Targets(step) in w.state.aggregates
    ensures GenerationsBounded(
              Settled(w.state.aggregates[Targets(step)], OutcomeOf(env.calendar, w.state, step)), CurrentGeneration(w.state))
  {
    hide Sound, PollAdvance, RetryDelay;
    var a := w.state.aggregates[Targets(step)];
    assert GenerationsBounded(a, CurrentGeneration(w.state));
    match step
    case Poll(_, generation, t, graceSeconds) => hide PollOccurrence;
    case ClaimLease(_, _, _, _) =>
    case RefreshLease(_, _) =>
    case CompleteWork(_, _) =>
    case FailWork(_, _, _) =>
    case MarkSent(_, _, _) =>
    case CancelDeleted(_, _) =>
    case UpdateSchedule(_, _, _, _, _) =>
    case DeleteSchedule(_, _) =>
  }

  lemma AggregateGenerations(env: Env, w: World, step: Step, sid: string)
    requires StateSound(env.calendar, w.state) && Enabled(env, w, step)
    requires sid in AfterState(env.calendar, w.state, step).aggregates
    ensures var after := AfterState(env.calendar, w.state, step);
      GenerationsBounded(after.aggregates[sid], CurrentGeneration(after))
  {
    hide Sound, OutcomeOf, GetNextFireTime;
    if SingleTarget(step) {
      if Targets(step) in w.state.aggregates {
        OutcomeGenerations(env, w, step);
      }
    }
  }

  lemma StepKeepsSound(env: Env, w: World, step: Step)
    requires LawfulCalendar(env.calendar) && StateSound(env.calendar, w.state) && Enabled(env, w, step)
    ensures StateSound(env.calendar, Apply(env, w, step).state)
  {
    SoundIsWellFormed(env.calendar, w.state);
    hide Sound, AfterState, GenerationsBounded;
    var after := AfterState(env.calendar, w.state, step);
    forall sid | sid in after.aggregates
      ensures Sound(env.calendar, after.aggregates[sid], after.clock)
      ensures GenerationsBounded(after.aggregates[sid], CurrentGeneration(after))
    {
      AggregateAfter(env, w, step, sid);
      AggregateGenerations(env, w, step, sid);
    }
  }
}
