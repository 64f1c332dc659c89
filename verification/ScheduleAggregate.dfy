/**
 * One schedule together with its executions, and every transaction that touches it.
 *
 * The two tables are kept as one map of aggregates: an execution is stored under its
 * schedule, keyed by the occurrence it was created for.  Its identifier in the program is
 * a digest of exactly that pair, so `(schedule, microsecond)` stands for the primary key and
 * for the unique occurrence constraint at once.  A transaction that would break the
 * constraint is `Aborted` and leaves the aggregate as it was.
 */
module ScheduleAggregate {
  import opened Options
  import opened Triggers

  type Owner = string

  /** What an execution snapshots from its schedule. */
  datatype Task = Task(name: string, contractVersion: int, payload: string)

  datatype ScheduleStatus = Active | Completed | Failed | Deleted

  datatype ExecutionState = Pending | Running | RetryWait | Succeeded | Failed | Cancelled

  datatype DispatchState = Unsent | Sent

  datatype Schedule = Schedule(
    task: Task,
    trigger: Trigger,
    systemManaged: bool,
    enabled: bool,
    status: ScheduleStatus,
    revision: int,
    nextRunAt: Option<Micros>,
    active: Option<Micros>,
    pendingFor: Option<Micros>)

  datatype Execution = Execution(
    task: Task,
    generation: int,
    state: ExecutionState,
    dispatch: DispatchState,
    attempt: nat,
    retryAt: Option<Micros>,
    dispatchedAt: Option<Micros>,
    leaseOwner: Option<Owner>,
    leaseExpiresAt: Option<Micros>,
    startedAt: Option<Micros>,
    completedAt: Option<Micros>,
    createdAt: Micros)
  {
    predicate Open() {
      state == Pending || state == Running || state == RetryWait
    }

    predicate Unstarted() {
      state == Pending || state == RetryWait
    }

    /** The lease that guards completion, failure and renewal. */
    predicate HeldBy(owner: Owner) {
      state == Running && leaseOwner == Some(owner)
    }

    /** Neither a retry delay nor a live lease stands in the way at `now`. */
    predicate Unblocked(now: Micros) {
      ReachedOrEmpty(retryAt, now) && ReachedOrEmpty(leaseExpiresAt, now)
    }

    predicate LeaseExpired(now: Micros) {
      leaseExpiresAt.Some? && leaseExpiresAt.value <= now
    }

    /** A live lease, as a provider switch looks for it. */
    predicate LeaseLive(now: Micros) {
      state == Running && leaseExpiresAt.Some? && now < leaseExpiresAt.value
    }
  }

  datatype Aggregate = Aggregate(schedule: Schedule, executions: map<Micros, Execution>)

  datatype Outcome =
    | Rejected                     // the call reports failure and changes nothing
    | Aborted                      // a constraint is breached; the transaction rolls back
    | Committed(after: Aggregate)

  function Row(a: Aggregate, at: Micros): Option<Execution> {
    if at in a.executions then Some(a.executions[at]) else None
  }

  function WithRow(a: Aggregate, at: Micros, row: Execution): Aggregate {
    a.(executions := a.executions[at := row])
  }

  function NewExecution(task: Task, generation: int, now: Micros): Execution {
    Execution(task, generation, Pending, Unsent, 0, None, None, None, None, None, None, now)
  }

  /** `create_execution`: snapshot its task fields and take the slot. */
  function CreateExecution(a: Aggregate, at: Micros, generation: int, now: Micros): Outcome {
    if at in a.executions then Aborted
    else Committed(Aggregate(
                     a.schedule.(active := Some(at)),
                     a.executions[at := NewExecution(a.schedule.task, generation, now)]))
  }

  // ----- Polling -----

  function Later(earlier: Option<Micros>, candidate: Option<Micros>): Option<Micros> {
    if candidate.Some? && (earlier.None? || earlier.value < candidate.value) then candidate else earlier
  }

  predicate NextDue(s: Schedule, t: Micros) {
    s.nextRunAt.Some? && s.nextRunAt.value <= t
  }

  predicate PendingDue(s: Schedule, t: Micros) {
    s.pendingFor.Some? && s.pendingFor.value <= t
  }

  predicate Pollable(s: Schedule, t: Micros) {
    s.enabled && s.status == Active && (NextDue(s, t) || PendingDue(s, t))
  }

  /** Schedules the shortlist query of a poll selects. */
  predicate Shortlisted(s: Schedule, t: Micros) {
    && s.enabled && s.status == Active
    && (NextDue(s, t) || (s.active.None? && PendingDue(s, t)))
  }

  /** Trigger advancement of a poll; a schedule whose next run is not due keeps it. */
  function PollAdvance(calendar: Calendar, s: Schedule, t: Micros, grace: Micros): TriggerAdvance
    requires s.trigger.Valid()
  {
    if NextDue(s, t) then Advanced(calendar, s.trigger, s.nextRunAt.value, t, grace)
    else TriggerAdvance(None, s.nextRunAt)
  }

  /** The one occurrence a poll at `t` has to record, if any. */
  function PollOccurrence(calendar: Calendar, s: Schedule, t: Micros, grace: Micros): Option<Micros>
    requires s.trigger.Valid()
  {
    Later(if PendingDue(s, t) then s.pendingFor else None, PollAdvance(calendar, s, t, grace).latestDue)
  }

  /** The transaction of `enqueue_due_schedules` for one schedule of its shortlist. */
  function Enqueue(calendar: Calendar, a: Aggregate, generation: int, t: Micros, grace: Micros): Outcome
    requires a.schedule.trigger.Valid()
  {
    var s := a.schedule;
    if !Pollable(s, t) then Rejected
    else
      var next := PollAdvance(calendar, s, t, grace).nextRun;
      var latest := PollOccurrence(calendar, s, t, grace);
      if latest.None? then
        Committed(a.(schedule := s.(nextRunAt := next,
        status := if next.None? && s.active.None? then ScheduleStatus.Completed else s.status)))
      else if s.active.Some? then
        Committed(a.(schedule := s.(nextRunAt := next, pendingFor := latest)))
      else
        CreateExecution(a.(schedule := s.(nextRunAt := next, pendingFor := None)), latest.value, generation, t)
  }

  // ----- Leases -----

  predicate Claimable(a: Aggregate, at: Micros, generation: int, now: Micros) {
    && at in a.executions
    && var row := a.executions[at];
    row.generation == generation && row.Open() && row.Unblocked(now)
  }

  /** `_claim_execution`. */
  function Claim(a: Aggregate, at: Micros, generation: int, owner: Owner, lease: Micros, now: Micros): Outcome {
    if a.schedule.status == Deleted || a.schedule.active != Some(at) || !Claimable(a, at, generation, now) then Rejected
    else
      var row := a.executions[at];
      Committed(WithRow(a, at, row.(
      state := Running, dispatch := Sent, dispatchedAt := Some(now), attempt := row.attempt + 1, retryAt := None,
      leaseOwner := Some(owner), leaseExpiresAt := Some(now + lease), startedAt := Some(now))))
  }

  datatype Delivery = Stale | Terminal | Busy | Ready

  /** `execution_delivery_state`. */
  function DeliveryState(a: Aggregate, at: Micros, generation: int, now: Micros): Delivery {
    if at !in a.executions || a.executions[at].generation != generation then Stale
    else if !a.executions[at].Open() then Terminal
    else if !a.executions[at].Unblocked(now) then Busy
    else Ready
  }

  /** `refresh_execution_lease`; only ownership is compared, not expiry. */
  function Refresh(a: Aggregate, at: Micros, owner: Owner, lease: Micros, now: Micros): Outcome {
    if at !in a.executions || !a.executions[at].HeldBy(owner) then Rejected
    else Committed(WithRow(a, at, a.executions[at].(leaseExpiresAt := Some(now + lease))))
  }

  // ----- Outcomes -----

  /** `_release_schedule_execution`: free the slot and promote the coalesced occurrence. */
  function Release(a: Aggregate, generation: int, terminal: ScheduleStatus, now: Micros): Outcome {
    var s := a.schedule.(active := None);
    if s.status == Deleted then Committed(a.(schedule := s))
    else if s.pendingFor.Some? then
      CreateExecution(a.(schedule := s.(pendingFor := None)), s.pendingFor.value, generation, now)
    else Committed(a.(schedule := if s.nextRunAt.None? then s.(status := terminal) else s))
  }

  predicate Accepts(a: Aggregate, at: Micros, generation: int, owner: Owner) {
    && at in a.executions
    && a.executions[at].generation == generation
    && a.executions[at].HeldBy(owner)
  }

  /** `complete_execution`. */
  function Complete(a: Aggregate, at: Micros, generation: int, owner: Owner, now: Micros): Outcome {
    if !Accepts(a, at, generation, owner) then Rejected
    else
      var row := a.executions[at].(state := Succeeded, completedAt := Some(now), leaseOwner := None, leaseExpiresAt := None);
      var done := WithRow(a, at, row);
      if a.schedule.active == Some(at) then Release(done, generation, ScheduleStatus.Completed, now) else Committed(done)
  }

  datatype RetryPolicy = RetryPolicy(maxAttempts: int, initialSeconds: int, maximumSeconds: int)
  {
    /** What a task registration is checked for. */
    predicate Valid() {
      maxAttempts > 0 && 0 < initialSeconds <= maximumSeconds
    }
  }

  /** Capped exponential backoff before the retry that follows `attempt`. */
  function RetryDelay(policy: RetryPolicy, attempt: nat): Micros
    requires attempt >= 1
  {
    Min(policy.initialSeconds * Pow2(attempt - 1), policy.maximumSeconds) * SECOND
  }

  predicate WillRetry(a: Aggregate, attempt: nat, policy: RetryPolicy) {
    attempt < policy.maxAttempts && a.schedule.status != Deleted
  }

  /** `fail_execution`; `attempt` is the one recorded in the caller's claim. */
  function Fail(a: Aggregate, at: Micros, attempt: nat, generation: int, owner: Owner, policy: RetryPolicy, now: Micros): Outcome
    requires attempt >= 1
  {
    if !Accepts(a, at, generation, owner) then Rejected
    else
      var row := a.executions[at].(leaseOwner := None, leaseExpiresAt := None);
      if WillRetry(a, attempt, policy) then
        Committed(WithRow(a, at, row.(
        state := RetryWait, dispatch := Unsent, dispatchedAt := None, retryAt := Some(now + RetryDelay(policy, attempt)))))
      else
        var done := WithRow(a, at, row.(state := ExecutionState.Failed, completedAt := Some(now)));
        if a.schedule.active == Some(at) then Release(done, generation, ScheduleStatus.Failed, now) else Committed(done)
  }

  /** `cancel_expired_deleted_executions` for one candidate; `t` was read before the lock. */
  function CancelExpired(a: Aggregate, at: Micros, t: Micros): Outcome {
    if a.schedule.status != Deleted || at !in a.executions || a.executions[at].state != Running || !a.executions[at].LeaseExpired(t)
    then Rejected
    else
      var row := a.executions[at].(state := Cancelled, retryAt := None, leaseOwner := None, leaseExpiresAt := None, completedAt := Some(t));
      var done := WithRow(a, at, row);
      Committed(if a.schedule.active == Some(at) then done.(schedule := a.schedule.(active := None)) else done)
  }

  // ----- Cluster delivery -----

  /** The two recovery updates of `pending_dispatches` on one row. */
  function Requeued(row: Execution, deleted: bool, generation: int, t: Micros, timeout: Micros): Execution {
    if row.generation != generation then row
    else if row.Unstarted() && row.dispatch == Sent && ReachedOrEmpty(row.dispatchedAt, t - timeout) then
      row.(dispatch := Unsent, dispatchedAt := None)
    else if row.state == Running && row.LeaseExpired(t) && !deleted then
      row.(state := Pending, dispatch := Unsent, dispatchedAt := None, retryAt := None, leaseOwner := None, leaseExpiresAt := None)
    else row
  }

  function Requeue(a: Aggregate, generation: int, t: Micros, timeout: Micros): Aggregate {
    a.(executions := map at | at in a.executions ::
      Requeued(a.executions[at], a.schedule.status == Deleted, generation, t, timeout))
  }

  /** The rows that the final query of `pending_dispatches` selects. */
  predicate Deliverable(row: Execution, generation: int, t: Micros) {
    row.generation == generation && row.Unstarted() && row.dispatch == Unsent && ReachedOrEmpty(row.retryAt, t)
  }

  /** `mark_dispatched`. */
  function MarkDispatched(a: Aggregate, at: Micros, generation: int, attempt: int, now: Micros): Outcome {
    if && at in a.executions
       && var row := a.executions[at];
       row.generation == generation && row.attempt == attempt && row.dispatch == Unsent && row.Unstarted()
    then Committed(WithRow(a, at, a.executions[at].(dispatch := Sent, dispatchedAt := Some(now))))
    else Rejected
  }

  /** The reset of `ensure_runtime_state`: unfinished work moves to the new generation. */
  function Regenerated(row: Execution, generation: int): Execution {
    if row.Open() then
      row.(generation := generation, state := Pending, dispatch := Unsent, dispatchedAt := None, retryAt := None,
      leaseOwner := None, leaseExpiresAt := None)
    else row
  }

  function Regenerate(a: Aggregate, generation: int): Aggregate {
    if a.schedule.status == Deleted then a
    else a.(executions := map at | at in a.executions :: Regenerated(a.executions[at], generation))
  }

  /** `purge_execution_history` restricted to this schedule: old terminal rows disappear. */
  function Purge(a: Aggregate, victims: set<Micros>, cutoff: Micros): Aggregate {
    a.(executions := map at | at in a.executions && !(at in victims && Purgeable(a.executions[at], cutoff)) ::
      a.executions[at])
  }

  predicate Purgeable(row: Execution, cutoff: Micros) {
    !row.Open() && row.completedAt.Some? && row.completedAt.value < cutoff
  }

  // ----- Management -----

  /** `cancel_unstarted_schedule_execution`. */
  function CancelUnstarted(a: Aggregate, now: Micros): Aggregate {
    if a.schedule.active.None? then a
    else
      var at := a.schedule.active.value;
      var freed := a.(schedule := a.schedule.(active := None));
      if at !in a.executions then freed
      else if a.executions[at].Unstarted() then
        WithRow(freed, at, a.executions[at].(
        state := Cancelled, retryAt := None, leaseOwner := None, leaseExpiresAt := None, completedAt := Some(now)))
      else if a.executions[at].state == Running then a
      else freed
  }

  function Retired(s: Schedule): Schedule {
    s.(enabled := false, status := Deleted, nextRunAt := None, pendingFor := None, revision := s.revision + 1)
  }

  /** `delete_schedule` of a user-managed schedule. */
  function Delete(a: Aggregate, expectedRevision: int, now: Micros): Outcome {
    if a.schedule.status == Deleted || a.schedule.systemManaged || a.schedule.revision != expectedRevision then Rejected
    else Committed(CancelUnstarted(a.(schedule := Retired(a.schedule)), now))
  }

  /** `create_schedule`: a user-managed schedule starts with an empty slot. */
  function Created(calendar: Calendar, task: Task, trigger: Trigger, enabled: bool, now: Micros): Aggregate
    requires trigger.Valid()
  {
    Aggregate(
      Schedule(task, trigger, false, enabled, Active, 1, GetNextFireTime(calendar, trigger, None, now), None, None),
      map[])
  }

  /** `update_schedule` after validation of its arguments. */
  function Update(calendar: Calendar, a: Aggregate, expectedRevision: int, task: Task, trigger: Trigger, enabled: bool, now: Micros): Outcome
    requires trigger.Valid()
  {
    var s := a.schedule;
    var next := GetNextFireTime(calendar, trigger, None, now);
    if s.status == Deleted || s.systemManaged || s.revision != expectedRevision || s.active.Some? then Rejected
    else if next.Some? && next.value in a.executions then Rejected
    else Committed(a.(schedule := Schedule(task, trigger, false, enabled, Active, expectedRevision + 1, next, None, None)))
  }

  // ----- System schedules -----

  /** An interval definition may leave its anchor to be generated. */
  datatype DefinedTrigger =
    | DefinedInterval(seconds: int, start: Option<Micros>)
    | DefinedDate(runAt: Micros)
    | DefinedCron(expression: string)

  datatype Definition = Definition(task: Task, trigger: DefinedTrigger, runImmediately: bool)
  {
    predicate Valid() {
      trigger.DefinedInterval? ==> trigger.seconds > 0
    }
  }

  /** The trigger of `_system_schedule_values`: a stored interval anchor is reused. */
  function DesiredTrigger(definition: Definition, stored: Option<Trigger>, now: Micros): Trigger {
    match definition.trigger
    case DefinedInterval(seconds, Some(start)) => Interval(start, seconds)
    case DefinedInterval(seconds, None) =>
      if stored.Some? && stored.value.Interval? then Interval(stored.value.start, seconds) else Interval(now, seconds)
    case DefinedDate(runAt) => Date(runAt)
    case DefinedCron(expression) => Cron(expression)
  }

  /** `_matches_system_schedule`. */
  predicate Matches(s: Schedule, definition: Definition, now: Micros) {
    && s.task == definition.task
    && s.trigger == DesiredTrigger(definition, Some(s.trigger), now)
    && s.enabled
    && s.status == Active
  }

  /** One desired definition of `synchronize_system_schedules` against its stored schedule. */
  function Reconciled(calendar: Calendar, definition: Definition, stored: Option<Aggregate>, now: Micros): Aggregate
    requires definition.Valid()
  {
    var trigger := DesiredTrigger(definition, if stored.Some? then Some(stored.value.schedule.trigger) else None, now);
    var next := GetNextFireTime(calendar, trigger, None, now);
    var pending := if definition.runImmediately then Some(now) else None;
    if stored.None? then
      Aggregate(Schedule(definition.task, trigger, true, true, Active, 1, next, None, pending), map[])
    else
      var s := stored.value.schedule;
      if Matches(s, definition, now) then stored.value
      else stored.value.(schedule := s.(
                         task := definition.task, trigger := trigger, enabled := true, status := Active,
                         revision := s.revision + 1, nextRunAt := next, pendingFor := pending))
  }

  /** A stored system schedule that no definition asks for any more. */
  function Orphaned(a: Aggregate, now: Micros): Aggregate {
    if !a.schedule.enabled && a.schedule.status == Deleted then a
    else CancelUnstarted(a.(schedule := Retired(a.schedule)), now)
  }
}
