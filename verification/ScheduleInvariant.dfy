/** The inductive invariant of one schedule aggregate, kept by every transaction. */
module ScheduleInvariant {
  import opened Options
  import opened Triggers
  import opened ScheduleAggregate

  /** Lease columns, retry time and completion time agree with the execution state. */
  predicate RowSound(row: Execution) {
    && (row.state == Running <==> row.leaseOwner.Some?)
    && (row.leaseOwner.Some? <==> row.leaseExpiresAt.Some?)
    && (row.state == RetryWait <==> row.retryAt.Some?)
    && (row.state == Running ==> row.attempt >= 1)
    && (row.Open() <==> row.completedAt.None?)
  }

  ghost predicate RowsSound(a: Aggregate) {
    forall at :: at in a.executions ==> RowSound(a.executions[at])
  }

  /** The slot names an open execution, and every open execution is the one it names. */
  ghost predicate SlotSound(a: Aggregate) {
    && (a.schedule.active.Some? ==>
          a.schedule.active.value in a.executions && a.executions[a.schedule.active.value].Open())
    && (forall at :: at in a.executions && a.executions[at].Open() ==> a.schedule.active == Some(at))
  }

  /** A deleted schedule expects nothing more; only a running execution may still finish. */
  ghost predicate DeletionSound(a: Aggregate)
    requires SlotSound(a)
  {
    a.schedule.status == Deleted ==>
      && a.schedule.nextRunAt.None? && a.schedule.pendingFor.None? && !a.schedule.enabled
      && (a.schedule.active.Some? ==> a.executions[a.schedule.active.value].state == Running)
  }

  /** Recorded occurrences, waiting or stored, lie in the past. */
  ghost predicate TimesSound(a: Aggregate, clock: Micros) {
    && (forall at :: at in a.executions ==> at <= clock)
    && (a.schedule.pendingFor.Some? ==> a.schedule.pendingFor.value <= clock)
  }

  ghost predicate TriggerSound(calendar: Calendar, s: Schedule) {
    && s.trigger.Valid()
    && (s.nextRunAt.Some? ==> IsFire(calendar, s.trigger, s.nextRunAt.value))
    && (Unending(calendar, s.trigger) && s.status != Deleted ==> s.nextRunAt.Some?)
  }

  /** Occurrences still to come are new; a recurring trigger's lie after all stored ones. */
  ghost predicate FreshSound(a: Aggregate) {
    !a.schedule.systemManaged ==>
      && (a.schedule.pendingFor.Some? ==> a.schedule.pendingFor.value !in a.executions)
      && (a.schedule.nextRunAt.Some? ==> a.schedule.nextRunAt.value !in a.executions)
      && (a.schedule.trigger.Recurring() ==>
            forall at :: at in a.executions ==>
                           && (a.schedule.pendingFor.Some? ==> at < a.schedule.pendingFor.value)
                           && (a.schedule.nextRunAt.Some? ==> at < a.schedule.nextRunAt.value))
  }

  /**
   * The waiting occurrence precedes the next one; equality needs a reconciled schedule. A dated
   * schedule of a user has at most one of them.
   */
  predicate OrderSound(s: Schedule) {
    s.pendingFor.Some? && s.nextRunAt.Some? ==>
      && (!s.systemManaged ==> s.trigger.Recurring() && s.pendingFor.value < s.nextRunAt.value)
      && (s.trigger.Recurring() ==> s.pendingFor.value <= s.nextRunAt.value)
  }

  /** A finished schedule has nothing left to do, except the case of `StalePollStrandsPending`. */
  predicate StatusSound(s: Schedule) {
    s.status == ScheduleStatus.Completed || s.status == ScheduleStatus.Failed ==>
      && s.active.None?
      && s.nextRunAt.None?
      && (s.pendingFor.Some? ==> s.systemManaged && s.trigger.Date?)
  }

  ghost predicate Sound(calendar: Calendar, a: Aggregate, clock: Micros) {
    && RowsSound(a)
    && SlotSound(a)
    && DeletionSound(a)
    && TimesSound(a, clock)
    && TriggerSound(calendar, a.schedule)
    && FreshSound(a)
    && OrderSound(a.schedule)
    && StatusSound(a.schedule)
  }

  /** A transaction that rolls back or reports failure leaves its aggregate as it was. */
  function Settled(a: Aggregate, outcome: Outcome): Aggregate {
    if outcome.Committed? then outcome.after else a
  }

  // ----- Preservation -----

  lemma TimePasses(calendar: Calendar, a: Aggregate, before: Micros, after: Micros)
    requires Sound(calendar, a, before) && before <= after
    ensures Sound(calendar, a, after)
  {
    hide Unending, FirstFire;
  }

  /** What a poll of a due schedule works with. */
  lemma PollFacts(calendar: Calendar, a: Aggregate, clock: Micros, t: Micros, grace: Micros)
    requires LawfulCalendar(calendar) && Sound(calendar, a, clock) && Pollable(a.schedule, t)
    ensures var advance := PollAdvance(calendar, a.schedule, t, grace);
      && (NextDue(a.schedule, t) && advance.latestDue.Some? ==>
            && a.schedule.nextRunAt.value <= advance.latestDue.value <= t
            && (a.schedule.trigger.Date? ==> advance.latestDue.value == a.schedule.nextRunAt.value))
      && (!NextDue(a.schedule, t) ==> advance.latestDue.None? && advance.nextRun == a.schedule.nextRunAt)
      && (advance.nextRun.Some? ==> t < advance.nextRun.value && IsFire(calendar, a.schedule.trigger, advance.nextRun.value))
      && (Unending(calendar, a.schedule.trigger) ==> advance.nextRun.Some?)
      && (a.schedule.trigger.Date? && NextDue(a.schedule, t) ==> advance.nextRun.None?)
  {
    hide Unending, FirstFire, LastFire;
    if NextDue(a.schedule, t) {
      var current := a.schedule.nextRunAt.value;
      EveryTriggerLawful(calendar, a.schedule.trigger);
      AdvancedFacts(calendar, a.schedule.trigger, current, t, grace);
      var latest := Advanced(calendar, a.schedule.trigger, current, t, grace).latestDue;
      if a.schedule.trigger.Date? && latest.Some? {
        DateFireIsRunAt(calendar, a.schedule.trigger, current);
        DateFireIsRunAt(calendar, a.schedule.trigger, latest.value);
      }
    }
  }

  /** Where the picked occurrence comes from. */
  lemma PickFacts(calendar: Calendar, a: Aggregate, clock: Micros, t: Micros, grace: Micros)
    requires LawfulCalendar(calendar) && Sound(calendar, a, clock) && Pollable(a.schedule, t)
    ensures var picked := PollOccurrence(calendar, a.schedule, t, grace);
      && (picked.Some? ==>
            && picked.value <= t
            && (picked == a.schedule.pendingFor || (NextDue(a.schedule, t) && a.schedule.nextRunAt.value <= picked.value))
            && (picked == a.schedule.pendingFor || !a.schedule.trigger.Date? || picked == a.schedule.nextRunAt))
      && (picked.None? ==> !PendingDue(a.schedule, t) && NextDue(a.schedule, t))
  {
    hide Unending, FirstFire, PollAdvance;
    PollFacts(calendar, a, clock, t, grace);
  }

  /** The occurrence a poll records for a user-managed schedule has never been stored. */
  lemma PollOccurrenceFresh(calendar: Calendar, a: Aggregate, clock: Micros, t: Micros, grace: Micros)
    requires LawfulCalendar(calendar) && Sound(calendar, a, clock) && Pollable(a.schedule, t) && t <= clock
    requires !a.schedule.systemManaged && PollOccurrence(calendar, a.schedule, t, grace).Some?
    ensures var at := PollOccurrence(calendar, a.schedule, t, grace).value;
      && at !in a.executions
      && (a.schedule.trigger.Recurring() ==> forall stored :: stored in a.executions ==> stored < at)
  {
    hide Unending, FirstFire, PollAdvance, PollOccurrence;
    PickFacts(calendar, a, clock, t, grace);
  }

  lemma EnqueueSound(calendar: Calendar, a: Aggregate, generation: int, clock: Micros, t: Micros, grace: Micros)
    requires LawfulCalendar(calendar) && Sound(calendar, a, clock) && t <= clock
    ensures Sound(calendar, Settled(a, Enqueue(calendar, a, generation, t, grace)), clock)
    ensures !a.schedule.systemManaged ==> !Enqueue(calendar, a, generation, t, grace).Aborted?
  {
    hide Unending, FirstFire, PollAdvance, PollOccurrence;
    if Pollable(a.schedule, t) {
      PollFacts(calendar, a, clock, t, grace);
      PickFacts(calendar, a, clock, t, grace);
      if !a.schedule.systemManaged && PollOccurrence(calendar, a.schedule, t, grace).Some? {
        PollOccurrenceFresh(calendar, a, clock, t, grace);
      }
    }
  }

  lemma ClaimSound(calendar: Calendar, a: Aggregate, at: Micros, generation: int, owner: Owner, lease: Micros, clock: Micros)
    requires Sound(calendar, a, clock)
    ensures Sound(calendar, Settled(a, Claim(a, at, generation, owner, lease, clock)), clock)
  {
    hide Unending, FirstFire;
  }

  lemma RefreshSound(calendar: Calendar, a: Aggregate, at: Micros, owner: Owner, lease: Micros, clock: Micros)
    requires Sound(calendar, a, clock)
    ensures Sound(calendar, Settled(a, Refresh(a, at, owner, lease, clock)), clock)
  {
    hide Unending, FirstFire;
  }

  /** Freeing the slot of a just finished execution restores the whole invariant. */
  lemma ReleaseSound(calendar: Calendar, a: Aggregate, at: Micros, row: Execution, generation: int, terminal: ScheduleStatus, clock: Micros)
    requires Sound(calendar, a, clock) && a.schedule.active == Some(at)
    requires RowSound(row) && !row.Open()
    requires terminal == ScheduleStatus.Completed || terminal == ScheduleStatus.Failed
    ensures var outcome := Release(WithRow(a, at, row), generation, terminal, clock);
      && (outcome.Committed? ==> Sound(calendar, outcome.after, clock))
      && !outcome.Rejected?
      && (!a.schedule.systemManaged ==> outcome.Committed?)
  {
    hide Unending, FirstFire;
  }

  lemma CompleteSound(calendar: Calendar, a: Aggregate, at: Micros, generation: int, owner: Owner, clock: Micros)
    requires Sound(calendar, a, clock)
    ensures Sound(calendar, Settled(a, Complete(a, at, generation, owner, clock)), clock)
    ensures !a.schedule.systemManaged ==> !Complete(a, at, generation, owner, clock).Aborted?
  {
    hide Unending, FirstFire, Release;
    if Accepts(a, at, generation, owner) {
      var row := a.executions[at].(state := Succeeded, completedAt := Some(clock), leaseOwner := None, leaseExpiresAt := None);
      ReleaseSound(calendar, a, at, row, generation, ScheduleStatus.Completed, clock);
    }
  }

  lemma FailSound(calendar: Calendar, a: Aggregate, at: Micros, attempt: nat, generation: int, owner: Owner, policy: RetryPolicy, clock: Micros)
    requires Sound(calendar, a, clock) && attempt >= 1
    ensures Sound(calendar, Settled(a, Fail(a, at, attempt, generation, owner, policy, clock)), clock)
    ensures !a.schedule.systemManaged ==> !Fail(a, at, attempt, generation, owner, policy, clock).Aborted?
  {
    hide Unending, FirstFire, Release, RetryDelay;
    if Accepts(a, at, generation, owner) && !WillRetry(a, attempt, policy) {
      var row := a.executions[at].(state := ExecutionState.Failed, completedAt := Some(clock), leaseOwner := None, leaseExpiresAt := None);
      ReleaseSound(calendar, a, at, row, generation, ScheduleStatus.Failed, clock);
    }
  }

  lemma CancelExpiredSound(calendar: Calendar, a: Aggregate, at: Micros, t: Micros, clock: Micros)
    requires Sound(calendar, a, clock)
    ensures Sound(calendar, Settled(a, CancelExpired(a, at, t)), clock)
  {
    hide Unending, FirstFire;
  }

  /** A bulk update that keeps rows sound and open rows open, or drops finished ones. */
  lemma BulkSound(calendar: Calendar, a: Aggregate, after: Aggregate, clock: Micros)
    requires Sound(calendar, a, clock) && after.schedule == a.schedule
    requires forall at :: at in after.executions ==>
                            && at in a.executions
                            && RowSound(after.executions[at])
                            && (after.executions[at].Open() <==> a.executions[at].Open())
                            && (a.schedule.status == Deleted ==> after.executions[at].state == a.executions[at].state)
    requires forall at :: at in a.executions && a.executions[at].Open() ==> at in after.executions
    ensures Sound(calendar, after, clock)
  {
    hide Unending, FirstFire;
    if a.schedule.active.Some? {
      var at := a.schedule.active.value;
      assert at in a.executions && a.executions[at].Open();
      assert at in after.executions && after.executions[at].Open();
    }
  }

  lemma RequeueSound(calendar: Calendar, a: Aggregate, generation: int, t: Micros, timeout: Micros, clock: Micros)
    requires Sound(calendar, a, clock)
    ensures Sound(calendar, Requeue(a, generation, t, timeout), clock)
  {
    hide Unending, FirstFire;
    BulkSound(calendar, a, Requeue(a, generation, t, timeout), clock);
  }

  lemma MarkDispatchedSound(calendar: Calendar, a: Aggregate, at: Micros, generation: int, attempt: int, clock: Micros)
    requires Sound(calendar, a, clock)
    ensures Sound(calendar, Settled(a, MarkDispatched(a, at, generation, attempt, clock)), clock)
  {
    hide Unending, FirstFire;
  }

  lemma RegenerateSound(calendar: Calendar, a: Aggregate, generation: int, clock: Micros)
    requires Sound(calendar, a, clock)
    ensures Sound(calendar, Regenerate(a, generation), clock)
  {
    hide Unending, FirstFire;
    BulkSound(calendar, a, Regenerate(a, generation), clock);
  }

  lemma PurgeSound(calendar: Calendar, a: Aggregate, victims: set<Micros>, cutoff: Micros, clock: Micros)
    requires Sound(calendar, a, clock)
    ensures Sound(calendar, Purge(a, victims, cutoff), clock)
  {
    hide Unending, FirstFire;
    BulkSound(calendar, a, Purge(a, victims, cutoff), clock);
  }

  /** Retiring a schedule, by its user or by reconciliation. */
  lemma RetireSound(calendar: Calendar, a: Aggregate, clock: Micros)
    requires Sound(calendar, a, clock)
    ensures Sound(calendar, CancelUnstarted(a.(schedule := Retired(a.schedule)), clock), clock)
  {
    hide Unending, FirstFire;
  }

  /** A schedule whose next run was computed at `clock` and whose slot is untouched. */
  lemma FirstRunFacts(calendar: Calendar, trigger: Trigger, clock: Micros)
    requires LawfulCalendar(calendar) && trigger.Valid()
    ensures var next := GetNextFireTime(calendar, trigger, None, clock);
      && (next.Some? ==> IsFire(calendar, trigger, next.value))
      && (next.Some? && trigger.Recurring() ==> clock <= next.value)
      && (Unending(calendar, trigger) ==> next.Some?)
  {
    EveryTriggerLawful(calendar, trigger);
    var r := FirstRunAt(calendar, trigger, clock);
  }

  lemma CreatedSound(calendar: Calendar, task: Task, trigger: Trigger, enabled: bool, clock: Micros)
    requires LawfulCalendar(calendar) && trigger.Valid()
    ensures Sound(calendar, Created(calendar, task, trigger, enabled, clock), clock)
  {
    hide Unending, FirstFire, GetNextFireTime;
    FirstRunFacts(calendar, trigger, clock);
  }

  lemma UpdateSound(calendar: Calendar, a: Aggregate, expectedRevision: int, task: Task, trigger: Trigger, enabled: bool, clock: Micros)
    requires LawfulCalendar(calendar) && Sound(calendar, a, clock) && trigger.Valid()
    ensures Sound(calendar, Settled(a, Update(calendar, a, expectedRevision, task, trigger, enabled, clock)), clock)
  {
    hide Unending, FirstFire, GetNextFireTime;
    FirstRunFacts(calendar, trigger, clock);
  }

  lemma ReconciledSound(calendar: Calendar, definition: Definition, stored: Option<Aggregate>, clock: Micros)
    requires LawfulCalendar(calendar) && definition.Valid()
    requires stored.Some? ==> Sound(calendar, stored.value, clock) && stored.value.schedule.systemManaged
    ensures Sound(calendar, Reconciled(calendar, definition, stored, clock), clock)
  {
    hide Unending, FirstFire, GetNextFireTime;
    var trigger := DesiredTrigger(definition, if stored.Some? then Some(stored.value.schedule.trigger) else None, clock);
    FirstRunFacts(calendar, trigger, clock);
  }

  lemma OrphanedSound(calendar: Calendar, a: Aggregate, clock: Micros)
    requires Sound(calendar, a, clock)
    ensures Sound(calendar, Orphaned(a, clock), clock)
  {
    hide Unending, FirstFire;
    RetireSound(calendar, a, clock);
  }
}
