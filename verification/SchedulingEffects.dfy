/**
 * What each transaction does to the columns of its schedule and executions, read off the
 * stored rows alone: when it goes through, what it writes, and what it leaves as it was.
 */
module SchedulingEffects {
  import opened Options
  import opened Triggers
  import opened ScheduleAggregate
  import opened ScheduleInvariant

  /** An execution as it is first stored. */
  predicate FirstStored(row: Execution, task: Task, generation: int, now: Micros) {
    && row.task == task && row.generation == generation && row.createdAt == now
    && row.state == Pending && row.dispatch == Unsent && row.attempt == 0
    && row.retryAt.None? && row.dispatchedAt.None? && row.leaseOwner.None? && row.leaseExpiresAt.None?
    && row.startedAt.None? && row.completedAt.None?
  }

  /** No row comes or goes, and none but the one at `at` changes. */
  predicate OnlyRowChanges(a: Aggregate, after: Aggregate, at: Micros) {
    && after.executions.Keys == a.executions.Keys
    && forall other :: other in a.executions && other != at ==> after.executions[other] == a.executions[other]
  }

  /** The row at `at` runs under `owner` in `generation`. */
  predicate RunsUnder(a: Aggregate, at: Micros, generation: int, owner: Owner) {
    && at in a.executions && a.executions[at].state == Running
    && a.executions[at].generation == generation && a.executions[at].leaseOwner == Some(owner)
  }

  /** Freeing the slot would record an occurrence that is stored already. */
  predicate PromotionClashes(a: Aggregate, at: Micros) {
    && a.schedule.active == Some(at) && a.schedule.status != Deleted
    && a.schedule.pendingFor.Some? && a.schedule.pendingFor.value in a.executions
  }

  /**
   * The slot that named `at` has been freed: what waited has been started, or the schedule has
   * nothing left and ends as `terminal`.  Without the slot nothing but the row has changed.
   */
  predicate SlotFreed(a: Aggregate, after: Aggregate, at: Micros, generation: int, terminal: ScheduleStatus, now: Micros) {
    var s, n := a.schedule, after.schedule;
    && n.task == s.task && n.trigger == s.trigger && n.systemManaged == s.systemManaged && n.enabled == s.enabled
    && n.revision == s.revision && n.nextRunAt == s.nextRunAt
    && (forall other :: other in a.executions && other != at ==> other in after.executions && after.executions[other] == a.executions[other])
    && if s.active == Some(at) && s.status != Deleted && s.pendingFor.Some? then
         var started := s.pendingFor.value;
         && n.active == Some(started) && n.pendingFor.None? && n.status == s.status
         && started !in a.executions && after.executions.Keys == a.executions.Keys + {started}
         && FirstStored(after.executions[started], s.task, generation, now)
       else
         && after.executions.Keys == a.executions.Keys && n.pendingFor == s.pendingFor
         && n.active == (if s.active == Some(at) then None else s.active)
         && n.status == if s.active == Some(at) && s.status != Deleted && s.nextRunAt.None? then terminal else s.status
  }

  // ----- Polls -----

  /** A poll does nothing exactly if the schedule is off or has nothing due. */
  lemma PollRefusedExactly(calendar: Calendar, a: Aggregate, generation: int, t: Micros, grace: Micros)
    requires a.schedule.trigger.Valid()
    ensures var s := a.schedule;
      Enqueue(calendar, a, generation, t, grace).Rejected? <==>
      || !s.enabled || s.status != Active
      || ((s.nextRunAt.Some? ==> t < s.nextRunAt.value) && (s.pendingFor.Some? ==> t < s.pendingFor.value))
  {
    hide PollAdvance, PollOccurrence;
  }

  /** The execution that a poll starts, and the status that it leaves. */
  lemma PollWrites(calendar: Calendar, a: Aggregate, generation: int, t: Micros, grace: Micros)
    requires a.schedule.trigger.Valid() && Enqueue(calendar, a, generation, t, grace).Committed?
    ensures var after := Enqueue(calendar, a, generation, t, grace).after;
      && (forall at :: at in after.executions && at !in a.executions ==>
            after.schedule.active == Some(at) && FirstStored(after.executions[at], a.schedule.task, generation, t))
      && (forall at :: at in a.executions ==> at in after.executions && after.executions[at] == a.executions[at])
      && (after.schedule.status == ScheduleStatus.Completed <==>
            after.schedule.active.None? && after.schedule.nextRunAt.None?)
      && (after.schedule.status != ScheduleStatus.Completed ==> after.schedule.status == Active)
      && after.schedule.systemManaged == a.schedule.systemManaged
  {
    hide PollAdvance, PollOccurrence;
  }

  /** A waiting occurrence that is due is started by any poll that finds the slot free, or a later one is. */
  lemma WaitingStarts(calendar: Calendar, a: Aggregate, generation: int, t: Micros, grace: Micros)
    requires a.schedule.trigger.Valid() && a.schedule.enabled && a.schedule.status == Active && a.schedule.active.None?
    requires a.schedule.pendingFor.Some? && a.schedule.pendingFor.value <= t
    ensures var polled := Enqueue(calendar, a, generation, t, grace);
      var picked := PollOccurrence(calendar, a.schedule, t, grace);
      && picked.Some? && a.schedule.pendingFor.value <= picked.value
      && (polled.Aborted? <==> picked.value in a.executions)
      && (!polled.Aborted? ==>
            && polled.Committed? && polled.after.schedule.active == picked && picked.value in polled.after.executions
            && FirstStored(polled.after.executions[picked.value], a.schedule.task, generation, t))
    ensures Shortlisted(a.schedule, t)
  {
    hide PollAdvance;
  }

  // ----- Leases -----

  /** A claim succeeds on the open, unblocked execution in the slot, and leases it for the full length. */
  lemma ClaimEffect(a: Aggregate, at: Micros, generation: int, owner: Owner, lease: Micros, now: Micros)
    ensures var outcome := Claim(a, at, generation, owner, lease, now);
      && (outcome.Committed? <==>
            && a.schedule.status != Deleted && a.schedule.active == Some(at) && at in a.executions
            && var r := a.executions[at];
            && r.generation == generation && (r.state == Pending || r.state == Running || r.state == RetryWait)
            && (r.retryAt.Some? ==> r.retryAt.value <= now) && (r.leaseExpiresAt.Some? ==> r.leaseExpiresAt.value <= now))
      && (outcome.Committed? ==>
            && outcome.after.schedule == a.schedule && OnlyRowChanges(a, outcome.after, at)
            && var r, n := a.executions[at], outcome.after.executions[at];
            && n.state == Running && n.leaseOwner == Some(owner) && n.leaseExpiresAt == Some(now + lease)
            && n.attempt == r.attempt + 1 && n.startedAt == Some(now) && n.retryAt.None?
            && n.dispatch == Sent && n.dispatchedAt == Some(now)
            && n.task == r.task && n.generation == r.generation && n.createdAt == r.createdAt && n.completedAt == r.completedAt)
  {
  }

  /** The lease of a claim is live from its instant for exactly its length. */
  lemma ClaimLeases(a: Aggregate, at: Micros, generation: int, owner: Owner, lease: Micros, now: Micros, t: Micros)
    requires Claim(a, at, generation, owner, lease, now).Committed? && now <= t
    ensures var after := Claim(a, at, generation, owner, lease, now).after;
      at in after.executions && (after.executions[at].LeaseLive(t) <==> t < now + lease)
  {
  }

  /** A renewal is accepted from the holder alone, and moves the end of the lease and nothing else. */
  lemma RefreshEffect(a: Aggregate, at: Micros, owner: Owner, lease: Micros, now: Micros)
    ensures var outcome := Refresh(a, at, owner, lease, now);
      && (outcome.Committed? <==> at in a.executions && RunsUnder(a, at, a.executions[at].generation, owner))
      && (outcome.Committed? ==>
            && outcome.after.schedule == a.schedule && OnlyRowChanges(a, outcome.after, at)
            && outcome.after.executions[at].leaseExpiresAt == Some(now + lease)
            && outcome.after.executions[at] == a.executions[at].(leaseExpiresAt := outcome.after.executions[at].leaseExpiresAt))
  {
  }

  /** What a delivery by identifier is told. */
  lemma DeliveryExactly(a: Aggregate, at: Micros, generation: int, now: Micros)
    ensures var d := DeliveryState(a, at, generation, now);
      var known := at in a.executions && a.executions[at].generation == generation;
      && (d == Stale <==> !known)
      && (d == Terminal <==>
            known && (a.executions[at].state == Succeeded || a.executions[at].state == ExecutionState.Failed || a.executions[at].state == Cancelled))
      && (d == Busy || d == Ready <==>
            known && (a.executions[at].state == Pending || a.executions[at].state == Running || a.executions[at].state == RetryWait))
      && (d == Busy ==> (a.executions[at].retryAt.Some? && now < a.executions[at].retryAt.value)
                        || (a.executions[at].leaseExpiresAt.Some? && now < a.executions[at].leaseExpiresAt.value))
      && (d == Ready ==> (a.executions[at].retryAt.Some? ==> a.executions[at].retryAt.value <= now)
                         && (a.executions[at].leaseExpiresAt.Some? ==> a.executions[at].leaseExpiresAt.value <= now))
  {
  }

  // ----- Outcomes -----

  /** A completion is accepted from the holder alone; the row has then succeeded and its slot is free. */
  lemma CompleteEffect(a: Aggregate, at: Micros, generation: int, owner: Owner, now: Micros)
    ensures var outcome := Complete(a, at, generation, owner, now);
      && (outcome.Rejected? <==> !RunsUnder(a, at, generation, owner))
      && (outcome.Aborted? <==> RunsUnder(a, at, generation, owner) && PromotionClashes(a, at))
      && (outcome.Committed? ==>
            && at in outcome.after.executions
            && SlotFreed(a, outcome.after, at, generation, ScheduleStatus.Completed, now)
            && var r, n := a.executions[at], outcome.after.executions[at];
            && n.state == Succeeded && n.completedAt == Some(now) && n.leaseOwner.None? && n.leaseExpiresAt.None?
            && n == r.(state := n.state, completedAt := n.completedAt, leaseOwner := None, leaseExpiresAt := None))
  {
  }

  /**
   * A failure is accepted from the holder alone.  It is retried exactly if the attempt of the
   * claim is below the limit and the schedule is not deleted; otherwise the row has failed
   * and its slot is free.
   */
  lemma FailEffect(a: Aggregate, at: Micros, attempt: nat, generation: int, owner: Owner, policy: RetryPolicy, now: Micros)
    requires attempt >= 1
    ensures var outcome := Fail(a, at, attempt, generation, owner, policy, now);
      var retries := attempt < policy.maxAttempts && a.schedule.status != Deleted;
      && (outcome.Rejected? <==> !RunsUnder(a, at, generation, owner))
      && (outcome.Aborted? <==> RunsUnder(a, at, generation, owner) && !retries && PromotionClashes(a, at))
      && (outcome.Committed? ==>
            && at in outcome.after.executions
            && var r, n := a.executions[at], outcome.after.executions[at];
            && n.leaseOwner.None? && n.leaseExpiresAt.None?
            && n.task == r.task && n.generation == r.generation && n.createdAt == r.createdAt && n.attempt == r.attempt
            && n.startedAt == r.startedAt
            && if retries then
                 && n.state == RetryWait && n.retryAt == Some(now + RetryDelay(policy, attempt))
                 && n.dispatch == Unsent && n.dispatchedAt.None? && n.completedAt == r.completedAt
                 && outcome.after.schedule == a.schedule && OnlyRowChanges(a, outcome.after, at)
               else
                 && n.state == ExecutionState.Failed && n.completedAt == Some(now) && n.retryAt == r.retryAt
                 && n.dispatch == r.dispatch && n.dispatchedAt == r.dispatchedAt
                 && SlotFreed(a, outcome.after, at, generation, ScheduleStatus.Failed, now))
  {
    hide RetryDelay;
  }

  /** The first retry waits the initial backoff, and each later one twice as long, up to the maximum. */
  lemma BackoffDoubles(policy: RetryPolicy, attempt: nat)
    requires policy.Valid() && attempt >= 1
    ensures RetryDelay(policy, 1) == policy.initialSeconds * SECOND
    ensures RetryDelay(policy, attempt + 1) == Min(2 * RetryDelay(policy, attempt), policy.maximumSeconds * SECOND)
  {
    var d := policy.initialSeconds * Pow2(attempt - 1);
    assert Pow2(attempt) == 2 * Pow2(attempt - 1);
    assert policy.initialSeconds * Pow2(attempt) == 2 * d;
    assert RetryDelay(policy, attempt + 1) == Min(2 * d, policy.maximumSeconds) * SECOND;
    assert RetryDelay(policy, attempt) == Min(d, policy.maximumSeconds) * SECOND;
  }

  /** Crashed work of a deleted schedule ends cancelled and leaves the slot. */
  lemma CancelEffect(a: Aggregate, at: Micros, t: Micros)
    ensures var outcome := CancelExpired(a, at, t);
      && !outcome.Aborted?
      && (outcome.Committed? <==>
            && a.schedule.status == Deleted && at in a.executions && a.executions[at].state == Running
            && a.executions[at].leaseExpiresAt.Some? && a.executions[at].leaseExpiresAt.value <= t)
      && (outcome.Committed? ==>
            && OnlyRowChanges(a, outcome.after, at)
            && outcome.after.schedule == a.schedule.(active := if a.schedule.active == Some(at) then None else a.schedule.active)
            && var n := outcome.after.executions[at];
            && n.state == Cancelled && n.completedAt == Some(t)
            && n.leaseOwner.None? && n.leaseExpiresAt.None? && n.retryAt.None? && n.attempt == a.executions[at].attempt)
  {
  }

  // ----- Delivery and upkeep -----

  /** A mark is accepted for the unsent attempt that was delivered, and for no other. */
  lemma MarkEffect(a: Aggregate, at: Micros, generation: int, attempt: int, now: Micros)
    ensures var outcome := MarkDispatched(a, at, generation, attempt, now);
      && !outcome.Aborted?
      && (outcome.Committed? <==>
            && at in a.executions
            && var r := a.executions[at];
            && r.generation == generation && r.attempt == attempt && r.dispatch == Unsent
            && (r.state == Pending || r.state == RetryWait))
      && (outcome.Committed? ==>
            && outcome.after.schedule == a.schedule && OnlyRowChanges(a, outcome.after, at)
            && var n := outcome.after.executions[at];
            && n.dispatch == Sent && n.dispatchedAt == Some(now)
            && n == a.executions[at].(dispatch := n.dispatch, dispatchedAt := n.dispatchedAt))
  {
  }

  /** A marked execution is listed again by exactly the recoveries past its timeout and its retry time. */
  lemma MarkedIsNotListed(a: Aggregate, at: Micros, generation: int, attempt: int, now: Micros, t: Micros, timeout: Micros)
    requires MarkDispatched(a, at, generation, attempt, now).Committed?
    ensures var marked := MarkDispatched(a, at, generation, attempt, now).after;
      var recovered := Requeue(marked, generation, t, timeout);
      && at in recovered.executions
      && (Deliverable(recovered.executions[at], generation, t) <==>
            now + timeout <= t && (a.executions[at].retryAt.Some? ==> a.executions[at].retryAt.value <= t))
  {
  }

  /** Recovery touches rows of its generation only: overdue marks are withdrawn, crashed work is pending again. */
  lemma RequeueEffect(a: Aggregate, generation: int, t: Micros, timeout: Micros, at: Micros)
    requires at in a.executions
    ensures var after := Requeue(a, generation, t, timeout);
      && after.schedule == a.schedule && after.executions.Keys == a.executions.Keys
      && var r, n := a.executions[at], after.executions[at];
         var overdue := && r.generation == generation && (r.state == Pending || r.state == RetryWait) && r.dispatch == Sent
                        && (r.dispatchedAt.Some? ==> r.dispatchedAt.value <= t - timeout);
         var crashed := && r.generation == generation && r.state == Running && a.schedule.status != Deleted
                        && r.leaseExpiresAt.Some? && r.leaseExpiresAt.value <= t;
         && (!overdue && !crashed ==> n == r)
         && (overdue ==> n == r.(dispatch := Unsent, dispatchedAt := None))
         && (crashed ==> && n.state == Pending && n.dispatch == Unsent && n.leaseOwner.None? && n.leaseExpiresAt.None?
                         && n.retryAt.None? && n.dispatchedAt.None? && n.attempt == r.attempt && n.task == r.task
                         && n.generation == r.generation && n.createdAt == r.createdAt && n.completedAt == r.completedAt)
  {
  }

  /** A provider switch makes all open work of a living schedule pending in the new generation, and nothing else. */
  lemma RegenerateEffect(a: Aggregate, generation: int, at: Micros)
    requires at in a.executions
    ensures var after := Regenerate(a, generation);
      && after.schedule == a.schedule && after.executions.Keys == a.executions.Keys
      && var r, n := a.executions[at], after.executions[at];
         var open := r.state == Pending || r.state == Running || r.state == RetryWait;
         && (a.schedule.status == Deleted || !open ==> n == r)
         && (a.schedule.status != Deleted && open ==>
               && n.generation == generation && n.state == Pending && n.dispatch == Unsent && n.dispatchedAt.None?
               && n.retryAt.None? && n.leaseOwner.None? && n.leaseExpiresAt.None?
               && n.attempt == r.attempt && n.task == r.task && n.createdAt == r.createdAt
               && n.startedAt == r.startedAt && n.completedAt == r.completedAt)
  {
  }

  /** A row is purged exactly if it was chosen, has ended, and ended before the cutoff. */
  lemma PurgeEffect(a: Aggregate, victims: set<Micros>, cutoff: Micros, at: Micros)
    ensures var after := Purge(a, victims, cutoff);
      && after.schedule == a.schedule
      && (at in after.executions ==> at in a.executions && after.executions[at] == a.executions[at])
      && (at in a.executions ==>
            var r := a.executions[at];
            at !in after.executions <==>
            && at in victims && (r.state == Succeeded || r.state == ExecutionState.Failed || r.state == Cancelled)
            && r.completedAt.Some? && r.completedAt.value < cutoff)
  {
  }

  // ----- Management -----

  /** A created schedule is active and idle, with the given columns and the first run of its trigger. */
  lemma CreateEffect(calendar: Calendar, task: Task, trigger: Trigger, enabled: bool, now: Micros)
    requires LawfulCalendar(calendar) && trigger.Valid()
    ensures var a := Created(calendar, task, trigger, enabled, now);
      && a.executions == map[] && a.schedule.task == task && a.schedule.trigger == trigger && a.schedule.enabled == enabled
      && a.schedule.status == Active && !a.schedule.systemManaged && a.schedule.revision == 1
      && a.schedule.active.None? && a.schedule.pendingFor.None?
      && FirstRun(calendar, trigger, now, a.schedule.nextRunAt)
  {
    FirstRunIs(calendar, trigger, now);
  }

  /** The first run of a new or edited schedule: the date itself, else the least fire time from now on. */
  ghost predicate FirstRun(calendar: Calendar, trigger: Trigger, now: Micros, next: Option<Micros>)
    requires trigger.Valid()
  {
    if trigger.Date? then next == Some(trigger.runAt)
    else && (next.Some? ==> now <= next.value && IsFire(calendar, trigger, next.value))
         && (forall x :: now <= x && IsFire(calendar, trigger, x) ==> next.Some? && next.value <= x)
  }

  lemma FirstRunIs(calendar: Calendar, trigger: Trigger, now: Micros)
    requires LawfulCalendar(calendar) && trigger.Valid()
    ensures FirstRun(calendar, trigger, now, GetNextFireTime(calendar, trigger, None, now))
  {
    EveryTriggerLawful(calendar, trigger);
    if !trigger.Date? {
      assert GetNextFireTime(calendar, trigger, None, now) == FirstFire(calendar, trigger, now);
      hide FirstFire;
      forall x | now <= x && IsFire(calendar, trigger, x)
        ensures FirstFire(calendar, trigger, now).Some? && FirstFire(calendar, trigger, now).value <= x
      {
        FirstFireIsLeast(calendar, trigger, now, x);
      }
    }
  }

  /**
   * An edit goes through exactly for an idle user schedule at its revision whose new first run
   * is not recorded yet; it replaces the columns, drops what waited, and keeps the history.
   */
  lemma UpdateEffect(calendar: Calendar, a: Aggregate, expectedRevision: int, task: Task, trigger: Trigger, enabled: bool, now: Micros)
    requires LawfulCalendar(calendar) && trigger.Valid()
    ensures var outcome := Update(calendar, a, expectedRevision, task, trigger, enabled, now);
      && !outcome.Aborted?
      && (outcome.Committed? <==>
            && a.schedule.status != Deleted && !a.schedule.systemManaged && a.schedule.revision == expectedRevision
            && a.schedule.active.None?
            && !exists next :: next in a.executions && FirstRun(calendar, trigger, now, Some(next)))
      && (outcome.Committed? ==>
            && outcome.after.executions == a.executions
            && var n := outcome.after.schedule;
            && n.task == task && n.trigger == trigger && n.enabled == enabled && n.status == Active && !n.systemManaged
            && n.revision == expectedRevision + 1 && n.active.None? && n.pendingFor.None?
            && FirstRun(calendar, trigger, now, n.nextRunAt))
  {
    FirstRunIs(calendar, trigger, now);
    var first := GetNextFireTime(calendar, trigger, None, now);
    forall next | FirstRun(calendar, trigger, now, Some(next))
      ensures first == Some(next)
    {
    }
    hide GetNextFireTime, FirstRun;
  }

  /** A retired schedule expects nothing, loses its unstarted execution, and keeps a running one in its slot. */
  predicate RetiredFrom(a: Aggregate, after: Aggregate, now: Micros)
    requires a.schedule.active.Some? ==> a.schedule.active.value in a.executions
  {
    var s, n := a.schedule, after.schedule;
    && n.status == Deleted && !n.enabled && n.nextRunAt.None? && n.pendingFor.None? && n.revision == s.revision + 1
    && n.task == s.task && n.trigger == s.trigger && n.systemManaged == s.systemManaged
    && after.executions.Keys == a.executions.Keys
    && (forall at :: at in a.executions && s.active != Some(at) ==> after.executions[at] == a.executions[at])
    && (s.active.None? ==> n.active.None?)
    && (s.active.Some? ==>
          var r, e := a.executions[s.active.value], after.executions[s.active.value];
          && (n.active == (if r.state == Running then s.active else None))
          && (if r.state == Pending || r.state == RetryWait then
                && e.state == Cancelled && e.completedAt == Some(now) && e.attempt == r.attempt && e.task == r.task
                && e.leaseOwner.None? && e.leaseExpiresAt.None? && e.retryAt.None?
              else e == r))
  }

  /** A deletion goes through exactly for a living user schedule at its revision, and retires it. */
  lemma DeleteEffect(a: Aggregate, expectedRevision: int, now: Micros)
    requires SlotSound(a)
    ensures var outcome := Delete(a, expectedRevision, now);
      && !outcome.Aborted?
      && (outcome.Committed? <==> a.schedule.status != Deleted && !a.schedule.systemManaged && a.schedule.revision == expectedRevision)
      && (outcome.Committed? ==> RetiredFrom(a, outcome.after, now))
  {
  }

  /** A system schedule that nobody wants is retired once. */
  lemma OrphanEffect(a: Aggregate, now: Micros)
    requires SlotSound(a)
    ensures if a.schedule.status == Deleted && !a.schedule.enabled then Orphaned(a, now) == a else RetiredFrom(a, Orphaned(a, now), now)
  {
  }

  // ----- System definitions -----

  /** The trigger a definition asks for; an interval without an anchor keeps the stored one, or starts at `now`. */
  predicate Wanted(definition: Definition, stored: Option<Aggregate>, now: Micros, trigger: Trigger) {
    match definition.trigger
    case DefinedDate(runAt) => trigger == Date(runAt)
    case DefinedCron(expression) => trigger == Cron(expression)
    case DefinedInterval(seconds, start) =>
      && trigger.Interval? && trigger.seconds == seconds
      && (start.Some? ==> trigger.start == start.value)
      && (start.None? ==>
            if stored.Some? && stored.value.schedule.trigger.Interval? then trigger.start == stored.value.schedule.trigger.start
            else trigger.start == now)
  }

  /** The stored schedule is active, enabled, and has the task and trigger of the definition. */
  predicate UpToDate(definition: Definition, stored: Aggregate, now: Micros) {
    var s := stored.schedule;
    s.enabled && s.status == Active && s.task == definition.task && Wanted(definition, Some(stored), now, s.trigger)
  }

  /**
   * A definition whose row is up to date changes nothing.  Any other is written: its columns, the
   * first run of its trigger, and a run waiting for `now` exactly if it asks for one.
   */
  lemma ReconcileEffect(calendar: Calendar, definition: Definition, stored: Option<Aggregate>, now: Micros)
    requires LawfulCalendar(calendar) && definition.Valid()
    ensures var after := Reconciled(calendar, definition, stored, now);
      && (stored.Some? && UpToDate(definition, stored.value, now) ==> after == stored.value)
      && (!(stored.Some? && UpToDate(definition, stored.value, now)) ==>
            && after.schedule.task == definition.task && after.schedule.trigger.Valid()
            && Wanted(definition, stored, now, after.schedule.trigger)
            && after.schedule.enabled && after.schedule.status == Active
            && FirstRun(calendar, after.schedule.trigger, now, after.schedule.nextRunAt)
            && (definition.runImmediately ==> after.schedule.pendingFor == Some(now))
            && (!definition.runImmediately ==> after.schedule.pendingFor.None?)
            && (stored.Some? ==>
                  && after.executions == stored.value.executions && after.schedule.active == stored.value.schedule.active
                  && after.schedule.revision == stored.value.schedule.revision + 1
                  && after.schedule.systemManaged == stored.value.schedule.systemManaged)
            && (stored.None? ==>
                  && after.executions == map[] && after.schedule.active.None? && after.schedule.revision == 1
                  && after.schedule.systemManaged))
  {
    var trigger := DesiredTrigger(definition, if stored.Some? then Some(stored.value.schedule.trigger) else None, now);
    FirstRunIs(calendar, trigger, now);
    hide GetNextFireTime, FirstRun;
  }

  /**
   * The immediate run of a definition just written is started by the first poll that finds the slot
   * free, or a later occurrence is; the poll raises exactly if what it picks is stored already.
   */
  lemma ImmediateRunStarts(calendar: Calendar, definition: Definition, stored: Option<Aggregate>, now: Micros,
                           generation: int, t: Micros, grace: Micros)
    requires LawfulCalendar(calendar) && definition.Valid() && definition.runImmediately && now <= t
    requires stored.None? || (!UpToDate(definition, stored.value, now) && stored.value.schedule.active.None?)
    ensures var a := Reconciled(calendar, definition, stored, now);
      && a.schedule.trigger.Valid()
      && var polled := Enqueue(calendar, a, generation, t, grace);
         var picked := PollOccurrence(calendar, a.schedule, t, grace);
      && picked.Some? && now <= picked.value
      && (polled.Aborted? <==> picked.value in a.executions)
      && (!polled.Aborted? ==>
            && polled.Committed? && polled.after.schedule.active == picked && picked.value in polled.after.executions
            && polled.after.executions[picked.value].state == Pending)
  {
    ReconcileEffect(calendar, definition, stored, now);
    hide Reconciled, UpToDate, Wanted, FirstRun;
    WaitingStarts(calendar, Reconciled(calendar, definition, stored, now), generation, t, grace);
  }
}
