/** Coalescing: what one poll records, and that repeating it changes nothing. */
module SchedulingPolls {
  import opened Options
  import opened Triggers
  import opened ScheduleAggregate
  import opened ScheduleInvariant

  /** An occurrence a poll at `t` may record: the waiting one, or a fire time within the grace window. */
  ghost predicate Eligible(calendar: Calendar, s: Schedule, t: Micros, grace: Micros, x: Micros)
    requires s.trigger.Valid()
  {
    || (s.pendingFor == Some(x) && x <= t)
    || (NextDue(s, t) && s.nextRunAt.value <= x <= t && t - grace <= x && IsFire(calendar, s.trigger, x))
  }

  /** The poll picks the latest eligible occurrence, and picks none exactly when none exists. */
  lemma PollPicksLatest(calendar: Calendar, a: Aggregate, clock: Micros, t: Micros, grace: Micros)
    requires LawfulCalendar(calendar) && Sound(calendar, a, clock)
    ensures var picked := PollOccurrence(calendar, a.schedule, t, grace);
      && (picked.Some? ==> Eligible(calendar, a.schedule, t, grace, picked.value))
      && (forall x :: Eligible(calendar, a.schedule, t, grace, x) ==> picked.Some? && x <= picked.value)
  {
    hide FirstFire, IsFire;
    if NextDue(a.schedule, t) {
      var s := a.schedule;
      var last := LastFire(calendar, s.trigger, Max(s.nextRunAt.value, t - grace), t);
      hide LastFire;
      assert PollAdvance(calendar, s, t, grace).latestDue == last;
    }
  }

  /** The whole effect of a poll that commits. */
  lemma PollEffect(calendar: Calendar, a: Aggregate, generation: int, clock: Micros, t: Micros, grace: Micros)
    requires LawfulCalendar(calendar) && Sound(calendar, a, clock)
    requires Enqueue(calendar, a, generation, t, grace).Committed?
    ensures var after := Enqueue(calendar, a, generation, t, grace).after;
      var picked := PollOccurrence(calendar, a.schedule, t, grace);
      && (after.schedule.nextRunAt.Some? ==> t < after.schedule.nextRunAt.value)
      && (after.schedule.nextRunAt.Some? ==> IsFire(calendar, a.schedule.trigger, after.schedule.nextRunAt.value))
      && (picked.None? ==> after.executions == a.executions && after.schedule.active == a.schedule.active
                           && after.schedule.pendingFor == a.schedule.pendingFor)
      && (picked.Some? && a.schedule.active.Some? ==>
            && after.executions == a.executions && after.schedule.active == a.schedule.active
            && after.schedule.pendingFor == picked)
      && (picked.Some? && a.schedule.active.None? ==>
            && picked.value !in a.executions && after.schedule.active == picked && after.schedule.pendingFor.None?
            && after.executions == a.executions[picked.value := NewExecution(a.schedule.task, generation, t)])
      && after.schedule.task == a.schedule.task && after.schedule.trigger == a.schedule.trigger
      && after.schedule.enabled && after.schedule.revision == a.schedule.revision
  {
    hide FirstFire, IsFire, PollAdvance;
    PollFacts(calendar, a, clock, t, grace);
  }

  /** No fire time is jumped over: the new next run is the first one after `t`. */
  lemma NextRunIsFirst(calendar: Calendar, a: Aggregate, generation: int, clock: Micros, t: Micros, grace: Micros, x: Micros)
    requires LawfulCalendar(calendar) && Sound(calendar, a, clock) && NextDue(a.schedule, t)
    requires t < x && IsFire(calendar, a.schedule.trigger, x)
    ensures var polled := Enqueue(calendar, a, generation, t, grace);
      polled.Committed? ==> polled.after.schedule.nextRunAt.Some? && polled.after.schedule.nextRunAt.value <= x
  {
    hide FirstFire, LastFire, PollOccurrence;
    EveryTriggerLawful(calendar, a.schedule.trigger);
    var first := FirstFire(calendar, a.schedule.trigger, t + 1);
    assert PollAdvance(calendar, a.schedule, t, grace).nextRun == first;
    FirstFireIsLeast(calendar, a.schedule.trigger, t + 1, x);
  }

  /** A second poll at the same instant changes nothing, whichever provider makes it. */
  lemma PollIdempotent(calendar: Calendar, a: Aggregate, generation: int, other: int, clock: Micros, t: Micros, grace: Micros)
    requires LawfulCalendar(calendar) && Sound(calendar, a, clock) && t <= clock
    ensures var after := Settled(a, Enqueue(calendar, a, generation, t, grace));
      Enqueue(calendar, a, generation, t, grace).Committed? ==> Settled(after, Enqueue(calendar, after, other, t, grace)) == after
  {
    var first := Enqueue(calendar, a, generation, t, grace);
    if first.Committed? {
      PollEffect(calendar, a, generation, clock, t, grace);
      EnqueueSound(calendar, a, generation, clock, t, grace);
      var after := first.after;
      if Pollable(after.schedule, t) {
        PollPicksLatest(calendar, a, clock, t, grace);
        hide FirstFire, IsFire, PollOccurrence, PollAdvance, Sound;
        assert !NextDue(after.schedule, t);
        QuietAdvance(calendar, after.schedule, t, grace);
      }
    }
  }

  /** A poll that does not raise takes its schedule off the shortlist for that instant. */
  lemma PolledIsNotListed(calendar: Calendar, a: Aggregate, generation: int, clock: Micros, t: Micros, grace: Micros)
    requires LawfulCalendar(calendar) && Sound(calendar, a, clock)
    requires !Enqueue(calendar, a, generation, t, grace).Aborted?
    ensures !Shortlisted(Settled(a, Enqueue(calendar, a, generation, t, grace)).schedule, t)
  {
    hide FirstFire, IsFire, PollAdvance;
    if Pollable(a.schedule, t) {
      PollFacts(calendar, a, clock, t, grace);
    }
  }

  /** The shortlist misses nothing: polling any other schedule would change nothing. */
  lemma UnlistedUnchanged(calendar: Calendar, a: Aggregate, generation: int, clock: Micros, t: Micros, grace: Micros)
    requires LawfulCalendar(calendar) && Sound(calendar, a, clock) && !Shortlisted(a.schedule, t)
    ensures Settled(a, Enqueue(calendar, a, generation, t, grace)) == a
  {
    hide FirstFire, IsFire, Sound;
  }

  lemma QuietAdvance(calendar: Calendar, s: Schedule, t: Micros, grace: Micros)
    requires s.trigger.Valid() && !NextDue(s, t)
    ensures PollAdvance(calendar, s, t, grace) == TriggerAdvance(None, s.nextRunAt)
    ensures PollOccurrence(calendar, s, t, grace) == if PendingDue(s, t) then s.pendingFor else None
  {
  }

  /** A poll that finds its schedule finished leaves a waiting occurrence exactly if its clock is stale. */
  lemma FinishedByPoll(calendar: Calendar, a: Aggregate, generation: int, clock: Micros, t: Micros, grace: Micros)
    requires LawfulCalendar(calendar) && Sound(calendar, a, clock)
    requires Enqueue(calendar, a, generation, t, grace).Committed?
    requires Enqueue(calendar, a, generation, t, grace).after.schedule.status == ScheduleStatus.Completed
    ensures var s := Enqueue(calendar, a, generation, t, grace).after.schedule;
      && s.active.None? && s.nextRunAt.None?
      && (s.pendingFor.Some? <==> a.schedule.pendingFor.Some? && t < a.schedule.pendingFor.value)
      && (clock <= t ==> s.pendingFor.None?)
      && (!a.schedule.systemManaged || a.schedule.trigger.Recurring() ==> s.pendingFor.None?)
  {
    hide FirstFire, PollAdvance;
    PollFacts(calendar, a, clock, t, grace);
  }

  /** A completion or failure finishes its schedule only with nothing left to run. */
  lemma FinishedByRelease(a: Aggregate, generation: int, terminal: ScheduleStatus, now: Micros)
    requires terminal == ScheduleStatus.Completed || terminal == ScheduleStatus.Failed
    requires a.schedule.status == Active && Release(a, generation, terminal, now).Committed?
    ensures var s := Release(a, generation, terminal, now).after.schedule;
      s.status == terminal <==> a.schedule.pendingFor.None? && a.schedule.nextRunAt.None?
    ensures var s := Release(a, generation, terminal, now).after.schedule;
      s.status == terminal ==> s.active.None? && s.pendingFor.None? && s.nextRunAt.None?
  {
  }

  /**
   * With a clock read before a reconciliation, a poll can finish a dated system schedule
   * although the immediate run that the reconciliation asked for is still waiting: the old
   * date had made the schedule due at 150, and the edit of 200 moved it out of the grace window.
   */
  lemma StalePollStrandsPending(calendar: Calendar, task: Task)
    ensures var stored := Reconciled(calendar, Definition(task, DefinedDate(100), false), None, 0);
      var edited := Reconciled(calendar, Definition(task, DefinedDate(0), true), Some(stored), 200);
      && Shortlisted(stored.schedule, 150)
      && edited.schedule.pendingFor == Some(200)
      && Enqueue(calendar, edited, 1, 150, 100).Committed?
      && Enqueue(calendar, edited, 1, 150, 100).after.schedule.status == ScheduleStatus.Completed
      && Enqueue(calendar, edited, 1, 150, 100).after.schedule.pendingFor == Some(200)
  {
    var stored := Reconciled(calendar, Definition(task, DefinedDate(100), false), None, 0);
    var edited := Reconciled(calendar, Definition(task, DefinedDate(0), true), Some(stored), 200);
    var advance := Advanced(calendar, Date(0), 0, 150, 100);
    assert advance == PollAdvance(calendar, edited.schedule, 150, 100);
    assert advance.latestDue.None?;
  }
}
