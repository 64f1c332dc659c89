# Verified model of scheduling, multiplexing, load order and backup keys

This project models the parts of the server whose correctness rests on interleaving or on
arithmetic, and proves what they promise. `dafny verify dfyconfig.toml` checks all of it.

## What is modelled

**Scheduling** (`Triggers`, `ScheduleAggregate`, `ScheduleInvariant`, `SchedulingEffects`,
`SchedulingProtocol`, `SchedulingRuns`, `SchedulingTheorems`, `SchedulingOutcomes`, `SchedulingFences`, `SchedulingGenerations`,
`SchedulingPolls`, `SchedulingWaiting`, `Reconciliation`, `SchedulingStore`). Schedules and their executions are rows of a
database that scheduler threads, workers, users and reconciliation change concurrently. The model is a transition system with one
atomic step per transaction: ticks of the clock, provider switches, polls, claims, renewals,
completions, failures, starts of task code, dispatch recovery and marking, cancellation, purging,
the user commands and synchronization, in any order and with any arguments, so that crashes, repeated
calls and late calls are runs like any other. One inductive invariant is kept by every step; the
theorems are about all reachable states or all runs. `SchedulingStore.Store` writes the
same transactions as statements over a shared store and is proved against the steps.

- An execution identifier is a digest of its schedule and microsecond, so the pair stands for it,
  and one map of rows per schedule stands for the primary key and the unique occurrence constraint.
  A breach of that constraint rolls the transaction back.
- Time is in whole microseconds and does not go back. Polls and cancellations may use a clock read
  earlier.
- Workers may claim under one owner again and again, as those of the local provider do
  (`src/include/providers/scheduling/local.py:190`). Each claim has a serial number that only the
  proofs see. What an old claim can then do is stated exactly (`SupersededAcceptedExactly`), and a
  worker that is done with one claim before the next is fenced (`LatestClaimIsFenced`,
  `WorkerUsesLatest`). A heartbeat that outlives its claim is a late renewal like any other.
- A cron expression is any function from an instant to a first fire time that satisfies the two laws of
  `Lawful`; interval and date triggers are defined outright and shown to satisfy them.

**Multiplexing** (`FrameCodec`, `OutboundQueue`, `InboundRouting`, `Multiplexer`,
`StreamRouting`, `ConnectionClosing`, `ConnectionObject`). Senders, the writer thread, the receive loop, readers and `close`
interleave with one step per lock region or queue operation. Frames are numbered in the order in which they were
queued, streams in the order in which they were made, and logs that the program does not keep record
what was written, routed, accepted and answered. `ConnectionObject.MultiplexedConnection` is the
object with its fields and loops; between turns its state is one that the interleaved system reaches.

**Extension load order** (`LoadOrder`): validation of a selection, the stable sort, and the
depth-first cycle search.

**Backups** (`Numerals`, `BackupKey`, `BackupKeyText`, `NodeRestore`): the base-31 form of a backup key, and the restore
of the folder hierarchy.

`Options` and `Counting` hold the option type and facts about sizes that several modules share.

## Where the code differs from what one might expect

Each of these has a lemma with a concrete case, beside the statement that does hold.

- The delivery state "ready" does not imply that a claim succeeds: crashed work of a deleted schedule
  reads as ready (`ReadyButDeleted`, `ClaimSucceedsExactly`).
- A poll with a clock older than a reconciliation can complete a dated system schedule whose immediate
  run is still waiting (`StalePollStrandsPending`, `FinishedByPoll`), or start an earlier occurrence
  and forget the immediate run (`StalePollDropsPending`, `WaitingStep`).
- A dated system definition that stays registered after it ran is reactivated by each synchronization,
  and polls within the grace window are then rolled back (`DatedDefinitionNeverSettles`). Such a poll
  ends there, so due schedules that sort after it stay unpolled for that long (`RaisingPollStarves`).
- Completion, failure and renewal compare the owner but not the attempt, so a superseded claim is
  accepted when a later claim of the same owner holds the execution (`OwnerReuseDefeatsFence`,
  `SupersededAcceptedExactly`).
- A renewal sets the end of the lease from its own length, so renewing for less ends it earlier
  (`ShortRenewalCutsLease`, `LeaseLasts`).
- A poll does not compare generations: a scheduler of an earlier one can start an execution that no
  worker of the generation in force can take (`StalePollStrandsWork`, `WorkStaysCurrentExactly`).
- A blocking send may raise although its frame was written, once the connection has become unavailable
  (`RaisedThoughWritten`, `WrittenMayRaiseExactly`).
- The frames of one peer stream are split among several stream objects as soon as a process frame for
  its id arrives after either side has concluded it. One late frame after the local conclusion is
  enough (`LateFrameSplitsStream`, `IdIsSplitExactly`), and the conclusion of a stream whose id is
  routed to another one takes that route (`LateConclusionSplitsStream`, `ForeignConclusionExactly`).
- Any frame for a server-opened stream that this side has concluded closes the whole connection
  (`AnswerClosesConnection`, `ProtocolErrorExactly`).
- A folder row with an explicit null parent is checked as a child of the root but inserted without a
  parent (`ExplicitNullLosesParent`, `LegacyParentKeptExactly`).

## Model

| member | source | states |
|---|---|---|
| `Triggers.IntervalLawful` | src/include/scheduling/triggers.py:66-82 | An interval trigger, start plus whole periods, obeys the laws that the fast path relies on: asking for the first fire time at or after an instant is monotonic, and constant up to the answer. |
| `Triggers.IntervalFiresOnGrid` | src/include/scheduling/triggers.py:80-82 | The fire times of an interval are exactly its start plus whole numbers of periods. |
| `Triggers.IntervalSuccessor` | src/include/scheduling/triggers.py:66-82 | After a fire time of an interval the first one is exactly one period later, so stepping from a previous fire agrees with searching. |
| `Triggers.EveryTriggerLawful` | src/include/scheduling/triggers.py:42-89 | All three trigger kinds obey the laws, given a lawful meaning of cron expressions. |
| `Triggers.FirstRunAt` | src/include/scheduling/triggers.py:92-96 | A first run is a fire time of its trigger, never in the past for a recurring one, and exists for every interval. |
| `Triggers.NextFireIsSuccessor` | src/include/scheduling/triggers.py:139 | Stepping on from a due fire time reaches the least fire time after it, for every trigger kind. |
| `Triggers.LastFire` | src/include/scheduling/triggers.py:151-155 | Reference: the greatest fire time of a window, with no fire time of the window after it. |
| `Triggers.DatetimeWindowFitsHalvings` | src/include/scheduling/triggers.py:124-126 | The widest window of representable datetimes is closed by 64 halvings. |
| `Triggers.SearchLatest` | src/include/scheduling/triggers.py:121-137 | The 64 halvings end at the last fire time of the window, with none from there to now, for every lawful recurring trigger. |
| `Triggers.AdvanceRecurring` | src/include/scheduling/triggers.py:99-143 | The fast path returns the greatest fire time in [now - grace, now] not before the current one, and the least fire time after now, for every lawful recurring trigger. |
| `Triggers.AdvanceByWalking` | src/include/scheduling/triggers.py:164-192 | The linear walk returns the same pair, and raises exactly when the grace window holds more than 100,000 fire times. |
| `Triggers.AdvanceTrigger` | src/include/scheduling/triggers.py:146-192 | Both paths meet the one reference, and the shipped trigger kinds never raise. |
| `Triggers.FirstFireIsLeast` | src/include/scheduling/triggers.py:121-123 | The first fire time at or after an instant is the least of all fire times there. |
| `ScheduleInvariant.EnqueueSound` | src/include/scheduling/engine.py:207-274 | A poll with a clock that may be stale keeps the whole invariant, and never breaches the unique occurrence constraint of a user-managed schedule. |
| `ScheduleInvariant.PollOccurrenceFresh` | src/include/scheduling/engine.py:258-272 | The occurrence a poll records for a user-managed schedule is not stored yet; for a recurring trigger it is later than every stored one. |
| `ScheduleInvariant.ClaimSound` | src/include/scheduling/claims.py:64-129 | Claiming keeps the invariant. |
| `ScheduleInvariant.RefreshSound` | src/include/scheduling/claims.py:284-321 | Renewing a lease keeps the invariant. |
| `ScheduleInvariant.ReleaseSound` | src/include/scheduling/outcomes.py:107-123 | Releasing the slot of a finished execution restores the invariant, and promotes the waiting occurrence without a breach for user-managed schedules. |
| `ScheduleInvariant.CompleteSound` | src/include/scheduling/outcomes.py:126-173 | Completion keeps the invariant and never breaches the occurrence constraint of a user-managed schedule. |
| `ScheduleInvariant.FailSound` | src/include/scheduling/outcomes.py:176-242 | Failure, with or without a retry, keeps the invariant and never breaches that constraint. |
| `ScheduleInvariant.CancelExpiredSound` | src/include/scheduling/outcomes.py:43-72 | Cancelling crashed work of a deleted schedule keeps the invariant. |
| `ScheduleInvariant.PurgeSound` | src/include/scheduling/outcomes.py:76-104 | Deleting old terminal rows keeps the invariant, whichever rows are chosen. |
| `ScheduleInvariant.RequeueSound` | src/include/scheduling/claims.py:201-235 | Both recovery updates of cluster dispatch keep the invariant. |
| `ScheduleInvariant.MarkDispatchedSound` | src/include/scheduling/claims.py:252-281 | Marking a delivery keeps the invariant. |
| `ScheduleInvariant.RegenerateSound` | src/include/scheduling/engine.py:111-131 | The reset of a provider switch keeps the invariant. |
| `ScheduleInvariant.RetireSound` | src/include/scheduling/commands.py:236-249 | Retiring a schedule keeps the invariant; only a running execution keeps its slot. |
| `ScheduleInvariant.CreatedSound` | src/include/scheduling/commands.py:61-77 | A created schedule satisfies the invariant. |
| `ScheduleInvariant.UpdateSound` | src/include/scheduling/commands.py:95-165 | An edit keeps the invariant: the recorded occurrence check and the quiescence check are what it needs. |
| `ScheduleInvariant.ReconciledSound` | src/include/scheduling/reconciliation.py:147-207 | Creating or changing a system schedule keeps the invariant, also while its slot is busy. |
| `ScheduleInvariant.OrphanedSound` | src/include/scheduling/reconciliation.py:123-145 | Retiring an unwanted system schedule keeps the invariant. |
| `SchedulingEffects.PollRefusedExactly` | src/include/scheduling/engine.py:209-227 | A poll does nothing exactly if the schedule is off, not active, or has neither its next nor its waiting run due. |
| `SchedulingEffects.PollWrites` | src/include/scheduling/engine.py:243-273 | What a poll starts is a pending, unsent execution with the task of the schedule, the generation and the clock of the poll; it completes the schedule exactly if slot and next run are empty afterwards. |
| `SchedulingEffects.WaitingStarts` | src/include/scheduling/engine.py:218-273 | A due waiting occurrence of an enabled, active schedule with a free slot is listed, and any poll starts it or a later one, or raises exactly if what it picks is stored. |
| `SchedulingEffects.ClaimEffect` | src/include/scheduling/claims.py:74-129 | Exactly when a claim commits, and every column it writes: running, the next attempt, the owner, a lease until now plus its length. |
| `SchedulingEffects.ClaimLeases` | src/include/scheduling/claims.py:108-112 | The lease of a claim is live from its instant for exactly its length. |
| `SchedulingEffects.RefreshEffect` | src/include/scheduling/claims.py:284-321 | A renewal goes through exactly for the holder, and moves the end of its lease to now plus its length and nothing else. |
| `SchedulingEffects.DeliveryExactly` | src/include/scheduling/claims.py:164-182 | A delivery is stale, terminal, busy or ready exactly by generation, state, and unreached retry time or lease. |
| `SchedulingEffects.CompleteEffect` | src/include/scheduling/outcomes.py:126-173 | A completion is accepted exactly from the holder in its generation; the row has then succeeded at that time, its slot is free or holds what waited, and no other stored row has changed. It raises exactly if what waited is stored. |
| `SchedulingEffects.FailEffect` | src/include/scheduling/outcomes.py:176-242 | A failure is accepted exactly from the holder; it is retried exactly if the attempt of the claim is below the limit and the schedule is not deleted, after the backoff from now and unsent; otherwise the row has failed now and the slot is freed. |
| `SchedulingEffects.BackoffDoubles` | src/include/scheduling/outcomes.py:204-208 | The first retry waits the initial backoff, each further one twice the one before, up to the maximum. |
| `SchedulingEffects.CancelEffect` | src/include/scheduling/outcomes.py:43-72 | Cancellation goes through exactly for an expired running row of a deleted schedule, and writes its end and frees its slot. |
| `SchedulingEffects.MarkEffect` | src/include/scheduling/claims.py:252-281 | A mark goes through exactly for the named attempt of an unsent, unstarted row in the generation, and writes only the dispatch columns. |
| `SchedulingEffects.MarkedIsNotListed` | src/include/scheduling/claims.py:201-249 | A marked row is listed again exactly by a recovery past its timeout and its retry time. |
| `SchedulingEffects.RequeueEffect` | src/include/scheduling/claims.py:201-231 | Recovery withdraws overdue marks, makes crashed work of living schedules pending, and changes no other row. |
| `SchedulingEffects.RegenerateEffect` | src/include/scheduling/engine.py:111-131 | A switch makes exactly the open rows of living schedules pending, unsent and unleased in the new generation. |
| `SchedulingEffects.PurgeEffect` | src/include/scheduling/outcomes.py:76-104 | A row is purged exactly if it was chosen, has ended, and ended before the cutoff. |
| `SchedulingEffects.CreateEffect` | src/include/scheduling/commands.py:61-77 | A created schedule has the given columns, is active and idle, and its next run is its date or the least fire time from now on. |
| `SchedulingEffects.UpdateEffect` | src/include/scheduling/commands.py:95-165 | An edit goes through exactly for an idle living user schedule at its revision whose new first run is not recorded; it writes the given columns, drops what waited, and keeps the history. |
| `SchedulingEffects.DeleteEffect` | src/include/scheduling/commands.py:168-249 | A deletion goes through exactly for a living user schedule at its revision; unstarted work ends cancelled now, running work keeps its slot. |
| `SchedulingEffects.OrphanEffect` | src/include/scheduling/reconciliation.py:123-145 | An unwanted system schedule is retired in the same way, once. |
| `SchedulingEffects.ReconcileEffect` | src/include/scheduling/reconciliation.py:25-79 | A definition changes nothing exactly if its row is enabled, active and has its task and trigger; otherwise the row gets them, the first run of the trigger, and a run waiting for now exactly if the definition asks for one, new rows included. |
| `SchedulingEffects.ImmediateRunStarts` | src/include/scheduling/reconciliation.py:68 | A run asked for at once is started, or a later one is, by any poll from then on that finds the slot free; the poll raises exactly if what it picks is stored. |
| `SchedulingOutcomes.OutcomesExactly` | src/include/scheduling/outcomes.py:146-242 | In every step a row becomes succeeded exactly by a completion that its holder calls, failed exactly by a failure of its holder without attempts left or on a deleted schedule, and waits for a retry exactly after a failure with attempts left. |
| `SchedulingOutcomes.UsersAreNeverTurnedAway` | src/include/scheduling/outcomes.py:118-121 | In every reachable state an outcome that the holder calls on a user-managed schedule is stored. |
| `SchedulingOutcomes.RecordedExactly` | src/include/scheduling/engine.py:243-272 | In every step an execution is recorded exactly by a poll that finds the slot free and for which it is the latest eligible occurrence, or by the end of the execution behind which it waited. |
| `SchedulingOutcomes.SucceededWasCompleted` | src/include/scheduling/outcomes.py:146-160 | Over any run a succeeded execution was completed by its holder, at its completion time and in its last attempt. |
| `SchedulingOutcomes.FailedWasExhausted` | src/include/scheduling/outcomes.py:196 | Over any run an execution of a living schedule has failed only by a claim whose attempt had reached the limit. |
| `SchedulingOutcomes.ClaimIsLeased` | src/include/scheduling/claims.py:98-115 | A committed claim leaves its execution leased until its whole length has passed, and not longer. |
| `SchedulingOutcomes.LeaseLasts` | src/include/scheduling/claims.py:74-116 | Over any run after a claim the lease stands until its length has passed, unless its own owner ended the work or renewed for less. |
| `SchedulingOutcomes.LeaseShutsOut` | src/include/scheduling/claims.py:88-102 | While a lease stands no other claim of the execution is issued and no provider switch goes through. |
| `SchedulingOutcomes.ShortRenewalCutsLease` | src/include/scheduling/claims.py:311-320 | A renewal for less does cut the lease short: a concrete case. |
| `SchedulingProtocol.StepKeepsSound` | src/include/scheduling/engine.py:65-274 | Every transaction of the protocol, with any arguments, keeps the invariant of every schedule and the bound on generations. |
| `SchedulingRuns.StepMoves` | src/include/scheduling/claims.py:64-321 | Every step changes every execution row only by the rule of its cause: claiming, renewing, ending, switching, or upkeep; terminal rows never change. Owners may be used again. |
| `SchedulingRuns.StepKeepsWorldSound` | src/include/scheduling/outcomes.py:126-242 | Every step keeps the invariant together with the history: one claim per attempt in order, the last one owning any lease, and starts within the gate. |
| `SchedulingRuns.RunKeepsWorldSound` | src/include/scheduling/engine.py:164-274 | The invariant holds in every state of every interleaved run, whatever owners workers claim under. |
| `SchedulingTheorems.SlotNamesTheOpenExecution` | src/include/database/models/scheduling.py:26-163 | In every reachable state the slot is set to an occurrence exactly when that execution is open, it is then the only open one, an accepted completion always finds the slot naming it, and purge never removes it. |
| `SchedulingTheorems.OccurrencesIncrease` | src/include/scheduling/engine.py:207-273 | Over any run, of two occurrences that a user-managed schedule records with no edit of it between, the one recorded later is later, also past purged history; a dated schedule never records a second one. |
| `SchedulingTheorems.UserSchedulesNeverAbort` | src/include/scheduling/outcomes.py:118-121 | In every reachable state no transaction on a user-managed schedule breaches the unique occurrence constraint. |
| `SchedulingTheorems.TerminalIsFinal` | src/include/scheduling/outcomes.py:138-173 | Over any run a terminal execution stays as it is for as long as it is stored: at most one terminal outcome. |
| `SchedulingTheorems.SupersededForever` | src/include/scheduling/outcomes.py:191-242 | A claim that lost its execution never holds it again in the rest of the run. |
| `SchedulingTheorems.SupersededAcceptedExactly` | src/include/scheduling/outcomes.py:146-153 | A superseded claim is accepted exactly when the execution runs under a later claim of the same owner, for completion and failure in the named generation; otherwise it changes nothing. |
| `SchedulingTheorems.LatestClaimIsFenced` | src/include/scheduling/outcomes.py:138-173 | A superseded claim that is the latest of its owner can complete, fail or renew nothing. |
| `SchedulingTheorems.WorkerUsesLatest` | src/include/providers/scheduling/local.py:190-193 | A claim is the latest of its owner until that owner claims again, so a worker loop that finishes with one claim before the next uses latest claims only. |
| `SchedulingTheorems.OwnerReuseDefeatsFence` | src/include/scheduling/outcomes.py:146-153 | The exception happens: a dated schedule is created, polled and claimed twice under one owner, and what the first claim passes completes the second attempt. |
| `SchedulingTheorems.OneOpenExecution` | src/include/scheduling/engine.py:243-253 | At most one execution of a schedule is open. |
| `SchedulingTheorems.LeaseExclusion` | src/include/scheduling/claims.py:74-116 | While a lease is live no other execution of its schedule is open, and any step leaves it with its owner and attempt, except a completion or failure under its own owner. |
| `SchedulingTheorems.LeaseEndsByItsOwnClaim` | src/include/scheduling/claims.py:74-116 | If workers use only the latest claim of their owner, a live lease stays with its claim in every step but that claim's own completion or failure. |
| `SchedulingTheorems.ClaimSucceedsExactly` | src/include/scheduling/claims.py:132-182 | A claim by identifier succeeds exactly when the delivery state is ready and the schedule is not deleted. |
| `SchedulingTheorems.ReadyButDeleted` | src/include/scheduling/claims.py:164-182 | The deletion clause is needed: creating, polling, claiming and deleting a schedule leads to crashed work whose delivery state is ready and whose claim is refused. |
| `SchedulingTheorems.NoLostWork` | src/include/scheduling/claims.py:64-129 | In every reachable state an open execution of a living schedule can be claimed in its generation at any time past its retry time and lease. |
| `SchedulingTheorems.RecoveredForDispatch` | src/include/scheduling/claims.py:201-249 | Past the dispatch timeout too, recovery makes the same work eligible for the dispatch list; `PendingDispatches` shows it listed. |
| `SchedulingTheorems.ListedIsClaimable` | src/include/scheduling/claims.py:233-249 | Dispatch lists only work whose claim would succeed, so never work of a deleted schedule, although its query does not test for deletion. |
| `SchedulingFences.GenerationFence` | src/include/scheduling/engine.py:111-132 | Over any run after a switch, no earlier claim ever holds an execution of the new or a later generation; whatever generation it passes, it renews, completes and fails none, except one that a later claim of the same owner holds. |
| `SchedulingFences.SwitchOutcome` | src/include/scheduling/engine.py:65-132 | The first provider opens generation 1; a switch to another one goes through exactly when no running row has a lease that ends later than now, and then resets every schedule for the next generation. |
| `SchedulingGenerations.WorkStaysCurrentExactly` | src/include/scheduling/engine.py:164-273 | Open work of living schedules stays in the generation in force in every step exactly except a poll under another generation that starts an execution, and a synchronization that revives a schedule with older open work. |
| `SchedulingGenerations.StalePollStrandsWork` | src/include/scheduling/engine.py:164-273 | What a poll of an earlier generation starts, no claim of the generation in force can take: a concrete case. |
| `SchedulingGenerations.SwitchMakesCurrent` | src/include/scheduling/engine.py:111-131 | The next switch brings all open work of living schedules into its generation. |
| `SchedulingFences.DeletedIsQuiet` | src/include/scheduling/commands.py:236-249 | In every reachable state a deleted schedule has no next and no waiting run, only a running open execution, nothing to dispatch and nothing to claim. |
| `SchedulingFences.DeletionLasts` | src/include/scheduling/outcomes.py:196 | Over any run, until reconciliation wants it again, a deleted schedule gains no execution, no attempt and no retry. |
| `SchedulingFences.BoundedAttempts` | src/include/scheduling/runner.py:44-53 | In every reachable state, after any crashes, task code was started at most max_attempts times for a stored execution, each time with its own attempt in 1..max_attempts; owners may repeat. |
| `SchedulingFences.BackoffBounded` | src/include/scheduling/outcomes.py:197-217 | Every retry delay lies between the initial and the maximum backoff and does not shrink as attempts grow. |
| `SchedulingPolls.PollPicksLatest` | src/include/scheduling/engine.py:222-243 | A poll picks the greatest eligible occurrence, waiting or within grace, and none exactly when none is eligible. |
| `SchedulingPolls.PollEffect` | src/include/scheduling/engine.py:243-273 | A committed poll leaves next_run_at empty or after its clock, and the picked occurrence as the active execution or the waiting one; nothing else changes. |
| `SchedulingPolls.NextRunIsFirst` | src/include/scheduling/engine.py:229-236 | No fire time is skipped: the stored next run is not after any later fire time. |
| `SchedulingPolls.PollIdempotent` | src/include/scheduling/engine.py:207-273 | A second poll of the schedule at the same instant changes nothing. |
| `SchedulingPolls.PolledIsNotListed` | src/include/scheduling/engine.py:180-205 | A polled schedule leaves the shortlist for that instant, unless its transaction raised. |
| `SchedulingPolls.UnlistedUnchanged` | src/include/scheduling/engine.py:180-205 | The advisory shortlist misses nothing: polling any other schedule would change nothing. |
| `SchedulingPolls.FinishedByPoll` | src/include/scheduling/engine.py:243-247 | A poll completes a schedule only with slot and next run empty; an occurrence is left waiting exactly if the clock of the poll precedes it, which only a dated system schedule allows. |
| `SchedulingPolls.FinishedByRelease` | src/include/scheduling/outcomes.py:115-123 | A completion or failure ends its schedule exactly when nothing waits and nothing is next. |
| `SchedulingPolls.StalePollStrandsPending` | src/include/scheduling/engine.py:243-247 | A poll that read its clock before the edit of a dated definition can complete the schedule although the immediate run of the edit still waits: a concrete case on a schedule that was due when the clock was read. |
| `SchedulingWaiting.WaitingStep` | src/include/scheduling/engine.py:248-273 | In every step a waiting occurrence goes on waiting, gives way to a later one, or is started, unless its schedule is edited, deleted or reconciled; it is dropped exactly by a poll whose clock precedes it and which finds an earlier occurrence to record. |
| `SchedulingWaiting.WaitingLasts` | src/include/scheduling/outcomes.py:115-121 | Over any run a waiting occurrence, or a later one in its place, waits until one as late is started, the schedule is edited, deleted or reconciled, or such a poll drops it. |
| `SchedulingWaiting.OnlyDatedSystemDrops` | src/include/scheduling/engine.py:214-242 | Only a dated system schedule can lose a waiting occurrence to a poll. |
| `SchedulingWaiting.StalePollDropsPending` | src/include/scheduling/engine.py:258-265 | This happens: an edited dated definition asks for an immediate run, and a poll with an earlier clock starts the new date and forgets that run. |
| `Reconciliation.SyncEstablishes` | src/include/scheduling/reconciliation.py:113-208 | A synchronization that is not refused stores every definition as wanted and retires every other system schedule. |
| `Reconciliation.UnchangedExactlyInSync` | src/include/scheduling/reconciliation.py:72-79 | A synchronization changes nothing exactly when the store is already in that state. |
| `Reconciliation.SyncIdempotent` | src/include/scheduling/reconciliation.py:82-208 | Repeating a synchronization, at once or later, changes nothing. |
| `Reconciliation.RunKeepsInSync` | src/include/scheduling/reconciliation.py:38-79 | For interval definitions, and cron definitions that never run out, this still holds after any run of engine, worker and user steps in between. |
| `Reconciliation.AnchorNeverMoves` | src/include/scheduling/reconciliation.py:38-49 | A generated interval anchor never moves over any run, through period changes, retirement and return, while the type stays interval. |
| `Reconciliation.DatedDefinitionNeverSettles` | src/include/scheduling/reconciliation.py:196-207 | A completed dated definition is reactivated by every synchronization; polls are then rolled back exactly from its date to the end of the grace window, the first one after it completes the schedule without a new execution, and the next synchronization reactivates it again. |
| `Reconciliation.DatedDefinitionCompletes` | src/include/scheduling/reconciliation.py:196-207 | A concrete run that reaches this state. |
| `SchedulingStore.Store.EnsureRuntimeState` | src/include/scheduling/engine.py:65-132 | The new state is the protocol step; it returns a generation exactly unless a live lease forbids the switch. |
| `SchedulingStore.Store.PollOne` | src/include/scheduling/engine.py:209-273 | One candidate rechecked in its own transaction takes exactly the protocol step and reports whether it was refused, raised or committed. |
| `SchedulingStore.Store.DueShortlist` | src/include/scheduling/engine.py:178-205 | The shortlist holds distinct due schedules, as many as the batch allows, ordered by waiting and then by next run, wherever the database puts empty columns. |
| `SchedulingStore.Store.EnqueueDueSchedules` | src/include/scheduling/engine.py:164-274 | A poll is one transaction for each listed schedule in order, up to exactly the first whose own transaction raises; that schedule and all listed after it stay as they were and due. |
| `SchedulingStore.RaisingPollStarves` | src/include/scheduling/engine.py:192-273 | While the transaction of one due schedule raises, polls leave every due schedule alone that has nothing waiting and a later next run, whatever the batch size. |
| `SchedulingStore.WaitingOrdersFirst` | src/include/scheduling/engine.py:192-196 | The shortlist is ordered by the waiting run first, with empty ones at the end that the database chooses. |
| `SchedulingStore.NothingDueAfterPoll` | src/include/scheduling/engine.py:164-274 | A poll whose batch covers all due schedules and raises nowhere leaves nothing due at its instant. |
| `SchedulingStore.PollAllPerSchedule` | src/include/scheduling/engine.py:207-208 | In such a poll each listed schedule gets exactly its own transaction and every other schedule stays as it was. |
| `SchedulingStore.SelectBatch` | src/include/scheduling/claims.py:24-50 | A bounded ordered query returns distinct rows in order, none of those left out before any of those returned, and as many as the limit allows. |
| `SchedulingStore.Store.OldestRunnable` | src/include/scheduling/claims.py:24-50 | The candidate query finds a runnable execution exactly when one exists, and none created earlier. |
| `SchedulingStore.RunnableExactly` | src/include/scheduling/claims.py:24-50 | In a sound store the candidate query selects exactly what a claim would get. |
| `SchedulingStore.Store.ClaimLocked` | src/include/scheduling/claims.py:64-129 | The recheck under lock takes the protocol step; a returned claim carries the attempt, task and owner of the row it leased. |
| `SchedulingStore.Store.ClaimExecution` | src/include/scheduling/claims.py:16-61 | In a sound store a claim is returned exactly when something is runnable, and it is the oldest. |
| `SchedulingStore.Store.RefreshExecutionLease` | src/include/scheduling/claims.py:284-321 | Renewal takes the protocol step and reports whether it happened. |
| `SchedulingStore.Store.MarkDispatchedExecution` | src/include/scheduling/claims.py:252-281 | Marking takes the protocol step and reports whether it happened. |
| `SchedulingStore.Store.ListDispatches` | src/include/scheduling/claims.py:233-249 | The dispatch list is the oldest eligible work, complete when it is shorter than its limit. |
| `SchedulingStore.CancelAllExactly` | src/include/scheduling/outcomes.py:42-72 | Each candidate of a batch ends cancelled and out of its schedule's slot; every other row and every living schedule stays as it was. |
| `SchedulingStore.CrashedExactly` | src/include/scheduling/outcomes.py:24-62 | The candidate query of the cancellation selects exactly what its locked recheck cancels. |
| `SchedulingStore.RecoveryListsExactly` | src/include/scheduling/claims.py:199-249 | Cancellation and both recovery updates make exactly these rows eligible for the list: unstarted work past its retry time that is unsent or timed out, and crashed work of living schedules. |
| `SchedulingStore.DueForDeliveryExactly` | src/include/scheduling/claims.py:201-249 | In every reachable state these rows are exactly the open, unblocked work of living schedules that is running, unsent, or past its dispatch timeout. |
| `SchedulingStore.Store.PendingDispatches` | src/include/scheduling/claims.py:185-249 | Recovery cancels crashed deleted work, resets undelivered and crashed work, then lists the oldest rows due for delivery; a list shorter than its limit holds exactly the rows that were due for delivery before the call. |
| `SchedulingStore.Store.ReleaseSlot` | src/include/scheduling/outcomes.py:107-123 | Freeing the slot and promoting the waiting occurrence, or a constraint breach. |
| `SchedulingStore.Store.CompleteExecution` | src/include/scheduling/outcomes.py:126-173 | Completion takes the protocol step; a breach rolls everything back. |
| `SchedulingStore.Store.FailExecution` | src/include/scheduling/outcomes.py:176-242 | Failure takes the protocol step with the retry decided by the attempt of the claim and the state of the schedule. |
| `SchedulingStore.Store.CancelOne` | src/include/scheduling/outcomes.py:43-72 | One candidate rechecked under its schedule lock. |
| `SchedulingStore.Store.SelectCrashed` | src/include/scheduling/outcomes.py:24-40 | The crashed executions of deleted schedules whose leases ended first, all of them when fewer than the batch. |
| `SchedulingStore.Store.CancelExpiredDeletedExecutions` | src/include/scheduling/outcomes.py:16-73 | One bounded batch of crashed executions of deleted schedules, those whose leases ended first; each ends cancelled and out of its slot, and no other row changes. |
| `SchedulingStore.Store.SelectPurgeable` | src/include/scheduling/outcomes.py:84-95 | The oldest terminal rows past the cutoff, as many as the batch allows. |
| `SchedulingStore.Store.PurgeExecutionHistory` | src/include/scheduling/outcomes.py:76-104 | Exactly these rows disappear, and every other row is untouched. |
| `SchedulingStore.Store.RunClaimedExecution` | src/include/scheduling/runner.py:29-128 | Task code runs exactly if the contract matches and the attempt is at most the limit; a completion is stored on success, a failure otherwise, also when storing the completion raised; the result is that of the stored outcome. |
| `SchedulingStore.Store.CreateUserSchedule` | src/include/scheduling/commands.py:37-77 | Accepted exactly for a registered user-schedulable task; the new schedule and nothing else appears. |
| `SchedulingStore.Store.UpdateUserSchedule` | src/include/scheduling/commands.py:80-165 | Accepted exactly for a quiescent user schedule at the expected revision with an unrecorded next occurrence; the new row is the protocol step. |
| `SchedulingStore.Store.CancelUnstartedExecution` | src/include/scheduling/commands.py:168-212 | Unstarted work is cancelled and frees the slot, running work keeps it. |
| `SchedulingStore.Store.DeleteUserSchedule` | src/include/scheduling/commands.py:215-249 | Accepted exactly for a living user schedule at the expected revision. |
| `SchedulingStore.Store.RetireOrphans` | src/include/scheduling/reconciliation.py:116-145 | Exactly the unwanted system schedules are retired, and counted. |
| `SchedulingStore.Store.ReconcileOne` | src/include/scheduling/reconciliation.py:154-207 | One definition against its row: written exactly when the row differs. |
| `SchedulingStore.Store.ReconcileAll` | src/include/scheduling/reconciliation.py:147-207 | Every definition is written as wanted and the written ones are counted, or refused exactly when an identifier is user managed. |
| `SchedulingStore.Store.SynchronizeSystemSchedules` | src/include/scheduling/reconciliation.py:82-208 | The whole synchronization is the protocol step; it returns the number of schedules that are new or different. |
| `FrameCodec.DecodeEncode` | src/include/transport/multiplexing.py:94-123 | Decoding an encoded frame gives the frame back. |
| `FrameCodec.EncodeDecode` | src/include/transport/multiplexing.py:103-123 | An accepted message is the encoding of the frame it decodes to. |
| `FrameCodec.EncodedLayout` | src/include/transport/multiplexing.py:94-100 | The bytes of a frame: the id in four bytes from the most significant on, 0 or 1 for the type, then the data. |
| `FrameCodec.DecodeRefusedExactly` | src/include/transport/multiplexing.py:103-117 | A message is refused exactly if it is shorter than the header or its type byte is neither 0 nor 1. |
| `FrameCodec.EncodeFrame` | src/include/transport/multiplexing.py:94-100 | The buffer filled by header and payload is the encoding of the frame. |
| `OutboundQueue.StepKeepsSound` | src/include/transport/multiplexing.py:321-480 | Every lock region of senders, writer and closer keeps the invariant of the sending half. |
| `OutboundQueue.Conservation` | src/include/transport/multiplexing.py:321-453 | In every reachable state each queued frame is exactly one of waiting, in the writer's hand, written or failed, and it waits or is written at most once. |
| `OutboundQueue.WritesFollowQueueOrder` | src/include/transport/multiplexing.py:414-436 | Of two frames on the wire the one queued first was written first. |
| `OutboundQueue.AnswersAreExact` | src/include/transport/multiplexing.py:347-354 | A blocking send that returned was written; while the connection runs it returned exactly if its frame was written and raised exactly if it failed. |
| `OutboundQueue.WrittenMayRaiseExactly` | src/include/transport/multiplexing.py:387-394 | A waiting blocking send whose frame was written can still raise exactly when the connection has become unavailable. |
| `OutboundQueue.RaisedThoughWritten` | src/include/transport/multiplexing.py:387-394 | This happens: a concrete run. |
| `OutboundQueue.StopSignalAlwaysFits` | src/include/transport/multiplexing.py:467-472 | The queue.Full branch of close is unreachable, and the queue then holds the stop signal alone. |
| `OutboundQueue.WriterAlwaysMoves` | src/include/transport/multiplexing.py:414-439 | After the close section the writer always has a step to take until it has left: it never blocks on an empty queue. |
| `OutboundQueue.WriterComesCloser` | src/include/transport/multiplexing.py:414-439 | Each of its steps brings it closer to its exit, and no step of another thread takes it back. |
| `OutboundQueue.NothingLeftBehind` | src/include/transport/multiplexing.py:437-453 | After close and the writer's exit the queue is empty, every frame was written or failed, and every waiting sender can be answered. |
| `OutboundQueue.RunExtends` | src/include/transport/multiplexing.py:455-466 | Over any run the wire only grows, outcomes and answers are final, the first close code stays, and nothing is queued after the connection stopped. |
| `InboundRouting.StepKeepsInSound` | src/include/transport/multiplexing.py:215-319 | Every lock region of the receive loop, of local streams and of close keeps the invariant of the receiving half. |
| `Multiplexer.StepKeepsSound` | src/include/transport/multiplexing.py:169-480 | Interleaving both halves keeps both invariants. |
| `Multiplexer.SendingHalfReachable` | src/include/transport/multiplexing.py:169-480 | The sending half of any interleaved run is a run of its own, so its theorems hold under every interleaving with the receiver. |
| `Multiplexer.StreamIds` | src/include/transport/multiplexing.py:221-226 | Server-opened stream ids are even and never given twice, peer-opened ids are odd. |
| `Multiplexer.NothingLostOrReordered` | src/include/transport/multiplexing.py:146-163 | The frames consumed from a stream, then its queue, then the one frame in flight are in order the frames routed to it; nothing is in flight while the loop listens. |
| `Multiplexer.QueuesStayBounded` | src/include/transport/multiplexing.py:169-203 | Stream queues, the accept queue and the outbound queue stay within their bounds. |
| `Multiplexer.AcceptedInOrder` | src/include/transport/multiplexing.py:230-235 | Peer streams are accepted in the order of their first frames, none twice, and until close accepted followed by pending is all of them. |
| `StreamRouting.WholeExactlyIfAlone` | src/include/transport/multiplexing.py:249-271 | In every reachable state a stream is routed exactly all routed frames of its id if and only if no other stream object carries that id. |
| `StreamRouting.ServerStreamOwnsItsId` | src/include/transport/multiplexing.py:249-271 | A server-opened stream is routed exactly the routed frames that carry its id. |
| `StreamRouting.IdIsSplitExactly` | src/include/transport/multiplexing.py:249-271 | Over a whole run an id has two stream objects exactly if at some step a process frame arrived for it while it was odd and used but not routed. |
| `StreamRouting.RouteEndsExactly` | src/include/transport/multiplexing.py:307-309 | A routed id keeps its stream in any step exactly unless the peer's conclusion of that stream is reclaimed, the stream's own conclusion is sent, close clears the table, or another stream's conclusion takes the route. |
| `StreamRouting.ForeignConclusionExactly` | src/include/transport/multiplexing.py:408-410 | Where a sent conclusion takes the route of another stream object, its id has been split already. |
| `StreamRouting.LateFrameSplitsStream` | src/include/transport/multiplexing.py:408-410 | One process frame that arrives after this side's conclusion is enough to split a stream: a concrete run. |
| `StreamRouting.LateConclusionSplitsStream` | src/include/transport/multiplexing.py:408-410 | When a peer reuses an id, the local conclusion of the old stream can take the new stream's route away: a concrete run. |
| `StreamRouting.AnswerClosesConnection` | src/include/transport/multiplexing.py:250-256 | The peer's conclusion of a server-opened stream, after this side's, closes the connection: a concrete run. |
| `Multiplexer.RunGrows` | src/include/transport/multiplexing.py:146-163 | Over any run what a stream has got is only extended: no frame is taken back, altered or reordered. |
| `Multiplexer.ClosedStaysQuiet` | src/include/transport/multiplexing.py:474-477 | Once close has cleared the table no route, stream, pending stream or outgoing frame is ever added, and a stream gains at most the one frame that was then on its way to it. |
| `Multiplexer.PendingQueueOpenWhileRunning` | src/include/transport/multiplexing.py:263-271 | While the connection runs nothing has been shut down, so announcing a stream never meets a shut queue. |
| `Multiplexer.ClearShutsRouted` | src/include/transport/multiplexing.py:474-480 | Close hands exactly the routed streams, each once, to the shutdown loop. |
| `ConnectionClosing.LoopEndsExactly` | src/include/transport/multiplexing.py:239-309 | Exactly when the receive loop asks to close, and with which code: 1000 once shut, 1002 for a reserved id, 1013 for too many streams or 128 frames of one stream, or the code of an undecodable frame. |
| `ConnectionClosing.FrameLostExactly` | src/include/transport/multiplexing.py:263-300 | A frame is lost exactly in those steps that end the loop over it: a shut or full stream, or no room to announce a new one. |
| `ConnectionClosing.FirstCloseDecides` | src/include/transport/multiplexing.py:455-466 | Over any run the close code is that of the first close call, whoever makes it. |
| `ConnectionClosing.UnclosedIsNormal` | src/include/transport/multiplexing.py:209-211 | A connection that nobody has closed keeps its initial code. |
| `ConnectionClosing.PutEnabledExactly` | src/include/transport/multiplexing.py:336-380 | A frame is queued exactly while the connection is available, the send lock is free and fewer than 1024 entries wait. |
| `ConnectionClosing.StoppedWritesAtMostOne` | src/include/transport/multiplexing.py:421-424 | Over any run after the connection has stopped, nothing is written but the one frame that the writer was already passing on. |
| `ConnectionClosing.StreamsAreNumbered` | src/include/transport/multiplexing.py:221-223 | In every reachable state server streams carry 2, 4, 6 and so on in the order in which they were opened. |
| `ConnectionObject.MultiplexedConnection.constructor` | src/include/transport/multiplexing.py:170-213 | A new connection is the initial state of the interleaved system. |
| `ConnectionObject.MultiplexedConnection.OpenStream` | src/include/transport/multiplexing.py:215-228 | Opens a stream exactly when sending is available, by the step of the interleaved system. |
| `ConnectionObject.MultiplexedConnection.AcceptStream` | src/include/transport/multiplexing.py:230-235 | The oldest announced stream, or none after close. |
| `ConnectionObject.MultiplexedConnection.Recv` | src/include/transport/multiplexing.py:146-155 | The oldest queued frame moves to its reader; an empty queue is the end of the stream if it has been shut, and otherwise a timeout. |
| `ConnectionObject.MultiplexedConnection.Put` | src/include/transport/multiplexing.py:336-345 | Queues a frame of the stream exactly when sending is available and the queue has room; otherwise nothing changes. |
| `ConnectionObject.MultiplexedConnection.SendNowait` | src/include/transport/multiplexing.py:396-412 | Tells whether the frame was queued, and then a conclusion drops the route of its id. |
| `ConnectionObject.MultiplexedConnection.PollWrite` | src/include/transport/multiplexing.py:387-394 | One poll answers with the recorded outcome, gives up exactly when the connection stopped, and otherwise waits on. |
| `ConnectionObject.MultiplexedConnection.ConcludeStream` | src/include/transport/multiplexing.py:408-410 | Only after a conclusion was sent does its id leave the routing table. |
| `ConnectionObject.MultiplexedConnection.RouteFrame` | src/include/transport/multiplexing.py:246-271 | The region under the table lock, with all its branches. |
| `ConnectionObject.MultiplexedConnection.PutIncoming` | src/include/transport/multiplexing.py:290-309 | The frame joins its stream's queue, or the loop ends because the queue is shut or full. |
| `ConnectionObject.MultiplexedConnection.HandleFrame` | src/include/transport/multiplexing.py:239-309 | One turn of the receive loop reaches the state composed of its steps, with the close that it may end in. |
| `ConnectionObject.MultiplexedConnection.FailPendingSends` | src/include/transport/multiplexing.py:441-453 | Every entry is taken out and every frame among them fails. |
| `ConnectionObject.MultiplexedConnection.SignalWriter` | src/include/transport/multiplexing.py:468-472 | The stop signal is queued without waiting. |
| `ConnectionObject.MultiplexedConnection.Close` | src/include/transport/multiplexing.py:455-480 | The first call drains, signals, clears the table and shuts the streams; a later one changes nothing; the state stays reachable. |
| `ConnectionObject.ShutAllAt` | src/include/transport/multiplexing.py:479-480 | The shutdown loop shuts exactly the listed streams. |
| `ConnectionObject.MultiplexedConnection.WriteNext` | src/include/transport/multiplexing.py:414-439 | One turn of the writer: the frame is written and its sender woken, or it fails, the error is recorded, the connection closes and the writer leaves. |
| `LoadOrder.GreedyIsLeast` | src/include/extensions/manager.py:541-551 | Taking the first ready extension each time gives the lexicographically least load order by selection position. |
| `LoadOrder.OrderCoversSelection` | src/include/extensions/manager.py:541-551 | A load order is a permutation of the selection. |
| `LoadOrder.StuckMeansNoOrder` | src/include/extensions/manager.py:553-559 | A sort that stops early proves that no load order exists. |
| `LoadOrder.CycleMeansNoOrder` | src/include/extensions/manager.py:553-559 | A dependency cycle excludes every load order. |
| `LoadOrder.CycleFinder.Visit` | src/include/extensions/manager.py:465-481 | The depth-first visit ends with a genuine closed dependency cycle, or with the extension and everything below it finished. |
| `LoadOrder.FindDependencyCycle` | src/include/extensions/manager.py:457-487 | The search finds no cycle exactly if a load order exists. |
| `LoadOrder.PopFirst` | src/include/extensions/manager.py:544-545 | Sorting the ready list and taking its head removes the ready extension that stands first in the selection. |
| `LoadOrder.Resolve` | src/include/extensions/manager.py:546-551 | Decrementing the dependents keeps the open-dependency counts and the ready list exact. |
| `LoadOrder.SortExtensions` | src/include/extensions/manager.py:536-561 | The sort returns the least load order exactly if one exists, and otherwise a genuine cycle. |
| `LoadOrder.CheckRequirement` | src/include/extensions/manager.py:510-534 | A declared dependency passes exactly if it is installed, enabled and recent enough, and is otherwise refused for the first of these that fails. |
| `LoadOrder.ValidateExtension` | src/include/extensions/manager.py:500-537 | An extension passes exactly if all its requirements do, and is entered with its dependencies; the error is about itself or its first failing requirement. |
| `LoadOrder.Validate` | src/include/extensions/manager.py:490-537 | Validation passes exactly if every selected extension is acceptable, and yields the dependency graph and its reverse; the error is that of the first one that is not. |
| `LoadOrder.ResolveExtensionSelection` | src/include/extensions/manager.py:569-609 | The selection resolves exactly if it is selectable, acceptable, acyclic and suits the server, to the least load order with the built-in extension first; each error is that of the first check that fails. |
| `NodeRestore.StageSubtypeRows` | src/maintenance/backup/nodes.py:162-225 | Staging subtype rows, onto nodes or from older backups, stops exactly at the first row that does not fit. |
| `NodeRestore.LoadNodeIndex` | src/maintenance/backup/nodes.py:61-159 | Staging accepts a backup exactly if it is consistent, and yields the index with the root added. |
| `NodeRestore.StagedExactly` | src/maintenance/backup/nodes.py:61-159 | Consistent means: with node rows, distinct identifiers, and for each node exactly one subtype row of its own kind, which only a root directory may lack; without them, no identifier twice over both subtype tables. |
| `NodeRestore.AttachedExactly` | src/maintenance/backup/nodes.py:162-191 | Subtype rows attach exactly if they are distinct and each meets a node of its kind without a subtype; they then complete exactly those nodes. |
| `NodeRestore.InsertedExactly` | src/maintenance/backup/nodes.py:194-225 | Rows of older backups are inserted exactly if they are distinct and new; nothing staged before changes. |
| `NodeRestore.StagedParents` | src/maintenance/backup/nodes.py:160-191 | With node rows the staged parent of a node is the one its node row carries; else for a folder the one in parent_id and for a document the one in folder_id, or the root if that is missing or null. |
| `NodeRestore.StagedLegacyParents` | src/maintenance/backup/nodes.py:194-225 | In an older backup folders are staged under their parent_id and documents under their folder_id, or the root. |
| `NodeRestore.MissingRootAdded` | src/maintenance/backup/nodes.py:105-145 | A backup that leaves out the root gets an empty one without a parent. |
| `NodeRestore.RootedExactly` | src/maintenance/backup/nodes.py:234-250 | The directories form one tree below the root exactly if no set of them is cut off from it, such as a cycle. |
| `NodeRestore.DepthIsUnique` | src/maintenance/backup/nodes.py:234-250 | The recursive query yields each directory once. |
| `NodeRestore.RestoreFolders` | src/maintenance/backup/nodes.py:252-260 | The folder loop ends even with unreachable cycles, and inserts exactly the reachable directories, each once and after its parent. |
| `NodeRestore.CountDecides` | src/maintenance/backup/nodes.py:262-268 | Comparing the two counts decides exactly whether the hierarchy is one rooted tree. |
| `NodeRestore.RestoreIndexedNodes` | src/maintenance/backup/nodes.py:228-295 | Restore accepts exactly a rooted tree whose documents lie in directories, and then inserts every node once after its parent. |
| `NodeRestore.CarriedParentKept` | src/maintenance/backup/nodes.py:298-306 | A node row that carries a parent is inserted under the parent that the hierarchy check used. |
| `NodeRestore.LegacyParentKeptExactly` | src/maintenance/backup/nodes.py:298-306 | For a node row without one, the inserted parent is the checked one exactly if the subtype row names it in the key read first. |
| `NodeRestore.ExplicitNullLosesParent` | src/maintenance/backup/nodes.py:305 | An explicit null parent passes the hierarchy check as the root and is inserted as no parent: a concrete backup. |
| `Numerals.ValueOfDigits` | src/maintenance/backup/format.py:63-68 | The value of the fixed-length digits of a number is the number. |
| `Numerals.DigitsOfValue` | src/maintenance/backup/format.py:108-115 | The digits of the value of a digit string are that string. |
| `BackupKey.AlphabetIsLargeEnough` | src/maintenance/backup/format.py:69-70 | 256 bits fit 52 letters of a 31-letter alphabet, so the overflow branch is unreachable. |
| `BackupKey.EncodeBackupKey` | src/maintenance/backup/format.py:57-73 | The digit loop yields the grouped base-31 digits of the key, for exactly the 32-byte keys, and never overflows. |
| `BackupKey.DecodeHumanBackupKey` | src/maintenance/backup/format.py:98-121 | The decoding loop yields the value of the letters, or names the first character outside the alphabet. |
| `BackupKey.DecodeBackupKey` | src/maintenance/backup/format.py:76-95 | A text is decoded exactly if it spells 32 octets in base64url or 52 letters below 2^256; the result is a key, and for letters the one whose human form they are. |
| `BackupKey.DecodeEncoded` | src/maintenance/backup/format.py:57-121 | Decoding the human form of any 32-byte key gives the key back. |
| `BackupKey.EncodeDecoded` | src/maintenance/backup/format.py:76-121 | Encoding what was decoded from an accepted human text regroups that text. |
| `BackupKey.LongTextIsNotBase64Key` | src/maintenance/backup/format.py:80-88 | No text of 52 or more characters decodes from base64url to 32 bytes. |
| `BackupKey.HumanKeyIsNotCaptured` | src/maintenance/backup/format.py:80-95 | The base64url attempt (section 5 of RFC 4648) never captures a text that the human decoder accepts. |
| `BackupKey.AcceptedExactly` | src/maintenance/backup/format.py:76-121 | Exactly these texts are accepted, and no text is a key in both ways. |
| `BackupKeyText.OctetsOfSextets` | src/maintenance/backup/format.py:80-88 | Decoding the six-bit groups of any octets gives the octets back. |
| `BackupKeyText.DecodeBase64` | src/maintenance/backup/format.py:76-88 | The base64url form of any key, with or without padding, is decoded to the key. |
| `BackupKeyText.StripExactly` | src/maintenance/backup/format.py:77 | Stripping removes the white space at both ends, all of it and nothing else. |
| `BackupKeyText.NormalizedExactly` | src/maintenance/backup/format.py:129-130 | Separators and spaces may stand anywhere in the human form; every other character counts. |
| `BackupKeyText.GroupedAt` | src/maintenance/backup/format.py:69-73 | The human form has a separator after every fourth letter but the last. |
| `BackupKeyText.RefusedExactly` | src/maintenance/backup/format.py:76-121 | Each error of decoding has exactly its own cause. |
| `BackupKeyText.BlamedExactly` | src/maintenance/backup/format.py:110-117 | The character that is blamed is the first outside the alphabet. |

## Left out

- Sessions, dialect upserts, isolation and row locks: a transaction is one atomic step with its
  where-clauses and constraints.
- APScheduler internals, cron parsing, time zones, daylight saving and floating-point rounding: the
  first fire time at or after an instant is a function with stated laws, and the window of the binary
  search is counted in whole microseconds.
- Triggers.AdvanceRecurring: asks for instants within the range of a Python datetime and a current run
  that is a fire time, which is what the stored rows hold; outside that range the library raises.
- Columns that no transition reads: results, error texts, audit and update stamps, time zone names.
- Heartbeat timing, audit logging, and JSON and payload validation in the runner: whether task code
  succeeds is a parameter; renewals are steps that may happen at any time.
- SchedulingStore.SelectBatch: leaves the order of rows with equal keys open, where the queries break
  ties by identifier, which is a digest or generated.
- SchedulingStore.Store.RunClaimedExecution: runs task code and the persistence of its outcome in one
  call; the interleaving of other steps between them is covered by the runs of the protocol.
- Schedules restored from a backup: runs start from an empty store, and executions are not exported.
- ConnectionObject.MultiplexedConnection.Close: is one uninterrupted call here, where other threads
  may act between its regions; the interleaved steps are covered by `Multiplexer`.
- The blocking put waits in turns of 50 milliseconds under the send lock; it is modelled as attempts,
  and its optional deadline, which no caller sets, is left out.
- Stream ids are unbounded; the 32-bit limit of the header is a precondition of encoding a frame.
- Text payloads, encoded as UTF-8 before framing, and the socket itself: whether a write succeeds is
  a parameter.
- LoadOrder.CheckRequirement: compares versions as numbers, where the code compares parsed package
  versions, of which only the total order matters here.
- Importing extensions, their hooks and configuration.
- NodeRestore.RestoreIndexedNodes: leaves out name conflicts and column decoding of the target tables,
  and the order of nodes within one depth.
- BackupKey.DecodeBackupKey: white space is the set that Python strips; identifiers are sequences of
  Unicode characters, and characters outside ASCII are refused by the base64 attempt as they are there.
- Encryption, compression, archive paths and headers of backups.
- Uploads, downloads, rate limits, permissions and request handlers.
