/**
 * The sending half of a multiplexed connection: many senders, one writer thread and one
 * closer share a bounded queue. Every step is one lock region or one queue operation.
 */
module OutboundQueue {
  import opened Counting
  import opened FrameCodec

  const OUTBOUND_QUEUE_SIZE: nat := 1024

  /** A frame and the stream object that sends it. */
  datatype Message = Message(from: nat, frame: Frame)

  /** `blocking` frames carry an event; `done` is that event, `failed` the stored exception. */
  datatype Item = Item(message: Message, blocking: bool, done: bool, failed: bool)

  /** A queue entry: the `n`-th frame ever queued, or the `None` that stops the writer. */
  datatype Slot = Queued(n: nat) | Sentinel

  datatype Answer = Returned | Raised

  /** How far the first `close` call is; it holds the send lock in the two middle phases. */
  datatype Closing = NotStarted | DrainingQueue | Drained | Done

  datatype Writer =
    | Idle
    | Holding(n: nat)
    | Sending(n: nat)
    | Sent(n: nat)
    | Failing
    | CallingClose
    | Draining
    | Exited

  datatype Outbound = Outbound(
    items: seq<Item>,
    queue: seq<Slot>,
    taken: nat,
    written: seq<nat>,
    answers: map<nat, Answer>,
    running: bool,
    writerError: bool,
    closing: Closing,
    closeCode: nat,
    writer: Writer)
  {
    predicate LockFree() {
      closing.NotStarted? || closing.Done?
    }

    predicate Available() {
      running && !writerError
    }

    predicate Full() {
      |queue| >= OUTBOUND_QUEUE_SIZE
    }

    predicate InHand(n: nat) {
      (writer.Holding? || writer.Sending?) && writer.n == n
    }

    /** The frame's outcome becomes a failure and its sender is woken. */
    function FailItem(n: nat): Outbound
      requires n < |items|
    {
      this.(items := items[n := items[n].(failed := true, done := items[n].blocking)])
    }

    /** One `get_nowait` of `_fail_pending_sends`. */
    function FailHead(): Outbound
      requires queue != [] && (queue[0].Queued? ==> queue[0].n < |items|)
    {
      var rest := this.(queue := queue[1..]);
      if queue[0].Sentinel? then rest else rest.FailItem(queue[0].n).(taken := taken + 1)
    }
  }

  const OPENED := Outbound([], [], 0, [], map[], true, false, NotStarted, 1000, Idle)

  datatype OutboundStep =
    | Put(message: Message, blocking: bool)
    | SenderReturns(n: nat)
    | SenderRaises(n: nat)
    | SenderGivesUp(n: nat)
    | WriterGets
    | WriterChecks
    | WriterSends
    | WriterConfirms
    | WriterSendFails
    | WriterRecordsError
    | WriterStartsDrain
    | WriterDrains
    | WriterExits
    | BeginClose(code: nat)
    | CloseDrains
    | CloseDrained
    | CloseSignals

  predicate Indexed(o: Outbound) {
    && (forall k :: 0 <= k < |o.queue| && o.queue[k].Queued? ==> o.queue[k].n < |o.items|)
    && (o.writer.Holding? || o.writer.Sending? || o.writer.Sent? ==> o.writer.n < |o.items|)
  }

  predicate Awaits(o: Outbound, n: nat) {
    n < |o.items| && o.items[n].blocking && n !in o.answers
  }

  predicate Enabled(o: Outbound, step: OutboundStep) {
    && Indexed(o)
    && match step
       case Put(_, _) => o.LockFree() && o.Available() && !o.Full()
       case SenderReturns(n) => Awaits(o, n) && o.items[n].done && !o.items[n].failed
       case SenderRaises(n) => Awaits(o, n) && o.items[n].done && o.items[n].failed
       case SenderGivesUp(n) => Awaits(o, n) && !o.Available()
       case WriterGets => o.writer.Idle? && o.queue != []
       case WriterChecks => o.writer.Holding?
       case WriterSends => o.writer.Sending?
       case WriterConfirms => o.writer.Sent?
       case WriterSendFails => o.writer.Sending?
       case WriterRecordsError => o.writer.Failing? && o.LockFree()
       case WriterStartsDrain => o.writer.CallingClose? && o.closing.Done?
       case WriterDrains => o.writer.Draining? && o.queue != []
       case WriterExits => o.writer.Draining? && o.queue == []
       case BeginClose(_) => o.closing.NotStarted?
       case CloseDrains => o.closing.DrainingQueue? && o.queue != []
       case CloseDrained => o.closing.DrainingQueue? && o.queue == []
       case CloseSignals => o.closing.Drained?
  }

  function Apply(o: Outbound, step: OutboundStep): Outbound
    requires Enabled(o, step)
  {
    match step
    case Put(message, blocking) =>
      o.(items := o.items + [Item(message, blocking, false, false)], queue := o.queue + [Queued(|o.items|)])
    case SenderReturns(n) => o.(answers := o.answers[n := Returned])
    case SenderRaises(n) => o.(answers := o.answers[n := Raised])
    case SenderGivesUp(n) => o.(answers := o.answers[n := Raised])
    case WriterGets =>
      if o.queue[0].Sentinel? then o.(queue := o.queue[1..], writer := Draining)
      else o.(queue := o.queue[1..], taken := o.taken + 1, writer := Holding(o.queue[0].n))
    case WriterChecks =>
      if o.running then o.(writer := Sending(o.writer.n)) else o.FailItem(o.writer.n).(writer := Failing)
    case WriterSends => o.(written := o.written + [o.writer.n], writer := Sent(o.writer.n))
    case WriterConfirms =>
      var n := o.writer.n;
      o.(items := o.items[n := o.items[n].(done := o.items[n].blocking)], writer := Idle)
    case WriterSendFails => o.FailItem(o.writer.n).(writer := Failing)
    case WriterRecordsError => o.(writerError := true, running := false, writer := CallingClose)
    case WriterStartsDrain => o.(writer := Draining)
    case WriterDrains => o.FailHead()
    case WriterExits => o.(writer := Exited)
    case BeginClose(code) => o.(closing := DrainingQueue, closeCode := code, running := false)
    case CloseDrains => o.FailHead()
    case CloseDrained => o.(closing := Drained)
    case CloseSignals => o.(closing := Done, queue := if o.Full() then o.queue else o.queue + [Sentinel])
  }

  // ----- The invariant -----

  /** What the entry at position `k` must be: frames in order, then at most one stop signal. */
  function SlotAt(o: Outbound, k: nat): Slot {
    if o.taken + k < |o.items| then Queued(o.taken + k) else Sentinel
  }

  function Stops(o: Outbound): int {
    |o.queue| - (|o.items| - o.taken)
  }

  ghost predicate QueueSound(o: Outbound) {
    && o.taken <= |o.items|
    && |o.queue| <= OUTBOUND_QUEUE_SIZE
    && 0 <= Stops(o) <= 1
    && (forall k :: 0 <= k < |o.queue| ==> o.queue[k] == SlotAt(o, k))
  }

  ghost predicate FatesSound(o: Outbound) {
    && o.taken <= |o.items|
    && (forall n :: n in o.written ==> n < o.taken && !o.items[n].failed && !o.InHand(n))
    && (forall n :: 0 <= n < o.taken ==> n in o.written || o.items[n].failed || o.InHand(n))
    && (forall n :: o.taken <= n < |o.items| ==> !o.items[n].failed && !o.items[n].done)
    && (o.writer.Holding? || o.writer.Sending? ==> o.writer.n < o.taken && !o.items[o.writer.n].failed)
    && (o.writer.Sent? ==> o.writer.n in o.written)
  }

  /** Frames reach the wire in the order in which they were queued. */
  ghost predicate OrderSound(o: Outbound) {
    && (forall i, j :: 0 <= i < j < |o.written| ==> o.written[i] < o.written[j])
    && (o.writer.Holding? || o.writer.Sending? ==> forall n :: n in o.written ==> n < o.writer.n)
  }

  ghost predicate AnswersSound(o: Outbound) {
    && o.taken <= |o.items|
    && (forall n :: 0 <= n < |o.items| && o.items[n].done ==>
          o.items[n].blocking && (o.items[n].failed || n in o.written))
    && (forall n :: 0 <= n < o.taken && o.items[n].blocking && !o.InHand(n) && o.writer != Sent(n) ==>
          o.items[n].done)
    && (forall n :: n in o.answers ==> n < |o.items| && o.items[n].blocking)
    && (forall n :: n in o.answers && o.answers[n].Returned? ==> n in o.written && o.items[n].done)
    && (forall n :: n in o.answers && o.answers[n].Raised? ==> o.items[n].failed || !o.running)
  }

  predicate Drains(w: Writer) {
    w.Draining? || w.Exited?
  }

  ghost predicate ShutdownSound(o: Outbound) {
    && (o.writerError ==> !o.running)
    && (!o.closing.NotStarted? ==> !o.running)
    && (o.closing.Drained? ==> o.queue == [])
    && (!o.closing.Done? ==> Stops(o) == 0 && !Drains(o.writer))
    && (o.closing.Done? ==> o.taken == |o.items|)
    && (o.closing.Done? && !Drains(o.writer) ==> Stops(o) == 1)
    && (o.writer.Exited? ==> o.queue == [])
  }

  ghost predicate Sound(o: Outbound) {
    QueueSound(o) && FatesSound(o) && OrderSound(o) && AnswersSound(o) && ShutdownSound(o)
  }

  lemma SoundIsIndexed(o: Outbound)
    requires QueueSound(o) && FatesSound(o)
    ensures Indexed(o)
    ensures o.queue != [] && o.taken < |o.items| ==> o.queue[0] == Queued(o.taken)
    ensures o.queue != [] && o.taken == |o.items| ==> o.queue == [Sentinel]
  {
    if o.queue != [] {
      assert o.queue[0] == SlotAt(o, 0);
    }
  }

  lemma OpenedIsSound()
    ensures Sound(OPENED)
  {
  }

  predicate SendersOwn(step: OutboundStep) {
    step.Put? || step.SenderReturns? || step.SenderRaises? || step.SenderGivesUp?
  }

  predicate Fails(o: Outbound, step: OutboundStep) {
    step.WriterDrains? || step.CloseDrains? || step.WriterSendFails? || (step.WriterChecks? && !o.running)
  }

  lemma StepKeepsQueue(o: Outbound, step: OutboundStep)
    requires Sound(o) && Enabled(o, step)
    ensures QueueSound(Apply(o, step))
  {
    SoundIsIndexed(o);
    hide OrderSound, AnswersSound, Indexed;
  }

  lemma StepKeepsShutdown(o: Outbound, step: OutboundStep)
    requires Sound(o) && Enabled(o, step)
    ensures ShutdownSound(Apply(o, step))
  {
    SoundIsIndexed(o);
    hide OrderSound, AnswersSound, FatesSound, Indexed;
  }

  lemma FailingStepKeepsFates(o: Outbound, step: OutboundStep)
    requires Sound(o) && Enabled(o, step) && Fails(o, step)
    ensures FatesSound(Apply(o, step))
  {
    SoundIsIndexed(o);
    hide OrderSound, AnswersSound, Indexed;
  }

  lemma SenderStepKeepsFates(o: Outbound, step: OutboundStep)
    requires Sound(o) && Enabled(o, step) && SendersOwn(step)
    ensures FatesSound(Apply(o, step))
  {
    hide OrderSound, AnswersSound, ShutdownSound, Indexed;
  }

  lemma StepKeepsFates(o: Outbound, step: OutboundStep)
    requires Sound(o) && Enabled(o, step)
    ensures FatesSound(Apply(o, step))
  {
    if Fails(o, step) {
      FailingStepKeepsFates(o, step);
    } else if SendersOwn(step) {
      SenderStepKeepsFates(o, step);
    } else {
      SoundIsIndexed(o);
      hide OrderSound, AnswersSound, Indexed;
    }
  }

  lemma StepKeepsOrder(o: Outbound, step: OutboundStep)
    requires Sound(o) && Enabled(o, step)
    ensures OrderSound(Apply(o, step))
  {
    SoundIsIndexed(o);
    assert forall i :: 0 <= i < |o.written| ==> o.written[i] in o.written;
  }

  lemma SenderStepKeepsAnswers(o: Outbound, step: OutboundStep)
    requires Sound(o) && Enabled(o, step) && SendersOwn(step)
    ensures AnswersSound(Apply(o, step))
  {
    SoundIsIndexed(o);
    hide OrderSound, Indexed;
  }

  lemma FailingStepKeepsAnswers(o: Outbound, step: OutboundStep)
    requires Sound(o) && Enabled(o, step) && Fails(o, step)
    ensures AnswersSound(Apply(o, step))
  {
    SoundIsIndexed(o);
    hide OrderSound, Indexed;
  }

  lemma WriterStepKeepsAnswers(o: Outbound, step: OutboundStep)
    requires Sound(o) && Enabled(o, step) && !Fails(o, step) && !SendersOwn(step)
    ensures AnswersSound(Apply(o, step))
  {
    SoundIsIndexed(o);
    hide OrderSound, Indexed, ShutdownSound;
  }

  lemma StepKeepsAnswers(o: Outbound, step: OutboundStep)
    requires Sound(o) && Enabled(o, step)
    ensures AnswersSound(Apply(o, step))
  {
    hide Enabled, Sound, AnswersSound;
    if SendersOwn(step) {
      SenderStepKeepsAnswers(o, step);
    } else if Fails(o, step) {
      FailingStepKeepsAnswers(o, step);
    } else {
      WriterStepKeepsAnswers(o, step);
    }
  }

  lemma StepKeepsSound(o: Outbound, step: OutboundStep)
    requires Sound(o) && Enabled(o, step)
    ensures Sound(Apply(o, step))
  {
    StepKeepsQueue(o, step);
    StepKeepsShutdown(o, step);
    StepKeepsFates(o, step);
    StepKeepsOrder(o, step);
    StepKeepsAnswers(o, step);
  }

  // ----- Runs -----

  ghost predicate IsRun(o: Outbound, steps: seq<OutboundStep>, end: Outbound)
    decreases |steps|
  {
    if steps == [] then end == o
    else Enabled(o, steps[0]) && IsRun(Apply(o, steps[0]), steps[1..], end)
  }

  lemma {:induction false} RunKeepsSound(o: Outbound, steps: seq<OutboundStep>, end: Outbound)
    requires Sound(o) && IsRun(o, steps, end)
    ensures Sound(end)
    decreases |steps|
  {
    if steps != [] {
      StepKeepsSound(o, steps[0]);
      RunKeepsSound(Apply(o, steps[0]), steps[1..], end);
    }
  }

  /** Frames are only added, and an outcome once recorded stays. */
  ghost predicate ItemsExtend(before: seq<Item>, after: seq<Item>) {
    && |before| <= |after|
    && forall n :: 0 <= n < |before| ==>
         && after[n].message == before[n].message && after[n].blocking == before[n].blocking
         && (before[n].done ==> after[n] == before[n])
         && (before[n].failed ==> after[n].failed)
  }

  /** Nothing already decided is ever revised: bytes on the wire, outcomes, answers, the close code. */
  ghost predicate Extends(before: Outbound, after: Outbound) {
    && before.written <= after.written
    && ItemsExtend(before.items, after.items)
    && (forall n :: n in before.answers ==> n in after.answers && after.answers[n] == before.answers[n])
    && (!before.running ==> !after.running && |after.items| == |before.items|)
    && (!before.closing.NotStarted? ==> !after.closing.NotStarted? && after.closeCode == before.closeCode)
  }

  lemma StepExtendsItems(o: Outbound, step: OutboundStep)
    requires Sound(o) && Enabled(o, step)
    ensures ItemsExtend(o.items, Apply(o, step).items)
  {
    SoundIsIndexed(o);
    hide OrderSound, ShutdownSound, Indexed;
  }

  lemma StepExtends(o: Outbound, step: OutboundStep)
    requires Sound(o) && Enabled(o, step)
    ensures Extends(o, Apply(o, step))
  {
    StepExtendsItems(o, step);
    hide ItemsExtend, QueueSound, FatesSound, OrderSound, ShutdownSound, AnswersSound, Indexed;
  }

  lemma {:induction false} RunExtends(o: Outbound, steps: seq<OutboundStep>, end: Outbound)
    requires Sound(o) && IsRun(o, steps, end)
    ensures Extends(o, end)
    decreases |steps|
  {
    if steps != [] {
      var next := Apply(o, steps[0]);
      StepExtends(o, steps[0]);
      StepKeepsSound(o, steps[0]);
      RunExtends(next, steps[1..], end);
      assert o.written <= end.written;
    }
  }

  ghost predicate Reachable(o: Outbound) {
    exists steps :: IsRun(OPENED, steps, o)
  }

  lemma ReachableSound(o: Outbound)
    requires Reachable(o)
    ensures Sound(o)
  {
    OpenedIsSound();
    var steps :| IsRun(OPENED, steps, o);
    RunKeepsSound(OPENED, steps, o);
  }

  lemma {:induction false} RunAppends(o: Outbound, steps: seq<OutboundStep>, end: Outbound, step: OutboundStep)
    requires IsRun(o, steps, end) && Enabled(end, step)
    ensures IsRun(o, steps + [step], Apply(end, step))
    decreases |steps|
  {
    var longer := steps + [step];
    if steps == [] {
      assert longer[1..] == [];
    } else {
      assert longer[1..] == steps[1..] + [step];
      RunAppends(Apply(o, steps[0]), steps[1..], end, step);
    }
  }

  lemma ReachNext(o: Outbound, step: OutboundStep) returns (next: Outbound)
    requires Reachable(o) && Enabled(o, step)
    ensures next == Apply(o, step) && Reachable(next)
  {
    next := Apply(o, step);
    var steps :| IsRun(OPENED, steps, o);
    RunAppends(OPENED, steps, o, step);
  }

  // ----- What every run guarantees -----

  predicate ExactlyOne(a: bool, b: bool, c: bool, d: bool) {
    (if a then 1 else 0) + (if b then 1 else 0) + (if c then 1 else 0) + (if d then 1 else 0) == 1
  }

  /** Each queued frame is waiting, in the writer's hand, written, or failed: exactly one of these. */
  lemma Conservation(o: Outbound, n: nat)
    requires Reachable(o) && n < |o.items|
    ensures ExactlyOne(Queued(n) in o.queue, o.InHand(n), n in o.written, o.items[n].failed)
    ensures multiset(o.queue)[Queued(n)] <= 1 && multiset(o.written)[n] <= 1
  {
    ReachableSound(o);
    if n >= o.taken {
      assert o.queue[n - o.taken] == SlotAt(o, n - o.taken) == Queued(n);
    }
    CountOfDistinct(o.written, n);
    DistinctFramesCountOnce(o, n);
  }

  lemma DistinctFramesCountOnce(o: Outbound, n: nat)
    requires QueueSound(o)
    ensures multiset(o.queue)[Queued(n)] <= 1
  {
    DistinctSlotsCountOnce(o, |o.queue|, n);
    assert o.queue[..|o.queue|] == o.queue;
  }

  lemma {:induction false} DistinctSlotsCountOnce(o: Outbound, k: nat, n: nat)
    requires QueueSound(o) && k <= |o.queue|
    ensures multiset(o.queue[..k])[Queued(n)] <= if o.taken <= n < o.taken + k then 1 else 0
    decreases k
  {
    if k > 0 {
      assert o.queue[..k] == o.queue[..k - 1] + [o.queue[k - 1]];
      assert o.queue[k - 1] == SlotAt(o, k - 1);
      DistinctSlotsCountOnce(o, k - 1, n);
    }
  }

  /** Of two frames on the wire, the one queued first was written first. */
  lemma WritesFollowQueueOrder(o: Outbound, i: nat, j: nat)
    requires Reachable(o) && i < |o.written| && j < |o.written|
    ensures o.written[i] < o.written[j] <==> i < j
  {
    ReachableSound(o);
  }

  /** While the connection runs, a blocking send is answered by the exact fate of its frame. */
  lemma AnswersAreExact(o: Outbound, n: nat)
    requires Reachable(o) && n in o.answers
    ensures n < |o.items|
    ensures o.answers[n].Returned? ==> n in o.written
    ensures o.running ==> (o.answers[n].Returned? <==> n in o.written)
    ensures o.running ==> (o.answers[n].Raised? <==> o.items[n].failed)
  {
    ReachableSound(o);
  }

  /**
   * Exactly when a blocking send of a written frame may still raise: when the connection has
   * become unavailable before the sender was answered.
   */
  lemma WrittenMayRaiseExactly(o: Outbound, n: nat)
    requires Reachable(o) && Awaits(o, n) && n in o.written
    ensures Enabled(o, SenderRaises(n)) || Enabled(o, SenderGivesUp(n)) <==> !o.Available()
  {
    ReachableSound(o);
    SoundIsIndexed(o);
  }

  /** Once the connection stops, a blocking send can raise although its frame was written. */
  lemma RaisedThoughWritten(message: Message) returns (end: Outbound)
    ensures Reachable(end) && |end.items| == 1
    ensures 0 in end.answers && end.answers[0].Raised? && 0 in end.written && !end.items[0].failed
  {
    hide Reachable;
    var written := OneFrameWritten(message);
    var closing := ReachNext(written, BeginClose(1000));
    end := ReachNext(closing, SenderGivesUp(0));
  }

  lemma OneFrameWritten(message: Message) returns (end: Outbound)
    ensures Reachable(end)
    ensures end == OPENED.(items := [Item(message, true, false, false)], taken := 1, written := [0], writer := Sent(0))
  {
    assert IsRun(OPENED, [], OPENED);
    hide IsRun;
    var queued := ReachNext(OPENED, Put(message, true));
    var taken := ReachNext(queued, WriterGets);
    var checked := ReachNext(taken, WriterChecks);
    end := ReachNext(checked, WriterSends);
  }

  /** The closer's `put_nowait(None)` never meets a full queue, so its `queue.Full` branch is dead. */
  lemma StopSignalAlwaysFits(o: Outbound)
    requires Reachable(o) && Enabled(o, CloseSignals)
    ensures !o.Full() && Apply(o, CloseSignals).queue == [Sentinel]
  {
    ReachableSound(o);
  }

  /** Steps left to the writer once the close section is over. */
  function StepsLeft(w: Writer): nat {
    match w
    case Sending(_) => 8
    case Holding(_) => 9
    case Sent(_) => 7
    case Idle => 6
    case Failing => 5
    case CallingClose => 4
    case Draining => 3
    case Exited => 0
  }

  predicate WritersOwn(step: OutboundStep) {
    !SendersOwn(step) && !(step.BeginClose? || step.CloseDrains? || step.CloseDrained? || step.CloseSignals?)
  }

  /** After the close section the writer is never stuck in `get`. */
  lemma WriterAlwaysMoves(o: Outbound) returns (step: OutboundStep)
    requires Reachable(o) && o.closing.Done? && !o.writer.Exited?
    ensures WritersOwn(step) && Enabled(o, step)
  {
    ReachableSound(o);
    SoundIsIndexed(o);
    hide FatesSound, OrderSound, AnswersSound;
    step := match o.writer
      case Idle => WriterGets
      case Holding(_) => WriterChecks
      case Sending(_) => WriterSends
      case Sent(_) => WriterConfirms
      case Failing => WriterRecordsError
      case CallingClose => WriterStartsDrain
      case Draining => if o.queue != [] then WriterDrains else WriterExits
      case Exited => WriterExits;
  }

  lemma WriterStepDescends(o: Outbound, step: OutboundStep)
    requires Sound(o) && o.closing.Done? && Enabled(o, step) && WritersOwn(step)
    ensures StepsLeft(Apply(o, step).writer) + |Apply(o, step).queue| < StepsLeft(o.writer) + |o.queue|
  {
    hide FatesSound, OrderSound, AnswersSound, Indexed;
    if o.queue != [] {
      assert o.queue[0] == SlotAt(o, 0);
    }
    hide QueueSound;
  }

  /** And every step of its own brings it closer to its exit, while no other step takes it back. */
  lemma WriterComesCloser(o: Outbound, step: OutboundStep)
    requires Reachable(o) && o.closing.Done? && Enabled(o, step)
    ensures WritersOwn(step) ==>
              StepsLeft(Apply(o, step).writer) + |Apply(o, step).queue| < StepsLeft(o.writer) + |o.queue|
    ensures !WritersOwn(step) ==>
              Apply(o, step).writer == o.writer && Apply(o, step).queue == o.queue
    ensures Apply(o, step).closing.Done?
  {
    ReachableSound(o);
    if WritersOwn(step) {
      WriterStepDescends(o, step);
    }
    hide QueueSound, FatesSound, OrderSound, AnswersSound, Reachable, Indexed, StepsLeft;
  }

  /** After close and the writer's exit nothing is queued and no blocking sender waits for ever. */
  lemma NothingLeftBehind(o: Outbound, n: nat)
    requires Reachable(o) && o.writer.Exited?
    ensures o.closing.Done? && o.queue == []
    ensures n < |o.items| ==> (n in o.written) != o.items[n].failed
    ensures Awaits(o, n) ==> Enabled(o, SenderReturns(n)) || Enabled(o, SenderRaises(n))
  {
    ReachableSound(o);
    SoundIsIndexed(o);
  }
}
