/** Both halves of a multiplexed connection interleaved, and what holds over every run. */
module Multiplexer {
  import opened Counting
  import opened Options
  import opened FrameCodec
  import Sending = OutboundQueue
  import opened InboundRouting

  datatype Connection = Connection(out: Sending.Outbound, inn: Inbound)

  datatype Step = Out(out: Sending.OutboundStep) | In(inn: InboundStep)

  function NewConnection(maxPending: int): Connection {
    Connection(Sending.OPENED, Fresh(maxPending))
  }

  /** Frames are sent through a stream object and carry its id. */
  predicate SentByStream(i: Inbound, message: Sending.Message) {
    message.from < |i.streams| && i.streams[message.from].id == message.frame.stream
  }

  predicate Enabled(c: Connection, step: Step) {
    match step
    case Out(s) => Sending.Enabled(c.out, s) && (s.Put? ==> SentByStream(c.inn, s.message))
    case In(s) => InEnabled(c.inn, c.out, s) && (s.ReceiverCloses? ==> Sending.Indexed(c.out))
  }

  /** The receive loop calls `close` too; only the first call of all starts the close section. */
  function Apply(c: Connection, step: Step): Connection
    requires Enabled(c, step)
  {
    match step
    case Out(s) => c.(out := Sending.Apply(c.out, s))
    case In(s) =>
      Connection(
        if s.ReceiverCloses? && c.out.closing.NotStarted?
        then Sending.Apply(c.out, Sending.BeginClose(c.inn.receiver.code)) else c.out,
        InApply(c.inn, c.out, s))
  }

  ghost predicate SendersSound(c: Connection) {
    && (forall n :: 0 <= n < |c.out.items| ==> SentByStream(c.inn, c.out.items[n].message))
    && (forall n :: n in c.inn.concluded ==> n < |c.out.items|)
  }

  ghost predicate Sound(c: Connection) {
    Sending.Sound(c.out) && InSound(c.inn, c.out) && SendersSound(c)
  }

  /** Stream objects are only added, and keep their ids; a conclusion is noted after it was sent. */
  lemma StreamsKept(i: Inbound, o: Sending.Outbound, step: InboundStep)
    requires InEnabled(i, o, step)
    ensures var next := InApply(i, o, step);
      && |i.streams| <= |next.streams|
      && (forall h :: 0 <= h < |i.streams| ==> next.streams[h].id == i.streams[h].id)
      && (forall n :: n in next.concluded ==> n in i.concluded || n < |o.items|)
  {
    hide Routed;
  }

  lemma SendingKeepsSenders(c: Connection, step: Sending.OutboundStep)
    requires Sound(c) && Enabled(c, Out(step))
    ensures SendersSound(Apply(c, Out(step)))
  {
    Sending.StepExtendsItems(c.out, step);
    ItemsAdded(c.out, step);
    hide Sending.Sound, InSound, Sending.Enabled, Sending.Apply, SentByStream;
  }

  lemma ItemsAdded(o: Sending.Outbound, step: Sending.OutboundStep)
    requires Sending.Enabled(o, step)
    ensures var next := Sending.Apply(o, step);
      if step.Put? then |next.items| == |o.items| + 1 && next.items[|o.items|].message == step.message
      else |next.items| == |o.items|
  {
  }

  lemma StepKeepsSenders(c: Connection, step: Step)
    requires Sound(c) && Enabled(c, step)
    ensures SendersSound(Apply(c, step))
  {
    if step.Out? {
      SendingKeepsSenders(c, step.out);
    } else {
      StreamsKept(c.inn, c.out, step.inn);
      assert Apply(c, step).out.items == c.out.items;
      hide Sending.Sound, InSound, InApply, InEnabled, Sending.Enabled, Sending.Apply;
    }
  }

  lemma StepKeepsSound(c: Connection, step: Step)
    requires Sound(c) && Enabled(c, step)
    ensures Sound(Apply(c, step))
  {
    StepKeepsSenders(c, step);
    hide SendersSound;
    match step
    case Out(s) =>
      Sending.StepKeepsSound(c.out, s);
      SendingKeepsInSound(c.inn, c.out, s);
    case In(s) =>
      StepKeepsInSound(c.inn, c.out, s);
      if s.ReceiverCloses? && c.out.closing.NotStarted? {
        var begin := Sending.BeginClose(c.inn.receiver.code);
        Sending.StepKeepsSound(c.out, begin);
        SendingKeepsInSound(InApply(c.inn, c.out, s), c.out, begin);
      }
  }

  lemma SendingKeepsInSound(i: Inbound, o: Sending.Outbound, step: Sending.OutboundStep)
    requires InSound(i, o) && Sending.Enabled(o, step)
    ensures InSound(i, Sending.Apply(o, step))
  {
    assert o.closing.Done? ==> Sending.Apply(o, step).closing.Done?;
  }

  // ----- Runs -----

  ghost predicate IsRun(c: Connection, steps: seq<Step>, end: Connection)
    decreases |steps|
  {
    if steps == [] then end == c
    else Enabled(c, steps[0]) && IsRun(Apply(c, steps[0]), steps[1..], end)
  }

  lemma {:induction false} RunKeepsSound(c: Connection, steps: seq<Step>, end: Connection)
    requires Sound(c) && IsRun(c, steps, end)
    ensures Sound(end)
    decreases |steps|
  {
    if steps != [] {
      StepKeepsSound(c, steps[0]);
      RunKeepsSound(Apply(c, steps[0]), steps[1..], end);
    }
  }

  lemma {:induction false} RunAppends(c: Connection, steps: seq<Step>, end: Connection, step: Step)
    requires IsRun(c, steps, end) && Enabled(end, step)
    ensures IsRun(c, steps + [step], Apply(end, step))
    decreases |steps|
  {
    var longer := steps + [step];
    if steps == [] {
      assert longer[1..] == [];
    } else {
      assert longer[1..] == steps[1..] + [step];
      RunAppends(Apply(c, steps[0]), steps[1..], end, step);
    }
  }

  ghost predicate Reachable(c: Connection) {
    exists maxPending, steps :: IsRun(NewConnection(maxPending), steps, c)
  }

  lemma ReachNext(c: Connection, step: Step) returns (next: Connection)
    requires Reachable(c) && Enabled(c, step)
    ensures next == Apply(c, step) && Reachable(next)
  {
    next := Apply(c, step);
    var maxPending, steps :| IsRun(NewConnection(maxPending), steps, c);
    RunAppends(NewConnection(maxPending), steps, c, step);
  }

  lemma FreshIsSound(maxPending: int)
    ensures InSound(Fresh(maxPending), Sending.OPENED)
  {
    var i := Fresh(maxPending);
    assert StreamsSound(i) && TableSound(i);
    assert Accounted(i) && RoutesSound(i) && ReceiverSound(i) && PeersAddressed(i);
    assert PendingSound(i);
    assert ClearedSound(i, Sending.OPENED);
    hide StreamsSound, TableSound, Accounted, RoutesSound, ReceiverSound, PeersAddressed, PendingSound, ClearedSound;
  }

  lemma NewConnectionSound(maxPending: int)
    ensures Sound(NewConnection(maxPending))
  {
    Sending.OpenedIsSound();
    FreshIsSound(maxPending);
    hide Sending.Sound, InSound;
  }

  lemma ReachableSound(c: Connection)
    requires Reachable(c)
    ensures Sound(c)
  {
    hide Sound;
    var maxPending, steps :| IsRun(NewConnection(maxPending), steps, c);
    NewConnectionSound(maxPending);
    RunKeepsSound(NewConnection(maxPending), steps, c);
  }

  /** The sending half of an interleaved run is a run of the sending half alone. */
  lemma {:induction false} SendingHalfRuns(c: Connection, steps: seq<Step>, end: Connection)
    requires Sending.Reachable(c.out) && IsRun(c, steps, end)
    ensures Sending.Reachable(end.out)
    decreases |steps|
  {
    if steps != [] {
      var step, next := steps[0], Apply(c, steps[0]);
      if step.Out? {
        var _ := Sending.ReachNext(c.out, step.out);
      } else if step.inn.ReceiverCloses? && c.out.closing.NotStarted? {
        var _ := Sending.ReachNext(c.out, Sending.BeginClose(c.inn.receiver.code));
      }
      SendingHalfRuns(next, steps[1..], end);
    }
  }

  /** So everything proved of the sending half holds under every interleaving with the receiver. */
  lemma SendingHalfReachable(c: Connection)
    requires Reachable(c)
    ensures Sending.Reachable(c.out)
  {
    var maxPending, steps :| IsRun(NewConnection(maxPending), steps, c);
    assert Sending.IsRun(Sending.OPENED, [], Sending.OPENED);
    SendingHalfRuns(NewConnection(maxPending), steps, c);
  }

  // ----- What every run guarantees -----

  /** Server-opened ids are even and never given twice; peer-opened ids are odd. */
  lemma StreamIds(c: Connection, g: nat, h: nat)
    requires Reachable(c) && g < |c.inn.streams| && h < |c.inn.streams|
    ensures c.inn.streams[h].local <==> c.inn.streams[h].id % 2 == 0
    ensures c.inn.streams[g].local && c.inn.streams[g].id == c.inn.streams[h].id ==> g == h
    ensures c.inn.streams[h].local ==> 2 <= c.inn.streams[h].id < c.inn.nextId
  {
    ReachableSound(c);
  }

  /** Until the loop stops, a stream's reader sees every frame addressed to it, in order and unaltered. */
  lemma NothingLostOrReordered(c: Connection, h: nat)
    requires Reachable(c) && h < |c.inn.streams|
    ensures var s := c.inn.streams[h];
            RoutedTo(c.inn.routes, h) == s.consumed + s.queue + InFlight(c.inn, h) && |InFlight(c.inn, h)| <= 1
    ensures c.inn.receiver.Listening? || c.inn.receiver.Reclaiming? ==> InFlight(c.inn, h) == []
  {
    ReachableSound(c);
    assert AccountedFor(c.inn, h);
  }

  /** The bounds of both queues. */
  lemma QueuesStayBounded(c: Connection, h: nat)
    requires Reachable(c)
    ensures h < |c.inn.streams| ==> |c.inn.streams[h].queue| <= MAX_PENDING_FRAMES_PER_STREAM
    ensures 0 < c.inn.maxPending ==> |c.inn.pending| <= c.inn.maxPending
    ensures |c.out.queue| <= Sending.OUTBOUND_QUEUE_SIZE
  {
    ReachableSound(c);
  }

  /** Peer streams are accepted in the order in which their first frames came, none twice. */
  lemma AcceptedInOrder(c: Connection)
    requires Reachable(c)
    ensures c.inn.accepted <= c.inn.announced
    ensures !c.inn.cleared ==> c.inn.accepted + c.inn.pending == c.inn.announced
    ensures forall j, k :: 0 <= j < k < |c.inn.announced| ==> c.inn.announced[j] < c.inn.announced[k]
    ensures forall k :: 0 <= k < |c.inn.announced| ==>
              c.inn.announced[k] < |c.inn.streams| && !c.inn.streams[c.inn.announced[k]].local
  {
    ReachableSound(c);
  }

  // ----- After close -----

  /** Nothing is added any more: no route, no stream, no stream to accept, no queued frame. */
  ghost predicate Quiet(before: Connection, after: Connection) {
    && after.inn.cleared && after.inn.table == map[] && after.inn.pending == []
    && |after.inn.streams| == |before.inn.streams|
    && after.inn.accepted == before.inn.accepted
    && after.inn.routes == before.inn.routes
    && |after.out.items| == |before.out.items|
  }

  lemma SendingStaysQuiet(c: Connection, step: Sending.OutboundStep)
    requires Sound(c) && Sending.Enabled(c.out, step) && c.inn.cleared
    ensures Quiet(c, Apply(c, Out(step)))
  {
    assert c.out.closing.Done? && !c.out.running;
    hide Sending.Sound, Accounted, RoutesSound, StreamsSound, TableSound, ReceiverSound, PeersAddressed, SendersSound, RoutedTo, Routed, InApply, InEnabled;
  }

  lemma ReceivingStaysQuiet(c: Connection, step: InboundStep)
    requires Sound(c) && InEnabled(c.inn, c.out, step) && c.inn.cleared
    ensures var next := InApply(c.inn, c.out, step);
      && next.cleared && next.table == map[] && next.pending == []
      && |next.streams| == |c.inn.streams| && next.accepted == c.inn.accepted && next.routes == c.inn.routes
  {
    assert c.out.closing.Done? && !c.out.running;
    assert step.Receive? ==> Received(c.inn, false, step.frame) == c.inn.(receiver := Asking(1000));
    assert PendingSound(c.inn) && ClearedSound(c.inn, c.out);
    hide Sound, Received, Routed;
  }

  lemma StepStaysQuiet(c: Connection, step: Step)
    requires Sound(c) && Enabled(c, step) && c.inn.cleared
    ensures Quiet(c, Apply(c, step))
  {
    if step.Out? {
      SendingStaysQuiet(c, step.out);
    } else {
      ReceivingStaysQuiet(c, step.inn);
      hide Sound, InApply, InEnabled, Sending.Enabled;
    }
  }

  /** What a stream has got so far: handed out or queued. */
  function Got(i: Inbound, h: nat): seq<Frame>
    requires h < |i.streams|
  {
    i.streams[h].consumed + i.streams[h].queue
  }

  /** No frame that a stream has got is taken back or reordered. */
  lemma GotGrows(i: Inbound, o: Sending.Outbound, step: InboundStep, h: nat)
    requires InEnabled(i, o, step) && h < |i.streams|
    ensures h < |InApply(i, o, step).streams| && Got(i, h) <= Got(InApply(i, o, step), h)
  {
    hide Routed;
    var s := i.streams[h];
    assert s.queue != [] ==> s.consumed + s.queue == (s.consumed + [s.queue[0]]) + s.queue[1..];
    if step.Deliver? && h == i.receiver.to {
      assert s.consumed + (s.queue + [i.receiver.frame]) == (s.consumed + s.queue) + [i.receiver.frame];
    }
  }

  /** Got frames stay got, over any run. */
  lemma {:induction false} RunGrows(c: Connection, steps: seq<Step>, end: Connection, h: nat)
    requires IsRun(c, steps, end) && h < |c.inn.streams|
    ensures h < |end.inn.streams| && Got(c.inn, h) <= Got(end.inn, h)
    decreases |steps|
  {
    hide Got, InApply, InEnabled, Sending.Apply, Sending.Enabled;
    if steps != [] {
      if steps[0].In? {
        GotGrows(c.inn, c.out, steps[0].inn, h);
      }
      RunGrows(Apply(c, steps[0]), steps[1..], end, h);
      PrefixOfPrefix(Got(c.inn, h), Got(Apply(c, steps[0]).inn, h), Got(end.inn, h));
    }
  }

  lemma PrefixOfPrefix(a: seq<Frame>, b: seq<Frame>, c: seq<Frame>)
    requires a <= b && b <= c
    ensures a <= c
  {
  }

  lemma {:induction false} RunStaysQuiet(c: Connection, steps: seq<Step>, end: Connection)
    requires Reachable(c) && c.inn.cleared && IsRun(c, steps, end)
    ensures Reachable(end) && Quiet(c, end)
    decreases |steps|
  {
    ReachableSound(c);
    if steps != [] {
      StepStaysQuiet(c, steps[0]);
      var next := ReachNext(c, steps[0]);
      RunStaysQuiet(next, steps[1..], end);
    }
  }

  /**
   * Once close has cleared the table no route, stream, pending stream or outgoing frame is ever
   * added, and a stream's queue gains at most the one frame that was then on its way to it.
   */
  lemma ClosedStaysQuiet(c: Connection, steps: seq<Step>, end: Connection, h: nat)
    requires Reachable(c) && c.inn.cleared && IsRun(c, steps, end) && h < |c.inn.streams|
    ensures Quiet(c, end)
    ensures Got(end.inn, h) == Got(c.inn, h) || Got(end.inn, h) == Got(c.inn, h) + InFlight(c.inn, h)
  {
    RunStaysQuiet(c, steps, end);
    RunGrows(c, steps, end, h);
    NothingLostOrReordered(c, h);
    NothingLostOrReordered(end, h);
    hide Reachable, IsRun, Got, InFlight, RoutedTo;
    SplitAtFlight(Got(c.inn, h), InFlight(c.inn, h), Got(end.inn, h), InFlight(end.inn, h));
  }

  lemma SplitAtFlight(a: seq<Frame>, flight: seq<Frame>, b: seq<Frame>, rest: seq<Frame>)
    requires a + flight == b + rest && a <= b && |flight| <= 1
    ensures b == a || b == a + flight
  {
    if |b| == |a| {
      assert b == a;
    } else {
      assert rest == [];
    }
  }

  /** `put_nowait` on the accept queue never meets `ShutDown`: it runs only before the table is cleared. */
  lemma PendingQueueOpenWhileRunning(c: Connection)
    requires Reachable(c) && c.out.running
    ensures !c.inn.cleared && c.inn.shutting == []
    ensures forall h :: 0 <= h < |c.inn.streams| ==> !c.inn.streams[h].shutdown
  {
    ReachableSound(c);
  }

  /** Clearing hands exactly the routed streams, each once, to the shutdown loop. */
  lemma ClearShutsRouted(c: Connection)
    requires Reachable(c) && Enabled(c, In(Clear))
    ensures var after := Apply(c, In(Clear));
            && (forall h: nat :: h in after.inn.shutting <==>
                 h < |c.inn.streams| && c.inn.streams[h].id in c.inn.table && c.inn.table[c.inn.streams[h].id] == h)
            && |after.inn.shutting| == |c.inn.table|
  {
    ReachableSound(c);
    RoutedIsBounded(c.inn.table, c.inn.streams, 0);
    RoutedCountsTable(c.inn);
  }

  predicate Ascending(s: seq<nat>) {
    forall j, k :: 0 <= j < k < |s| ==> s[j] < s[k]
  }

  lemma {:induction false} RoutedIsAscending(table: map<nat, nat>, streams: seq<StreamState>, from: nat)
    requires from <= |streams|
    ensures Ascending(Routed(table, streams, from))
    decreases |streams| - from
  {
    if from < |streams| {
      RoutedIsAscending(table, streams, from + 1);
      RoutedIsBounded(table, streams, from + 1);
      var order, rest := Routed(table, streams, from), Routed(table, streams, from + 1);
      assert forall k :: 0 <= k < |rest| ==> rest[k] in rest;
      assert order == rest || order == [from] + rest;
    }
  }

  lemma RoutedCountsTable(i: Inbound)
    requires TableSound(i)
    ensures |Routed(i.table, i.streams, 0)| == |i.table|
  {
    var order := Routed(i.table, i.streams, 0);
    RoutedIsBounded(i.table, i.streams, 0);
    RoutedIsAscending(i.table, i.streams, 0);
    var ids := seq(|order|, k requires 0 <= k < |order| => IdOf(i, order, k));
    forall id | id in i.table.Keys
      ensures id in ids
    {
      var h := i.table[id];
      assert h in order;
      var k :| 0 <= k < |order| && order[k] == h;
      assert ids[k] == id;
    }
    SizeOfDistinct(ids);
    assert (set id | id in ids) == i.table.Keys;
  }

  /** The id of the `k`-th routed stream, which the table maps back to it. */
  ghost function IdOf(i: Inbound, order: seq<nat>, k: nat): (id: nat)
    requires order == Routed(i.table, i.streams, 0) && k < |order|
    ensures id in i.table && i.table[id] == order[k]
  {
    RoutedIsBounded(i.table, i.streams, 0);
    assert order[k] in order;
    i.streams[order[k]].id
  }
}
