/**
 * The receiving half of a multiplexed connection: the routing table, the per-stream queues,
 * the streams waiting to be accepted, and the receive loop. Each step is one lock region.
 */
module InboundRouting {
  import opened Options
  import opened FrameCodec
  import opened OutboundQueue

  const MAX_PENDING_FRAMES_PER_STREAM: nat := 128

  /** A stream object; `local` when `open_stream` made it, `consumed` what `recv` has returned. */
  datatype StreamState = StreamState(
    id: nat,
    local: bool,
    queue: seq<Frame>,
    shutdown: bool,
    consumed: seq<Frame>)

  /** The receive loop addressed `frame` to stream object `to`. */
  datatype Route = Route(to: nat, frame: Frame)

  datatype Receiver =
    | Listening
    | Delivering(to: nat, frame: Frame)
    | Reclaiming(to: nat, id: nat)
    | Asking(code: nat)
    | Stopped

  /**
   * `streams` lists every stream object ever made; `routes`, `accepted` and `announced` are its
   * history, and `concluded` the conclusions sent whose senders have dropped the route.
   */
  datatype Inbound = Inbound(
    nextId: nat,
    table: map<nat, nat>,
    streams: seq<StreamState>,
    maxPending: int,
    pending: seq<nat>,
    accepted: seq<nat>,
    announced: seq<nat>,
    cleared: bool,
    shutting: seq<nat>,
    receiver: Receiver,
    routes: seq<Route>,
    lost: Option<Route>,
    concluded: set<nat>)
  {
    /** A queue with a bound of zero or less is unbounded. */
    predicate PendingFull() {
      0 < maxPending <= |pending|
    }
  }

  function Fresh(maxPending: int): Inbound {
    Inbound(2, map[], [], maxPending, [], [], [], false, [], Listening, [], None, {})
  }

  datatype InboundStep =
    | Open
    | Receive(frame: Frame)
    | ReceiveFails(code: nat)
    | Deliver
    | Reclaim
    | ReceiverCloses
    | Consume(h: nat)
    | Accept
    | Conclude(n: nat)
    | Clear
    | Shut

  /** Frame `n` is a conclusion whose send has succeeded, so its sender goes on to drop the route. */
  predicate MayConclude(o: Outbound, n: nat) {
    && n < |o.items| && o.items[n].message.frame.kind.Conclusion?
    && (o.items[n].blocking ==> n in o.answers && o.answers[n].Returned?)
  }

  /** What may happen now; `o` is the sending half, which owns the running flag and the send lock. */
  predicate InEnabled(i: Inbound, o: Outbound, step: InboundStep) {
    match step
    case Open => o.LockFree() && o.Available()
    case Receive(_) => i.receiver.Listening?
    case ReceiveFails(_) => i.receiver.Listening?
    case Deliver => i.receiver.Delivering? && i.receiver.to < |i.streams|
    case Reclaim => i.receiver.Reclaiming?
    case ReceiverCloses => i.receiver.Asking? && o.LockFree()
    case Consume(h) => h < |i.streams| && i.streams[h].queue != []
    case Accept => i.pending != []
    case Conclude(n) => MayConclude(o, n) && n !in i.concluded
    case Clear => o.closing.Done? && !i.cleared
    case Shut => i.shutting != [] && i.shutting[0] < |i.streams|
  }

  function Opened(i: Inbound): Inbound {
    i.(nextId := i.nextId + 2,
       table := i.table[i.nextId := |i.streams|],
       streams := i.streams + [StreamState(i.nextId, true, [], false, [])])
  }

  /** The peer's first frame for an id opens a stream, unless too many wait to be accepted. */
  function PeerOpened(i: Inbound, frame: Frame): Inbound {
    var h := |i.streams|;
    var table := i.table[frame.stream := h];
    var streams := i.streams + [StreamState(frame.stream, false, [], false, [])];
    var routes := i.routes + [Route(h, frame)];
    if i.PendingFull() then
      i.(table := table, streams := streams, routes := routes, receiver := Asking(1013), lost := Some(Route(h, frame)))
    else
      i.(table := table, streams := streams, routes := routes, receiver := Delivering(h, frame),
         pending := i.pending + [h], announced := i.announced + [h])
  }

  function Received(i: Inbound, running: bool, frame: Frame): Inbound {
    if !running then i.(receiver := Asking(1000))
    else if frame.stream in i.table then
      var h := i.table[frame.stream];
      i.(receiver := Delivering(h, frame), routes := i.routes + [Route(h, frame)])
    else if frame.stream % 2 == 0 then i.(receiver := Asking(1002))
    else if frame.kind.Conclusion? then i
    else PeerOpened(i, frame)
  }

  function Delivered(i: Inbound): Inbound
    requires i.receiver.Delivering? && i.receiver.to < |i.streams|
  {
    var h, frame := i.receiver.to, i.receiver.frame;
    var stream := i.streams[h];
    if stream.shutdown then i.(receiver := Asking(1000), lost := Some(Route(h, frame)))
    else if |stream.queue| >= MAX_PENDING_FRAMES_PER_STREAM then
      i.(receiver := Asking(1013), lost := Some(Route(h, frame)))
    else
      i.(streams := i.streams[h := stream.(queue := stream.queue + [frame])],
         receiver := if frame.kind.Conclusion? then Reclaiming(h, frame.stream) else Listening)
  }

  /** `recv` hands out the oldest frame of the stream's queue. */
  function Consumed(i: Inbound, h: nat): Inbound
    requires h < |i.streams| && i.streams[h].queue != []
  {
    var s := i.streams[h];
    i.(streams := i.streams[h := s.(consumed := s.consumed + [s.queue[0]], queue := s.queue[1..])])
  }

  /** Every table entry is dropped and no stream can be accepted any more. */
  function Cleared(i: Inbound, order: seq<nat>): Inbound {
    i.(table := map[], pending := [], cleared := true, shutting := order)
  }

  /** The table's stream objects, oldest first. */
  function Routed(table: map<nat, nat>, streams: seq<StreamState>, from: nat): seq<nat>
    requires from <= |streams|
    decreases |streams| - from
  {
    if from == |streams| then []
    else
      var rest := Routed(table, streams, from + 1);
      var id := streams[from].id;
      if id in table && table[id] == from then [from] + rest else rest
  }

  function InApply(i: Inbound, o: Outbound, step: InboundStep): Inbound
    requires InEnabled(i, o, step)
  {
    match step
    case Open => Opened(i)
    case Receive(frame) => Received(i, o.running, frame)
    case ReceiveFails(code) => i.(receiver := Asking(code))
    case Deliver => Delivered(i)
    case Reclaim => i.(table := i.table - {i.receiver.id}, receiver := Listening)
    case ReceiverCloses => i.(receiver := Stopped)
    case Consume(h) => Consumed(i, h)
    case Accept => i.(accepted := i.accepted + [i.pending[0]], pending := i.pending[1..])
    case Conclude(n) => i.(table := i.table - {o.items[n].message.frame.stream}, concluded := i.concluded + {n})
    case Clear => Cleared(i, Routed(i.table, i.streams, 0))
    case Shut =>
      var h := i.shutting[0];
      i.(streams := i.streams[h := i.streams[h].(shutdown := true)], shutting := i.shutting[1..])
  }

  // ----- The invariant -----

  /** The frames addressed to one stream object, in the order in which they arrived. */
  function RoutedTo(routes: seq<Route>, h: nat): seq<Frame> {
    if routes == [] then []
    else
      var last := |routes| - 1;
      RoutedTo(routes[..last], h) + if routes[last].to == h then [routes[last].frame] else []
  }

  /** The one frame that is addressed but not in its queue: still being delivered, or lost at the end. */
  function InFlight(i: Inbound, h: nat): seq<Frame> {
    if i.receiver.Delivering? && i.receiver.to == h then [i.receiver.frame]
    else if i.lost.Some? && i.lost.value.to == h then [i.lost.value.frame]
    else []
  }

  ghost predicate StreamsSound(i: Inbound) {
    && 2 <= i.nextId && i.nextId % 2 == 0
    && (forall h :: 0 <= h < |i.streams| ==>
          var s := i.streams[h];
          && (if s.local then 2 <= s.id < i.nextId && s.id % 2 == 0 else s.id % 2 == 1)
          && |s.queue| <= MAX_PENDING_FRAMES_PER_STREAM)
    && (forall g, h :: 0 <= g < h < |i.streams| && i.streams[g].local && i.streams[h].local ==>
          i.streams[g].id < i.streams[h].id)
  }

  ghost predicate TableSound(i: Inbound) {
    forall id :: id in i.table ==> i.table[id] < |i.streams| && i.streams[i.table[id]].id == id
  }

  /** What a stream has handed out, then its queue, then the frame in flight: all that was addressed to it. */
  ghost predicate AccountedFor(i: Inbound, h: nat)
    requires h < |i.streams|
  {
    RoutedTo(i.routes, h) == i.streams[h].consumed + i.streams[h].queue + InFlight(i, h)
  }

  ghost predicate Accounted(i: Inbound) {
    forall h :: 0 <= h < |i.streams| ==> AccountedFor(i, h)
  }

  ghost predicate RoutesSound(i: Inbound) {
    && (forall k :: 0 <= k < |i.routes| ==>
          i.routes[k].to < |i.streams| && i.streams[i.routes[k].to].id == i.routes[k].frame.stream)
    && (i.receiver.Delivering? ==>
          i.receiver.to < |i.streams| && i.streams[i.receiver.to].id == i.receiver.frame.stream)
    && (i.receiver.Reclaiming? ==>
          i.receiver.to < |i.streams| && i.streams[i.receiver.to].id == i.receiver.id)
    && (i.lost.Some? ==> i.lost.value.to < |i.streams| && (i.receiver.Asking? || i.receiver.Stopped?))
  }

  /** A stream that a frame is on its way to, or that is being reclaimed, is the one routed for its id. */
  ghost predicate ReceiverSound(i: Inbound) {
    && (i.receiver.Delivering? && i.receiver.frame.stream in i.table ==> i.table[i.receiver.frame.stream] == i.receiver.to)
    && (i.receiver.Reclaiming? && i.receiver.id in i.table ==> i.table[i.receiver.id] == i.receiver.to)
  }

  /** A stream that the peer opened was addressed by its first frame. */
  ghost predicate PeersAddressed(i: Inbound) {
    forall h :: 0 <= h < |i.streams| && !i.streams[h].local ==> Addressed(i.routes, h)
  }

  predicate Addressed(routes: seq<Route>, h: nat) {
    exists k :: 0 <= k < |routes| && routes[k].to == h
  }

  ghost predicate PendingSound(i: Inbound) {
    && (0 < i.maxPending ==> |i.pending| <= i.maxPending)
    && (if i.cleared then i.pending == [] && i.accepted <= i.announced else i.accepted + i.pending == i.announced)
    && (forall k :: 0 <= k < |i.announced| ==>
          i.announced[k] < |i.streams| && !i.streams[i.announced[k]].local)
    && (forall j, k :: 0 <= j < k < |i.announced| ==> i.announced[j] < i.announced[k])
  }

  ghost predicate ClearedSound(i: Inbound, o: Outbound) {
    && (i.cleared ==> o.closing.Done? && i.table == map[])
    && (!i.cleared ==> i.shutting == [])
    && (forall h :: 0 <= h < |i.streams| && i.streams[h].shutdown ==> i.cleared)
    && (forall k :: 0 <= k < |i.shutting| ==> i.shutting[k] < |i.streams|)
  }

  ghost predicate InSound(i: Inbound, o: Outbound) {
    StreamsSound(i) && TableSound(i) && Accounted(i) && RoutesSound(i) && ReceiverSound(i) && PeersAddressed(i) && PendingSound(i) && ClearedSound(i, o)
  }

  lemma {:induction false} FreshStreamUnaddressed(routes: seq<Route>, h: nat)
    requires forall k :: 0 <= k < |routes| ==> routes[k].to < h
    ensures RoutedTo(routes, h) == []
  {
    if routes != [] {
      FreshStreamUnaddressed(routes[..|routes| - 1], h);
    }
  }

  lemma OneMoreRoute(routes: seq<Route>, r: Route, h: nat)
    ensures RoutedTo(routes + [r], h) == RoutedTo(routes, h) + if r.to == h then [r.frame] else []
  {
    assert (routes + [r])[..|routes|] == routes;
  }

  lemma {:induction false} RoutedIsBounded(table: map<nat, nat>, streams: seq<StreamState>, from: nat)
    requires from <= |streams|
    ensures forall h :: h in Routed(table, streams, from) <==>
              from <= h < |streams| && streams[h].id in table && table[streams[h].id] == h
    decreases |streams| - from
  {
    if from < |streams| {
      RoutedIsBounded(table, streams, from + 1);
    }
  }

  lemma RoutedInRange(table: map<nat, nat>, streams: seq<StreamState>)
    ensures forall k :: 0 <= k < |Routed(table, streams, 0)| ==> Routed(table, streams, 0)[k] < |streams|
  {
    RoutedIsBounded(table, streams, 0);
    var order := Routed(table, streams, 0);
    assert forall k :: 0 <= k < |order| ==> order[k] in order;
  }

  lemma ReceiveKeepsStreams(i: Inbound, running: bool, frame: Frame)
    requires StreamsSound(i)
    ensures StreamsSound(Received(i, running, frame))
  {
  }

  lemma StepKeepsStreams(i: Inbound, o: Outbound, step: InboundStep)
    requires InSound(i, o) && InEnabled(i, o, step)
    ensures StreamsSound(InApply(i, o, step))
  {
    hide ReceiverSound, PeersAddressed, Accounted, RoutesSound, PendingSound, ClearedSound, TableSound, Routed;
    if step.Receive? {
      ReceiveKeepsStreams(i, o.running, step.frame);
    } else {
      hide Received;
    }
  }

  lemma ReceiveKeepsTable(i: Inbound, running: bool, frame: Frame)
    requires TableSound(i)
    ensures TableSound(Received(i, running, frame))
  {
  }

  lemma StepKeepsTable(i: Inbound, o: Outbound, step: InboundStep)
    requires InSound(i, o) && InEnabled(i, o, step)
    ensures TableSound(InApply(i, o, step))
  {
    if step.Receive? {
      ReceiveKeepsTable(i, o.running, step.frame);
    } else {
      hide ReceiverSound, PeersAddressed, Received;
    }
    hide RoutesSound, Accounted, PendingSound, ClearedSound, StreamsSound, Routed;
  }

  lemma ReceiveKeepsPending(i: Inbound, running: bool, frame: Frame)
    requires PendingSound(i) && (running ==> !i.cleared)
    ensures PendingSound(Received(i, running, frame))
  {
    assert (i.accepted + i.pending) + [|i.streams|] == i.accepted + (i.pending + [|i.streams|]);
  }

  lemma AcceptKeepsPending(i: Inbound)
    requires PendingSound(i) && i.pending != []
    ensures PendingSound(i.(accepted := i.accepted + [i.pending[0]], pending := i.pending[1..]))
  {
    assert i.accepted + i.pending == (i.accepted + [i.pending[0]]) + i.pending[1..];
  }

  lemma UntouchedPending(i: Inbound, next: Inbound)
    requires PendingSound(i) && next.maxPending == i.maxPending && next.cleared == i.cleared
    requires next.pending == i.pending && next.accepted == i.accepted && next.announced == i.announced
    requires |i.streams| <= |next.streams|
    requires forall h :: 0 <= h < |i.streams| ==> next.streams[h].local == i.streams[h].local
    ensures PendingSound(next)
  {
  }

  lemma ClearKeepsPending(i: Inbound, order: seq<nat>)
    requires PendingSound(i) && !i.cleared
    ensures PendingSound(Cleared(i, order))
  {
    assert i.accepted <= i.accepted + i.pending;
  }

  lemma StepKeepsPending(i: Inbound, o: Outbound, step: InboundStep)
    requires InSound(i, o) && Sound(o) && InEnabled(i, o, step)
    ensures PendingSound(InApply(i, o, step))
  {
    assert o.closing.Done? ==> !o.running;
    hide ReceiverSound, PeersAddressed, RoutesSound, Accounted, TableSound, StreamsSound, Routed, Sound, PendingSound;
    if step.Accept? {
      AcceptKeepsPending(i);
    } else if step.Receive? {
      ReceiveKeepsPending(i, o.running, step.frame);
    } else if step.Clear? {
      ClearKeepsPending(i, Routed(i.table, i.streams, 0));
    } else {
      hide Received, ClearedSound;
      UntouchedPending(i, InApply(i, o, step));
    }
  }

  lemma StepKeepsCleared(i: Inbound, o: Outbound, step: InboundStep)
    requires InSound(i, o) && Sound(o) && InEnabled(i, o, step)
    ensures ClearedSound(InApply(i, o, step), o)
  {
    assert o.closing.Done? ==> !o.running;
    hide ReceiverSound, PeersAddressed, RoutesSound, Accounted, PendingSound, TableSound, StreamsSound, Routed, Sound;
    RoutedInRange(i.table, i.streams);
  }

  lemma ReceiveKeepsRoutes(i: Inbound, running: bool, frame: Frame)
    requires RoutesSound(i) && TableSound(i) && i.receiver.Listening?
    ensures RoutesSound(Received(i, running, frame))
  {
  }

  lemma StepKeepsRoutes(i: Inbound, o: Outbound, step: InboundStep)
    requires InSound(i, o) && InEnabled(i, o, step)
    ensures RoutesSound(InApply(i, o, step))
  {
    hide ReceiverSound, PeersAddressed, Accounted, PendingSound, ClearedSound, StreamsSound, Routed;
    if step.Receive? {
      ReceiveKeepsRoutes(i, o.running, step.frame);
    } else {
      hide Received, TableSound;
    }
  }

  lemma AddressedFrameIsInFlight(i: Inbound, next: Inbound, r: Route, h: nat)
    requires h < |i.streams| && h < |next.streams| && next.streams[h] == i.streams[h]
    requires AccountedFor(i, h) && InFlight(i, h) == []
    requires next.routes == i.routes + [r]
    requires InFlight(next, h) == if r.to == h then [r.frame] else []
    ensures AccountedFor(next, h)
  {
    OneMoreRoute(i.routes, r, h);
  }

  lemma ReceiveKeepsAccount(i: Inbound, running: bool, frame: Frame)
    requires TableSound(i) && Accounted(i) && RoutesSound(i) && i.receiver.Listening?
    ensures Accounted(Received(i, running, frame))
  {
    hide RoutedTo, AccountedFor;
    var next := Received(i, running, frame);
    forall h | 0 <= h < |next.streams|
      ensures AccountedFor(next, h)
    {
      assert h < |i.streams| ==> AccountedFor(i, h);
      if next.routes == i.routes {
        SameFlight(i, next, h);
      } else {
        var r := Route(if frame.stream in i.table then i.table[frame.stream] else |i.streams|, frame);
        if h < |i.streams| {
          AddressedFrameIsInFlight(i, next, r, h);
        } else {
          FirstFrameIsInFlight(i, next, r);
        }
      }
    }
  }

  lemma FirstFrameIsInFlight(i: Inbound, next: Inbound, r: Route)
    requires RoutesSound(i) && r.to == |i.streams| < |next.streams|
    requires next.streams[r.to].consumed == next.streams[r.to].queue == []
    requires next.routes == i.routes + [r] && InFlight(next, r.to) == [r.frame]
    ensures AccountedFor(next, r.to)
  {
    FreshStreamUnaddressed(i.routes, r.to);
    OneMoreRoute(i.routes, r, r.to);
  }

  lemma SameFlight(i: Inbound, next: Inbound, h: nat)
    requires h < |i.streams| && h < |next.streams| && AccountedFor(i, h)
    requires next.routes == i.routes && InFlight(next, h) == InFlight(i, h)
    requires next.streams[h].consumed == i.streams[h].consumed && next.streams[h].queue == i.streams[h].queue
    ensures AccountedFor(next, h)
  {
  }

  lemma ConsumeKeepsAccount(i: Inbound, h: nat)
    requires Accounted(i) && h < |i.streams| && i.streams[h].queue != []
    ensures Accounted(Consumed(i, h))
  {
    hide RoutedTo;
    var s, next := i.streams[h], Consumed(i, h);
    assert s.consumed + s.queue == (s.consumed + [s.queue[0]]) + s.queue[1..];
    forall g | 0 <= g < |next.streams|
      ensures AccountedFor(next, g)
    {
      assert AccountedFor(i, g);
      assert InFlight(next, g) == InFlight(i, g);
    }
  }

  lemma DeliverKeepsAccount(i: Inbound)
    requires Accounted(i) && RoutesSound(i) && i.receiver.Delivering?
    ensures Accounted(Delivered(i))
  {
    hide RoutedTo;
    var to, next := i.receiver.to, Delivered(i);
    var s := i.streams[to];
    forall h | 0 <= h < |next.streams|
      ensures AccountedFor(next, h)
    {
      assert AccountedFor(i, h);
      assert s.consumed + s.queue + [i.receiver.frame] == s.consumed + (s.queue + [i.receiver.frame]) + [];
    }
  }

  lemma OpenKeepsAccount(i: Inbound)
    requires Accounted(i) && RoutesSound(i)
    ensures Accounted(Opened(i))
  {
    var next := Opened(i);
    FreshStreamUnaddressed(i.routes, |i.streams|);
    forall h | 0 <= h < |next.streams|
      ensures AccountedFor(next, h)
    {
      assert h < |i.streams| ==> AccountedFor(i, h);
    }
  }

  lemma StepKeepsAccount(i: Inbound, o: Outbound, step: InboundStep)
    requires InSound(i, o) && InEnabled(i, o, step)
    ensures Accounted(InApply(i, o, step))
  {
    if step.Receive? {
      ReceiveKeepsAccount(i, o.running, step.frame);
    } else if step.Deliver? {
      DeliverKeepsAccount(i);
    } else if step.Open? {
      OpenKeepsAccount(i);
    } else if step.Consume? {
      ConsumeKeepsAccount(i, step.h);
    } else {
      hide RoutedTo, Routed, StreamsSound, TableSound, PendingSound, ClearedSound, AccountedFor;
      var next := InApply(i, o, step);
      forall h | 0 <= h < |next.streams|
        ensures AccountedFor(next, h)
      {
        assert AccountedFor(i, h);
        SameFlight(i, next, h);
      }
    }
  }

  lemma StepKeepsReceiver(i: Inbound, o: Outbound, step: InboundStep)
    requires InSound(i, o) && InEnabled(i, o, step)
    ensures ReceiverSound(InApply(i, o, step))
  {
    hide Accounted, PendingSound, ClearedSound, TableSound, PeersAddressed, Routed;
    if step.Open? {
      hide Received, Delivered;
      assert i.receiver.Delivering? || i.receiver.Reclaiming? ==> i.streams[i.receiver.to].id != i.nextId;
    }
  }

  lemma StillAddressed(routes: seq<Route>, r: Route, h: nat)
    requires Addressed(routes, h) || r.to == h
    ensures Addressed(routes + [r], h)
  {
    if Addressed(routes, h) {
      var k :| 0 <= k < |routes| && routes[k].to == h;
      assert (routes + [r])[k].to == h;
    } else {
      assert (routes + [r])[|routes|].to == h;
    }
  }

  lemma StepKeepsAddressed(i: Inbound, o: Outbound, step: InboundStep)
    requires InSound(i, o) && InEnabled(i, o, step)
    ensures PeersAddressed(InApply(i, o, step))
  {
    hide Accounted, PendingSound, ClearedSound, TableSound, RoutesSound, ReceiverSound, StreamsSound, Routed, Addressed;
    var next := InApply(i, o, step);
    if step.Receive? && next.routes != i.routes {
      var r := Route(if step.frame.stream in i.table then i.table[step.frame.stream] else |i.streams|, step.frame);
      assert next.routes == i.routes + [r];
      forall h | 0 <= h < |next.streams| && !next.streams[h].local
        ensures Addressed(next.routes, h)
      {
        StillAddressed(i.routes, r, h);
      }
    }
  }

  lemma StepKeepsInSound(i: Inbound, o: Outbound, step: InboundStep)
    requires InSound(i, o) && Sound(o) && InEnabled(i, o, step)
    ensures InSound(InApply(i, o, step), o)
  {
    StepKeepsStreams(i, o, step);
    StepKeepsTable(i, o, step);
    StepKeepsRoutes(i, o, step);
    StepKeepsAccount(i, o, step);
    StepKeepsReceiver(i, o, step);
    StepKeepsAddressed(i, o, step);
    StepKeepsPending(i, o, step);
    StepKeepsCleared(i, o, step);
  }
}
