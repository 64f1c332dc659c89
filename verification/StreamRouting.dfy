/** Which stream object gets which frames, and exactly when the frames of one id are split. */
module StreamRouting {
  import opened Options
  import opened FrameCodec
  import Sending = OutboundQueue
  import opened InboundRouting
  import opened Multiplexer

  function FramesWithId(routes: seq<Route>, id: nat): seq<Frame> {
    if routes == [] then []
    else
      var last := |routes| - 1;
      FramesWithId(routes[..last], id) + if routes[last].frame.stream == id then [routes[last].frame] else []
  }

  lemma {:induction false} OneOwnerTakesAll(routes: seq<Route>, h: nat, id: nat)
    requires forall k :: 0 <= k < |routes| ==> (routes[k].to == h <==> routes[k].frame.stream == id)
    ensures RoutedTo(routes, h) == FramesWithId(routes, id)
  {
    if routes != [] {
      OneOwnerTakesAll(routes[..|routes| - 1], h, id);
    }
  }

  /** Two streams share the frames of their id. */
  lemma {:induction false} TwoOwnersShare(routes: seq<Route>, g: nat, h: nat, id: nat)
    requires g != h
    requires forall k :: 0 <= k < |routes| && (routes[k].to == g || routes[k].to == h) ==> routes[k].frame.stream == id
    ensures |RoutedTo(routes, g)| + |RoutedTo(routes, h)| <= |FramesWithId(routes, id)|
  {
    if routes != [] {
      TwoOwnersShare(routes[..|routes| - 1], g, h, id);
    }
  }

  lemma {:induction false} AddressedGetsFrames(routes: seq<Route>, h: nat)
    requires Addressed(routes, h)
    ensures RoutedTo(routes, h) != []
  {
    var last := |routes| - 1;
    if routes[last].to != h {
      var k :| 0 <= k < |routes| && routes[k].to == h;
      assert routes[..last][k].to == h;
      AddressedGetsFrames(routes[..last], h);
    }
  }

  /** No other stream object has the id of `h`. */
  predicate OnlyOfItsId(i: Inbound, h: nat)
    requires h < |i.streams|
  {
    forall g :: 0 <= g < |i.streams| && i.streams[g].id == i.streams[h].id ==> g == h
  }

  /**
   * A stream gets all routed frames of its id exactly if no other stream object carries it.
   */
  lemma WholeExactlyIfAlone(c: Connection, h: nat)
    requires Reachable(c) && h < |c.inn.streams|
    ensures RoutedTo(c.inn.routes, h) == FramesWithId(c.inn.routes, c.inn.streams[h].id) <==> OnlyOfItsId(c.inn, h)
  {
    ReachableSound(c);
    var i, id := c.inn, c.inn.streams[h].id;
    if OnlyOfItsId(i, h) {
      forall k | 0 <= k < |i.routes|
        ensures i.routes[k].to == h <==> i.routes[k].frame.stream == id
      {
      }
      OneOwnerTakesAll(i.routes, h, id);
    } else {
      var g :| 0 <= g < |i.streams| && i.streams[g].id == id && g != h;
      StreamIds(c, g, h);
      StreamIds(c, h, g);
      assert Addressed(i.routes, g);
      AddressedGetsFrames(i.routes, g);
      TwoOwnersShare(i.routes, g, h, id);
    }
  }

  /** A server-opened stream is addressed exactly the routed frames that carry its id. */
  lemma ServerStreamOwnsItsId(c: Connection, h: nat)
    requires Reachable(c) && h < |c.inn.streams| && c.inn.streams[h].local
    ensures RoutedTo(c.inn.routes, h) == FramesWithId(c.inn.routes, c.inn.streams[h].id)
  {
    forall g | 0 <= g < |c.inn.streams| && c.inn.streams[g].id == c.inn.streams[h].id
      ensures g == h
    {
      StreamIds(c, h, g);
    }
    WholeExactlyIfAlone(c, h);
  }

  // ----- When an id gets a second stream object -----

  /** Two stream objects carry the id. */
  predicate IsSplit(i: Inbound, id: nat) {
    exists g, h :: 0 <= g < h < |i.streams| && i.streams[g].id == id && i.streams[h].id == id
  }

  predicate IsUsed(i: Inbound, id: nat) {
    exists h :: 0 <= h < |i.streams| && i.streams[h].id == id
  }

  /** A process frame arrives, on a running connection, for an odd id that is used but not routed. */
  predicate Splits(c: Connection, step: Step, id: nat) {
    && step.In? && step.inn.Receive? && c.inn.receiver.Listening? && c.out.running
    && step.inn.frame.stream == id && step.inn.frame.kind.Process?
    && id % 2 == 1 && id !in c.inn.table && IsUsed(c.inn, id)
  }

  lemma {:induction false} AppendSplits(i: Inbound, next: Inbound, added: StreamState, id: nat)
    requires |next.streams| == |i.streams| + 1 && next.streams[|i.streams|].id == added.id
    requires forall h :: 0 <= h < |i.streams| ==> next.streams[h].id == i.streams[h].id
    ensures IsSplit(next, id) <==> IsSplit(i, id) || (added.id == id && IsUsed(i, id))
  {
    if IsSplit(i, id) {
      var g, h :| 0 <= g < h < |i.streams| && i.streams[g].id == id && i.streams[h].id == id;
      assert next.streams[g].id == id && next.streams[h].id == id;
    }
    if added.id == id && IsUsed(i, id) {
      var h :| 0 <= h < |i.streams| && i.streams[h].id == id;
      assert next.streams[h].id == id && next.streams[|i.streams|].id == id;
    }
    if IsSplit(next, id) {
      var g, h :| 0 <= g < h < |next.streams| && next.streams[g].id == id && next.streams[h].id == id;
      assert i.streams[g].id == id;
    }
  }

  lemma SameIdsSameSplit(i: Inbound, next: Inbound, id: nat)
    requires |next.streams| == |i.streams|
    requires forall h :: 0 <= h < |i.streams| ==> next.streams[h].id == i.streams[h].id
    ensures IsSplit(next, id) <==> IsSplit(i, id)
  {
    if IsSplit(i, id) {
      var g, h :| 0 <= g < h < |i.streams| && i.streams[g].id == id && i.streams[h].id == id;
      assert next.streams[g].id == id && next.streams[h].id == id;
    }
    if IsSplit(next, id) {
      var g, h :| 0 <= g < h < |next.streams| && next.streams[g].id == id && next.streams[h].id == id;
      assert i.streams[g].id == id && i.streams[h].id == id;
    }
  }

  lemma ReceiveSplits(c: Connection, frame: Frame, id: nat)
    requires c.inn.receiver.Listening?
    ensures IsSplit(Received(c.inn, c.out.running, frame), id) <==> IsSplit(c.inn, id) || Splits(c, In(Receive(frame)), id)
  {
    var i, next := c.inn, Received(c.inn, c.out.running, frame);
    hide IsSplit, IsUsed;
    if |next.streams| == |i.streams| {
      SameIdsSameSplit(i, next, id);
    } else {
      AppendSplits(i, next, next.streams[|i.streams|], id);
    }
  }

  lemma OpenSplitsNothing(i: Inbound, id: nat)
    requires StreamsSound(i)
    ensures IsSplit(Opened(i), id) <==> IsSplit(i, id)
  {
    var next := Opened(i);
    assert !IsUsed(i, i.nextId);
    hide IsSplit, IsUsed, StreamsSound;
    AppendSplits(i, next, next.streams[|i.streams|], id);
  }

  lemma OtherStepsKeepStreams(i: Inbound, o: Sending.Outbound, step: InboundStep)
    requires InEnabled(i, o, step) && !step.Open? && !step.Receive?
    ensures |InApply(i, o, step).streams| == |i.streams|
  {
    hide Routed, Received, Opened;
  }

  lemma SplitStep(c: Connection, step: Step, id: nat)
    requires Sound(c) && Enabled(c, step)
    ensures IsSplit(Apply(c, step).inn, id) <==> IsSplit(c.inn, id) || Splits(c, step, id)
  {
    assert StreamsSound(c.inn);
    hide Sound, IsSplit, Sending.Apply, Sending.Enabled, StreamsSound, Received, Opened;
    if step.In? {
      if step.inn.Receive? {
        ReceiveSplits(c, step.inn.frame, id);
      } else if step.inn.Open? {
        OpenSplitsNothing(c.inn, id);
      } else {
        StreamsKept(c.inn, c.out, step.inn);
        OtherStepsKeepStreams(c.inn, c.out, step.inn);
        hide InApply;
        SameIdsSameSplit(c.inn, Apply(c, step).inn, id);
      }
    }
  }

  /** Some step of the run splits the id. */
  ghost predicate SplitInRun(c: Connection, steps: seq<Step>, end: Connection, id: nat)
    requires IsRun(c, steps, end)
    decreases |steps|
  {
    steps != [] && (Splits(c, steps[0], id) || SplitInRun(Apply(c, steps[0]), steps[1..], end, id))
  }

  lemma {:induction false} SplitExactly(c: Connection, steps: seq<Step>, end: Connection, id: nat)
    requires Sound(c) && IsRun(c, steps, end)
    ensures IsSplit(end.inn, id) <==> IsSplit(c.inn, id) || SplitInRun(c, steps, end, id)
    decreases |steps|
  {
    hide Sound, IsSplit, Splits, Apply, Enabled;
    if steps != [] {
      StepKeepsSound(c, steps[0]);
      SplitStep(c, steps[0], id);
      SplitExactly(Apply(c, steps[0]), steps[1..], end, id);
    }
  }

  /**
   * Over a whole run of a connection, the frames of an id are divided among several stream
   * objects exactly if at some step a process frame arrived for it while it was used and odd
   * but not routed: after either side's conclusion, whoever was slow.
   */
  lemma IdIsSplitExactly(maxPending: int, steps: seq<Step>, end: Connection, id: nat)
    requires IsRun(NewConnection(maxPending), steps, end)
    ensures IsSplit(end.inn, id) <==> SplitInRun(NewConnection(maxPending), steps, end, id)
  {
    NewConnectionSound(maxPending);
    SplitExactly(NewConnection(maxPending), steps, end, id);
  }

  // ----- When a route ends -----

  /** A stream's route ends by the peer's conclusion of it, by its own conclusion, or by close. */
  predicate EndsOwnRoute(c: Connection, step: Step, id: nat)
    requires Enabled(c, step) && id in c.inn.table
  {
    step.In? &&
    ((step.inn.Reclaim? && c.inn.receiver.id == id && c.inn.receiver.to == c.inn.table[id])
     || (step.inn.Conclude? && var message := c.out.items[step.inn.n].message;
         message.frame.stream == id && message.from == c.inn.table[id])
     || step.inn.Clear?)
  }

  /** The conclusion of one stream ends the route of another stream with the same id. */
  predicate EndsForeignRoute(c: Connection, step: Step, id: nat)
    requires Enabled(c, step) && id in c.inn.table
  {
    step.In? && step.inn.Conclude? && var message := c.out.items[step.inn.n].message;
    message.frame.stream == id && message.from != c.inn.table[id]
  }

  /** Once routed, an id keeps its stream until one of these steps, and loses it exactly in them. */
  lemma RouteEndsExactly(c: Connection, step: Step, id: nat)
    requires Reachable(c) && Enabled(c, step) && id in c.inn.table
    ensures id !in Apply(c, step).inn.table <==> EndsOwnRoute(c, step, id) || EndsForeignRoute(c, step, id)
    ensures id in Apply(c, step).inn.table ==> Apply(c, step).inn.table[id] == c.inn.table[id]
  {
    ReachableSound(c);
    assert ReceiverSound(c.inn);
    if step.In? && step.inn.Open? {
      var h := c.inn.table[id];
      assert c.inn.streams[h].id == id && id != c.inn.nextId;
    }
    hide Reachable, Sound, InSound, StreamsSound, TableSound, Routed, Sending.Apply, Sending.Enabled, SentByStream;
    if step.In? && step.inn.Receive? {
      ReceivingKeepsRoute(c.inn, c.out.running, step.inn.frame, id);
    }
    hide Received;
  }

  lemma ReceivingKeepsRoute(i: Inbound, running: bool, frame: Frame, id: nat)
    requires id in i.table
    ensures var next := Received(i, running, frame); id in next.table && next.table[id] == i.table[id]
  {
  }

  /**
   * A conclusion takes a foreign route exactly if its id is routed to another stream object;
   * the id has then been split already.
   */
  lemma ForeignConclusionExactly(c: Connection, n: nat)
    requires Reachable(c) && Enabled(c, In(Conclude(n)))
    ensures var message := c.out.items[n].message;
      var id := message.frame.stream;
      && ((exists other :: other in c.inn.table && other !in Apply(c, In(Conclude(n))).inn.table
                           && c.inn.table[other] != message.from) <==>
          id in c.inn.table && c.inn.table[id] != message.from)
      && (id in c.inn.table && c.inn.table[id] != message.from ==> IsSplit(c.inn, id))
  {
    ReachableSound(c);
    var message := c.out.items[n].message;
    var id := message.frame.stream;
    assert SentByStream(c.inn, message);
    if id in c.inn.table && c.inn.table[id] != message.from {
      var g, h := c.inn.table[id], message.from;
      assert c.inn.streams[g].id == id && c.inn.streams[h].id == id;
      assert g < h || h < g;
      assert id !in Apply(c, In(Conclude(n))).inn.table;
    }
  }

  // ----- Concrete runs -----

  const PEER: nat := 5
  const FIRST := Frame(PEER, Process, [])
  const LAST := Frame(PEER, Conclusion, [])

  lemma OneFrame() returns (c: Connection)
    ensures Reachable(c) && c.out == Sending.OPENED
    ensures c.inn.receiver.Listening? && c.inn.table == map[PEER := 0] && |c.inn.pending| == 1 && c.inn.maxPending == 16
    ensures |c.inn.streams| == 1 && c.inn.streams[0].id == PEER && |c.inn.streams[0].queue| == 1
    ensures !c.inn.streams[0].shutdown && c.inn.concluded == {}
    ensures c.inn.routes == [Route(0, FIRST)]
  {
    c := NewConnection(16);
    assert IsRun(c, [], c);
    c := ReachNext(c, In(Receive(FIRST)));
    c := ReachNext(c, In(Deliver));
    assert c.inn.table == map[PEER := 0];
  }

  /** This side concludes stream 0: the frame is queued, then the route of its id is dropped. */
  lemma ConcludeFirst(c: Connection) returns (next: Connection)
    requires Reachable(c) && c.out == Sending.OPENED && c.inn.concluded == {}
    requires |c.inn.streams| > 0 && c.inn.streams[0].id == PEER
    ensures Reachable(next) && next.out.running
    ensures next.inn == c.inn.(table := c.inn.table - {PEER}, concluded := {0})
  {
    var message := Sending.Message(0, LAST);
    next := ReachNext(c, Out(Sending.Put(message, false)));
    assert next.out.items == [Sending.Item(message, false, false, false)];
    next := ReachNext(next, In(Conclude(0)));
  }

  /** One process frame that arrives after this side's conclusion is enough to split a stream. */
  lemma LateFrameSplitsStream() returns (c: Connection)
    ensures Reachable(c) && |c.inn.streams| == 2 && IsSplit(c.inn, PEER)
    ensures c.inn.routes == [Route(0, FIRST), Route(1, FIRST)]
  {
    c := OneFrame();
    c := ConcludeFirst(c);
    c := ReachNext(c, In(Receive(FIRST)));
    assert c.inn.streams[0].id == PEER && c.inn.streams[1].id == PEER;
  }

  /**
   * If the peer reuses an id before this side has concluded the old stream, that conclusion
   * takes the new stream's route away, and two frames of the new stream reach two streams.
   */
  lemma LateConclusionSplitsStream() returns (c: Connection)
    ensures Reachable(c) && |c.inn.routes| == 4 && |c.inn.streams| == 3
    ensures c.inn.routes[2].frame == c.inn.routes[3].frame == FIRST
    ensures c.inn.routes[2].to == 1 && c.inn.routes[3].to == 2
  {
    c := OneExchange();
    c := ReachNext(c, In(Receive(FIRST)));
    c := ReachNext(c, In(Deliver));
    c := ConcludeFirst(c);
    c := ReachNext(c, In(Receive(FIRST)));
  }

  /** The peer has opened and concluded a stream that this side has not concluded yet. */
  lemma OneExchange() returns (c: Connection)
    ensures Reachable(c) && c.out == Sending.OPENED
    ensures c.inn.receiver.Listening? && c.inn.table == map[] && |c.inn.pending| == 1 && c.inn.maxPending == 16
    ensures |c.inn.streams| == 1 && c.inn.streams[0].id == PEER && c.inn.concluded == {}
    ensures c.inn.routes == [Route(0, FIRST), Route(0, LAST)]
  {
    c := OneFrame();
    c := ReachNext(c, In(Receive(LAST)));
    c := ReachNext(c, In(Deliver));
    c := ReachNext(c, In(Reclaim));
    assert c.inn.table == map[];
  }

  /**
   * The receive loop closes the connection with 1002 exactly for an even id without a route,
   * so also for the peer's answer to a server-opened stream that this side has concluded.
   */
  lemma ProtocolErrorExactly(c: Connection, frame: Frame)
    requires Reachable(c) && c.inn.receiver.Listening?
    ensures Apply(c, In(Receive(frame))).inn.receiver == Asking(1002) <==>
            c.out.running && frame.stream % 2 == 0 && frame.stream !in c.inn.table
  {
  }

  /** A peer that answers a server-opened stream after this side has concluded it loses the connection. */
  lemma AnswerClosesConnection() returns (c: Connection)
    ensures Reachable(c) && c.inn.receiver == Asking(1002)
    ensures |c.inn.streams| == 1 && c.inn.streams[0].local && c.inn.routes == []
  {
    c := NewConnection(16);
    assert IsRun(c, [], c);
    c := ReachNext(c, In(Open));
    var message := Sending.Message(0, Frame(2, Conclusion, []));
    c := ReachNext(c, Out(Sending.Put(message, false)));
    assert c.out.items == [Sending.Item(message, false, false, false)];
    c := ReachNext(c, In(Conclude(0)));
    assert 2 !in c.inn.table;
    c := ReachNext(c, In(Receive(Frame(2, Conclusion, []))));
  }
}
