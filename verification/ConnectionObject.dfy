/**
 * The connection object itself. Each method runs one thread's turn without interruption; its
 * contract names the state it reaches, and `Valid` says that this state is one the interleaved
 * system reaches too, so every theorem about runs holds of the object between turns.
 */
module ConnectionObject {
  import opened Options
  import opened FrameCodec
  import Sending = OutboundQueue
  import opened InboundRouting
  import opened Multiplexer

  /** What the proofs remember of each half beside its fields. */
  datatype SendingHistory = SendingHistory(taken: nat, written: seq<nat>, answers: map<nat, Sending.Answer>)

  datatype ReceivingHistory = ReceivingHistory(
    accepted: seq<nat>,
    announced: seq<nat>,
    routes: seq<Route>,
    lost: Option<Route>,
    concluded: set<nat>)

  datatype PutResult = Accepted(n: nat) | Unavailable | QueueFull

  /** `recv`: a frame, a timeout, or the end of a stream that has been shut and emptied. */
  datatype RecvResult = Got(frame: Frame) | TimedOut | EndOfStream

  /** How a blocking sender is answered when it looks at its frame. */
  function PollStep(o: Sending.Outbound, n: nat): Sending.OutboundStep
    requires Sending.Awaits(o, n)
  {
    if !o.items[n].done then Sending.SenderGivesUp(n)
    else if o.items[n].failed then Sending.SenderRaises(n) else Sending.SenderReturns(n)
  }

  // ----- Whole turns, as sequences of the steps they take -----

  /** All of `_fail_pending_sends`: every entry is taken out, every frame among them fails. */
  function Drain(o: Sending.Outbound): (r: Sending.Outbound)
    requires Sending.Indexed(o)
    ensures r == o.(queue := [], items := r.items, taken := r.taken) && |r.items| == |o.items|
    decreases |o.queue|
  {
    if o.queue == [] then o else
      var rest := o.FailHead();
      assert Sending.Indexed(rest) by {
        assert forall k :: 0 <= k < |rest.queue| ==> rest.queue[k] == o.queue[k + 1];
      }
      Drain(rest)
  }

  /** Shutting down a list of stream objects. */
  function ShutAll(streams: seq<StreamState>, order: seq<nat>): (r: seq<StreamState>)
    requires forall k :: 0 <= k < |order| ==> order[k] < |streams|
    ensures |r| == |streams|
    decreases |order|
  {
    if order == [] then streams
    else ShutAll(streams[order[0] := streams[order[0]].(shutdown := true)], order[1..])
  }

  lemma {:induction false} ShutAllAt(streams: seq<StreamState>, order: seq<nat>, h: nat)
    requires forall k :: 0 <= k < |order| ==> order[k] < |streams|
    requires h < |streams|
    ensures ShutAll(streams, order)[h] ==
            if h in order then streams[h].(shutdown := true) else streams[h]
    decreases |order|
  {
    if order != [] {
      ShutAllAt(streams[order[0] := streams[order[0]].(shutdown := true)], order[1..], h);
    }
  }

  /** What `close` does once it has begun: drain and signal, clear the table, shut the streams. */
  ghost function Finished(c: Connection): Connection
    requires Sending.Indexed(c.out)
  {
    RoutedInRange(c.inn.table, c.inn.streams);
    var order := Routed(c.inn.table, c.inn.streams, 0);
    Connection(
      Drain(c.out).(closing := Sending.Done, queue := [Sending.Sentinel]),
      Cleared(c.inn, []).(streams := ShutAll(c.inn.streams, order)))
  }

  /** `close` has taken the send lock and stopped the connection. */
  function Beginning(o: Sending.Outbound, code: nat): Sending.Outbound {
    o.(closing := Sending.DrainingQueue, closeCode := code, running := false)
  }

  /** All of `close`: only the first call does anything. */
  ghost function Closed(c: Connection, code: nat): Connection
    requires Sending.Indexed(c.out)
  {
    if !c.out.closing.NotStarted? then c
    else Finished(c.(out := Beginning(c.out, code)))
  }

  /** One turn of the receive loop for a frame that decoded, with the closing it may end in. */
  ghost function FrameTurn(c: Connection, frame: Frame): Connection
    requires Sending.Indexed(c.out)
  {
    var received := Received(c.inn, c.out.running, frame);
    var turned := if received.receiver.Delivering? && received.receiver.to < |received.streams| then Delivered(received) else received;
    match turned.receiver
    case Reclaiming(_, id) => c.(inn := turned.(table := turned.table - {id}, receiver := Listening))
    case Asking(code) => Closed(c.(inn := turned.(receiver := Stopped)), code)
    case _ => c.(inn := turned)
  }

  /** The writer's last acts: fail what is still queued, then leave. */
  ghost function WriterLeaves(c: Connection): Connection
    requires Sending.Indexed(c.out)
  {
    c.(out := Drain(c.out).(writer := Sending.Exited))
  }

  /** Frame `n`, just taken, is on the wire and its sender is woken. */
  function WithFrameSent(o: Sending.Outbound, n: nat): Sending.Outbound
    requires n < |o.items|
  {
    o.(written := o.written + [n], items := o.items[n := o.items[n].(done := o.items[n].blocking)],
       writer := Sending.Idle)
  }

  lemma NextIndexed(c: Connection, step: Step) returns (next: Connection)
    requires Reachable(c) && Enabled(c, step)
    ensures next == Apply(c, step) && Reachable(next) && Sending.Indexed(next.out)
  {
    next := ReachNext(c, step);
    ReachableSound(next);
    Sending.SoundIsIndexed(next.out);
  }

  lemma ReceiveReaches(c: Connection, frame: Frame)
    requires Reachable(c) && Sending.Indexed(c.out) && c.inn.receiver.Listening?
    ensures Reachable(c.(inn := Received(c.inn, c.out.running, frame)))
  {
    var _ := NextIndexed(c, Step.In(Receive(frame)));
  }

  /** The route table names opened streams, so a frame is only ever on its way to one. */
  lemma TargetExists(c: Connection, frame: Frame)
    requires Reachable(c) && c.inn.receiver.Listening?
    ensures var received := Received(c.inn, c.out.running, frame);
      received.receiver.Delivering? ==> received.receiver.to < |received.streams|
  {
    hide Reachable;
    ReachableSound(c);
    assert TableSound(c.inn);
  }

  lemma DeliverReaches(c: Connection)
    requires Reachable(c) && Sending.Indexed(c.out) && c.inn.receiver.Delivering?
    requires c.inn.receiver.to < |c.inn.streams|
    ensures Reachable(c.(inn := Delivered(c.inn)))
  {
    var _ := NextIndexed(c, Step.In(Deliver));
  }

  /** What a stream object sends carries its own id. */
  function MessageOf(i: Inbound, h: nat, kind: FrameType, data: seq<nat>): Sending.Message
    requires h < |i.streams|
  {
    Sending.Message(h, Frame(i.streams[h].id, kind, data))
  }

  /** The route of the conclusion's id is dropped. */
  function WithConclusion(c: Connection, n: nat): Inbound
    requires n < |c.out.items|
  {
    c.inn.(table := c.inn.table - {c.out.items[n].message.frame.stream}, concluded := c.inn.concluded + {n})
  }

  lemma ConcludeReaches(c: Connection, n: nat)
    requires Reachable(c) && Sending.Indexed(c.out) && MayConclude(c.out, n) && n !in c.inn.concluded
    ensures Reachable(c.(inn := WithConclusion(c, n)))
  {
    var _ := NextIndexed(c, Step.In(Conclude(n)));
  }

  lemma ShutReaches(c: Connection)
    requires Reachable(c) && Sending.Indexed(c.out) && c.inn.shutting != [] && c.inn.shutting[0] < |c.inn.streams|
    ensures Reachable(c.(inn := WithHeadShut(c.inn)))
  {
    var _ := NextIndexed(c, Step.In(Shut));
  }

  function WithHeadShut(i: Inbound): Inbound
    requires i.shutting != [] && i.shutting[0] < |i.streams|
  {
    var h := i.shutting[0];
    i.(streams := i.streams[h := i.streams[h].(shutdown := true)], shutting := i.shutting[1..])
  }

  lemma BeginReaches(c: Connection, code: nat)
    requires Reachable(c) && Sending.Indexed(c.out) && c.out.closing.NotStarted?
    ensures var next := c.(out := Beginning(c.out, code)); Reachable(next) && Sending.Indexed(next.out)
  {
    var _ := NextIndexed(c, Step.Out(Sending.BeginClose(code)));
  }

  lemma AskReaches(c: Connection)
    requires Reachable(c) && Sending.Indexed(c.out) && c.out.LockFree() && c.inn.receiver.Asking?
    ensures var code := c.inn.receiver.code;
            var next := Connection(if c.out.closing.NotStarted? then Beginning(c.out, code) else c.out,
                                   c.inn.(receiver := Stopped));
            Reachable(next) && Sending.Indexed(next.out)
  {
    var _ := NextIndexed(c, Step.In(ReceiverCloses));
  }

  lemma SendingReaches(c: Connection, n: nat)
    requires Reachable(c) && Sending.Indexed(c.out) && c.out.writer == Sending.Holding(n)
    requires n < |c.out.items| && c.out.running
    ensures var next := c.(out := WithFrameSent(c.out, n)); Reachable(next) && Sending.Indexed(next.out)
  {
    var checked := NextIndexed(c, Step.Out(Sending.WriterChecks));
    var sent := NextIndexed(checked, Step.Out(Sending.WriterSends));
    var _ := NextIndexed(sent, Step.Out(Sending.WriterConfirms));
  }

  function WithFrameFailed(o: Sending.Outbound, n: nat): Sending.Outbound
    requires n < |o.items|
  {
    o.FailItem(n).(writerError := true, running := false, writer := Sending.CallingClose)
  }

  /** A failed send: the frame fails, the error is recorded, the connection closes, the writer leaves. */
  ghost function WriterBreaks(c: Connection, n: nat): Connection
    requires Sending.Indexed(c.out) && n < |c.out.items|
  {
    var closed := Closed(c.(out := WithFrameFailed(c.out, n)), 1000);
    WriterLeaves(closed.(out := closed.out.(writer := Sending.Draining)))
  }

  lemma FailingReaches(c: Connection, n: nat)
    requires Reachable(c) && Sending.Indexed(c.out) && c.out.writer == Sending.Holding(n)
    requires n < |c.out.items| && c.out.LockFree()
    ensures var next := c.(out := WithFrameFailed(c.out, n)); Reachable(next) && Sending.Indexed(next.out)
  {
    var failed := NextIndexed(c, Step.Out(Sending.WriterChecks));
    if c.out.running {
      failed := NextIndexed(failed, Step.Out(Sending.WriterSendFails));
    }
    var _ := NextIndexed(failed, Step.Out(Sending.WriterRecordsError));
  }

  class MultiplexedConnection {
    const maxPending: int

    var items: seq<Sending.Item>
    var outbound: seq<Sending.Slot>
    var running: bool
    var writerError: bool
    var closing: Sending.Closing
    var closeCode: nat
    var writer: Sending.Writer
    ghost var sent: SendingHistory

    var nextId: nat
    var table: map<nat, nat>
    var streams: seq<StreamState>
    var pending: seq<nat>
    var cleared: bool
    var shutting: seq<nat>
    var receiver: Receiver
    ghost var heard: ReceivingHistory

    ghost function Out(): Sending.Outbound
      reads this
    {
      Sending.Outbound(items, outbound, sent.taken, sent.written, sent.answers, running, writerError, closing,
                       closeCode, writer)
    }

    ghost function In(): Inbound
      reads this
    {
      Inbound(nextId, table, streams, maxPending, pending, heard.accepted, heard.announced, cleared, shutting,
              receiver, heard.routes, heard.lost, heard.concluded)
    }

    ghost function Contents(): Connection
      reads this
    {
      Connection(Out(), In())
    }

    ghost predicate Valid()
      reads this
    {
      Reachable(Contents()) && Out().LockFree() && Sending.Indexed(Out())
    }

    constructor (maxPending: int)
      ensures Valid() && Contents() == NewConnection(maxPending)
    {
      this.maxPending := maxPending;
      items, outbound, running, writerError := [], [], true, false;
      closing, closeCode, writer := Sending.NotStarted, 1000, Sending.Idle;
      sent := SendingHistory(0, [], map[]);
      nextId, table, streams, pending := 2, map[], [], [];
      cleared, shutting, receiver := false, [], Listening;
      heard := ReceivingHistory([], [], [], None, {});
      new;
      assert IsRun(NewConnection(maxPending), [], Contents());
    }

    /** `open_stream`; without a stream when the connection cannot send. */
    method OpenStream() returns (h: Option<nat>)
      requires Valid()
      modifies this
      ensures Valid()
      ensures h == if old(Out().Available()) then Some(old(|streams|)) else None
      ensures Contents() == if h.Some? then Apply(old(Contents()), Step.In(Open)) else old(Contents())
    {
      if !running || writerError {
        return None;
      }
      var _ := ReachNext(Contents(), Step.In(Open));
      h := Some(|streams|);
      table := table[nextId := |streams|];
      streams := streams + [StreamState(nextId, true, [], false, [])];
      nextId := nextId + 2;
    }

    /** `accept_stream` when it need not wait: the next announced stream, or none after close. */
    method AcceptStream() returns (h: Option<nat>)
      requires Valid() && (pending != [] || cleared)
      modifies this
      ensures Valid()
      ensures h == if old(cleared) then None else Some(old(pending)[0])
      ensures Contents() == if h.Some? then Apply(old(Contents()), Step.In(Accept)) else old(Contents())
    {
      ReachableSound(Contents());
      if cleared {
        return None;
      }
      var _ := ReachNext(Contents(), Step.In(Accept));
      h := Some(pending[0]);
      heard := heard.(accepted := heard.accepted + [pending[0]]);
      pending := pending[1..];
    }

    /**
     * `recv` with a timeout that passes while the queue stays as it is: the oldest frame if
     * there is one, else the end of the stream if it has been shut.
     */
    method Recv(h: nat) returns (r: RecvResult)
      requires Valid() && h < |streams|
      modifies this
      ensures Valid()
      ensures r == if old(streams[h].queue) != [] then RecvResult.Got(old(streams[h].queue[0]))
                   else if old(streams[h].shutdown) then EndOfStream else TimedOut
      ensures Contents() == if r.Got? then Apply(old(Contents()), Step.In(Consume(h))) else old(Contents())
    {
      var s := streams[h];
      if s.queue == [] {
        return if s.shutdown then EndOfStream else TimedOut;
      }
      var _ := ReachNext(Contents(), Step.In(Consume(h)));
      r := RecvResult.Got(s.queue[0]);
      streams := streams[h := s.(consumed := s.consumed + [s.queue[0]], queue := s.queue[1..])];
    }

    /** One attempt of stream `h` to queue a frame, blocking or not. */
    method Put(h: nat, kind: FrameType, data: seq<nat>, blocking: bool) returns (r: PutResult)
      requires Valid() && h < |streams|
      modifies this
      ensures Valid()
      ensures r == if !old(Out().Available()) then Unavailable
                   else if old(Out().Full()) then QueueFull else Accepted(old(|items|))
      ensures Contents() == if r.Accepted? then Apply(old(Contents()), Step.Out(Sending.Put(MessageOf(old(In()), h, kind, data), blocking)))
                            else old(Contents())
    {
      if !running || writerError {
        return Unavailable;
      }
      if |outbound| >= Sending.OUTBOUND_QUEUE_SIZE {
        return QueueFull;
      }
      SoundIndexed();
      var message := Sending.Message(h, Frame(streams[h].id, kind, data));
      var _ := ReachNext(Contents(), Step.Out(Sending.Put(message, blocking)));
      r := Accepted(|items|);
      outbound := outbound + [Sending.Queued(|items|)];
      items := items + [Sending.Item(message, blocking, false, false)];
    }

    /** `send_nowait`: queue the frame without waiting, and drop the route after a conclusion. */
    method SendNowait(h: nat, kind: FrameType, data: seq<nat>) returns (queued: bool)
      requires Valid() && h < |streams|
      modifies this
      ensures Valid()
      ensures queued <==> old(Out().Available()) && !old(Out().Full())
      ensures !queued ==> Contents() == old(Contents())
      ensures queued ==>
                var put := Apply(old(Contents()), Step.Out(Sending.Put(MessageOf(old(In()), h, kind, data), false)));
                Contents() == if kind.Conclusion? then put.(inn := WithConclusion(put, old(|items|))) else put
    {
      ReachableSound(Contents());
      hide Reachable, Sound;
      var put := Put(h, kind, data, false);
      queued := put.Accepted?;
      if queued && kind.Conclusion? {
        ConcludeStream(put.n);
      }
    }

    /** The part of a send that drops the route, after a conclusion has been sent. */
    method ConcludeStream(n: nat)
      requires Valid() && MayConclude(Out(), n) && n !in heard.concluded
      modifies this
      ensures Valid() && Contents() == old(Contents()).(inn := WithConclusion(old(Contents()), n))
    {
      hide Reachable;
      ConcludeReaches(Contents(), n);
      table := table - {items[n].message.frame.stream};
      heard := heard.(concluded := heard.concluded + {n});
    }

    lemma SoundIndexed()
      requires Reachable(Contents())
      ensures Sending.Sound(Out()) && Sending.Indexed(Out())
    {
      ReachableSound(Contents());
      Sending.SoundIsIndexed(Out());
    }

    /** One turn of `_wait_for_write`: no answer means that the sender polls again. */
    method PollWrite(n: nat) returns (r: Option<Sending.Answer>)
      requires Valid() && Sending.Awaits(Out(), n)
      modifies this
      ensures Valid()
      ensures r == if old(items[n].done) then Some(if old(items[n].failed) then Sending.Raised else Sending.Returned)
                   else if old(Out().Available()) then None else Some(Sending.Raised)
      ensures Contents() == if r.None? then old(Contents())
                            else Apply(old(Contents()), Step.Out(PollStep(old(Out()), n)))
    {
      SoundIndexed();
      if items[n].done {
        if items[n].failed {
          var _ := ReachNext(Contents(), Step.Out(Sending.SenderRaises(n)));
          r, sent := Some(Sending.Raised), sent.(answers := sent.answers[n := Sending.Raised]);
        } else {
          var _ := ReachNext(Contents(), Step.Out(Sending.SenderReturns(n)));
          r, sent := Some(Sending.Returned), sent.(answers := sent.answers[n := Sending.Returned]);
        }
      } else if writerError || !running {
        var _ := ReachNext(Contents(), Step.Out(Sending.SenderGivesUp(n)));
        r, sent := Some(Sending.Raised), sent.(answers := sent.answers[n := Sending.Raised]);
      } else {
        r := None;
      }
    }

    /** `_fail_pending_sends`, called in the close section or by the leaving writer. */
    method FailPendingSends()
      requires Reachable(Contents()) && Sending.Indexed(Out())
      requires closing.DrainingQueue? || writer.Draining?
      modifies this
      ensures Reachable(Contents()) && Sending.Indexed(Out())
      ensures Contents() == old(Contents()).(out := Drain(old(Out())))
    {
      while outbound != []
        invariant Reachable(Contents()) && Sending.Indexed(Out())
        invariant closing == old(closing) && writer == old(writer)
        invariant Drain(Out()) == Drain(old(Out())) && In() == old(In())
        decreases |outbound|
      {
        FailHead();
      }
    }

    method FailHead()
      requires Reachable(Contents()) && Sending.Indexed(Out()) && outbound != []
      requires closing.DrainingQueue? || writer.Draining?
      modifies this
      ensures Reachable(Contents()) && Sending.Indexed(Out())
      ensures Contents() == old(Contents()).(out := old(Out()).FailHead())
    {
      hide Reachable, InEnabled, InApply, Sending.Sound;
      ghost var step := if closing.DrainingQueue? then Sending.CloseDrains else Sending.WriterDrains;
      var _ := NextIndexed(Contents(), Step.Out(step));
      var head := outbound[0];
      outbound := outbound[1..];
      if head.Queued? {
        items := items[head.n := items[head.n].(failed := true, done := items[head.n].blocking)];
        sent := sent.(taken := sent.taken + 1);
      }
    }

    /** `close`: the section under the send lock, then the table, then the streams. */
    method Close(code: nat)
      requires Valid()
      modifies this
      ensures Valid() && closing.Done?
      ensures Contents() == Closed(old(Contents()), code)
    {
      if !closing.NotStarted? {
        return;
      }
      hide Reachable, Finished;
      BeginReaches(Contents(), code);
      closing, closeCode, running := Sending.DrainingQueue, code, false;
      FinishClose();
    }

    method FinishClose()
      requires Reachable(Contents()) && Sending.Indexed(Out()) && closing.DrainingQueue?
      modifies this
      ensures Valid() && closing.Done? && receiver == old(receiver)
      ensures Contents() == Finished(old(Contents()))
    {
      ReachableSound(Contents());
      RoutedInRange(table, streams);
      hide Reachable, InEnabled, InApply, InSound, Sending.Sound;
      FailPendingSends();
      SignalWriter();
      ClearTable();
      ShutStreams();
    }

    /** With the queue drained, the stop signal is put without waiting. */
    method SignalWriter()
      requires Reachable(Contents()) && Sending.Indexed(Out()) && closing.DrainingQueue? && outbound == []
      modifies this
      ensures Valid()
      ensures Contents() == old(Contents()).(out := old(Out()).(closing := Sending.Done, queue := [Sending.Sentinel]))
    {
      hide Reachable, InEnabled, InApply, Sending.Sound;
      var _ := NextIndexed(Contents(), Step.Out(Sending.CloseDrained));
      closing := Sending.Drained;
      var _ := NextIndexed(Contents(), Step.Out(Sending.CloseSignals));
      closing := Sending.Done;
      if |outbound| < Sending.OUTBOUND_QUEUE_SIZE {
        outbound := outbound + [Sending.Sentinel];
      }
    }

    method ClearTable()
      requires Valid() && closing.Done? && !cleared
      modifies this
      ensures Valid()
      ensures Contents() == old(Contents()).(inn := Cleared(old(In()), Routed(old(table), old(streams), 0)))
    {
      var _ := NextIndexed(Contents(), Step.In(Clear));
      shutting := Routed(table, streams, 0);
      table, pending, cleared := map[], [], true;
    }

    method ShutStreams()
      requires Valid() && forall k :: 0 <= k < |shutting| ==> shutting[k] < |streams|
      modifies this
      ensures Valid()
      ensures Contents() == old(Contents()).(inn := old(In()).(shutting := [], streams := ShutAll(old(streams), old(shutting))))
    {
      hide Reachable;
      while shutting != []
        invariant Valid() && forall k :: 0 <= k < |shutting| ==> shutting[k] < |streams|
        invariant ShutAll(streams, shutting) == ShutAll(old(streams), old(shutting))
        invariant Contents() == old(Contents()).(inn := old(In()).(shutting := shutting, streams := streams))
        decreases |shutting|
      {
        ShutReaches(Contents());
        var h := shutting[0];
        streams, shutting := streams[h := streams[h].(shutdown := true)], shutting[1..];
      }
    }

    /** One turn of the receive loop. */
    method HandleFrame(frame: Frame) returns (again: bool)
      requires Valid() && receiver.Listening?
      modifies this
      ensures Valid() && Contents() == FrameTurn(old(Contents()), frame)
      ensures again <==> receiver.Listening?
    {
      TargetExists(Contents(), frame);
      hide Reachable, Received, Delivered, Closed, Sending.Indexed;
      RouteFrame(frame);
      if receiver.Delivering? {
        PutIncoming();
      }
      if receiver.Reclaiming? {
        ReclaimRoute();
      } else if receiver.Asking? {
        AskToClose();
      }
      again := receiver.Listening?;
    }

    /** After a conclusion the id is free to be routed anew. */
    method ReclaimRoute()
      requires Valid() && receiver.Reclaiming?
      modifies this
      ensures Valid()
      ensures Contents() == old(Contents()).(inn := old(In()).(table := old(table) - {old(receiver).id}, receiver := Listening))
    {
      var _ := NextIndexed(Contents(), Step.In(Reclaim));
      table, receiver := table - {receiver.id}, Listening;
    }

    /** The receive loop calls `close` with its own code and ends. */
    method AskToClose()
      requires Valid() && receiver.Asking?
      modifies this
      ensures Valid() && receiver.Stopped?
      ensures Contents() == Closed(old(Contents()).(inn := old(In()).(receiver := Stopped)), old(receiver).code)
    {
      hide Reachable;
      var code := receiver.code;
      AskReaches(Contents());
      receiver := Stopped;
      if closing.NotStarted? {
        closing, closeCode, running := Sending.DrainingQueue, code, false;
        FinishClose();
      }
    }

    /** The region of the receive loop under the table lock. */
    method RouteFrame(frame: Frame)
      requires Valid() && receiver.Listening?
      modifies this
      ensures Valid()
      ensures Contents() == old(Contents()).(inn := Received(old(In()), old(running), frame))
    {
      hide Reachable, Sending.Indexed, PeerOpened;
      ReceiveReaches(Contents(), frame);
      if !running {
        receiver := Asking(1000);
        return;
      }
      if frame.stream in table {
        var h := table[frame.stream];
        receiver, heard := Delivering(h, frame), heard.(routes := heard.routes + [Route(h, frame)]);
      } else if frame.stream % 2 == 0 {
        receiver := Asking(1002);
      } else if frame.kind.Process? {
        OpenPeerStream(frame);
      }
    }

    /** The peer's first frame for an id announces a stream, or finds too many unaccepted ones. */
    method OpenPeerStream(frame: Frame)
      modifies this
      ensures Out() == old(Out()) && In() == PeerOpened(old(In()), frame)
    {
      var h := |streams|;
      var room := maxPending <= 0 || |pending| < maxPending;
      table, streams := table[frame.stream := h], streams + [StreamState(frame.stream, false, [], false, [])];
      ghost var routes := heard.routes + [Route(h, frame)];
      if room {
        pending, receiver := pending + [h], Delivering(h, frame);
        heard := heard.(routes := routes, announced := heard.announced + [h]);
      } else {
        receiver, heard := Asking(1013), heard.(routes := routes, lost := Some(Route(h, frame)));
      }
    }

    /** `_put_incoming_frame` on the stream found, outside every lock of the connection. */
    method PutIncoming()
      requires Valid() && receiver.Delivering? && receiver.to < |streams|
      modifies this
      ensures Valid()
      ensures Contents() == old(Contents()).(inn := Delivered(old(In())))
    {
      hide Reachable, Sending.Indexed;
      DeliverReaches(Contents());
      var h, frame := receiver.to, receiver.frame;
      var s := streams[h];
      if s.shutdown {
        receiver, heard := Asking(1000), heard.(lost := Some(Route(h, frame)));
      } else if |s.queue| >= MAX_PENDING_FRAMES_PER_STREAM {
        receiver, heard := Asking(1013), heard.(lost := Some(Route(h, frame)));
      } else {
        streams := streams[h := s.(queue := s.queue + [frame])];
        receiver := if frame.kind.Conclusion? then Reclaiming(h, frame.stream) else Listening;
      }
    }

    /** One turn of the writer with an entry to take; `accepted` says whether the socket takes the frame. */
    method WriteNext(accepted: bool) returns (alive: bool)
      requires Valid() && writer.Idle? && outbound != []
      modifies this
      ensures Valid()
      ensures alive <==> old(outbound[0]).Queued? && old(running) && accepted
      ensures var o := old(Out()).(queue := old(outbound)[1..]);
              Contents() == match old(outbound[0])
                case Sentinel => WriterLeaves(old(Contents()).(out := o.(writer := Sending.Draining)))
                case Queued(n) => if alive then old(Contents()).(out := WithFrameSent(o.(taken := o.taken + 1), n))
                                  else WriterBreaks(old(Contents()).(out := o.(taken := o.taken + 1)), n)
    {
      hide Reachable, WriterLeaves;
      alive := TakeNext();
      if !alive {
        Leave();
      } else if running && accepted {
        SendTaken();
      } else {
        BreakDown();
        alive := false;
      }
    }

    method TakeNext() returns (frame: bool)
      requires Valid() && writer.Idle? && outbound != []
      modifies this
      ensures Valid() && frame == old(outbound[0]).Queued?
      ensures Contents() == Apply(old(Contents()), Step.Out(Sending.WriterGets))
    {
      hide Reachable, InApply, InEnabled;
      var _ := NextIndexed(Contents(), Step.Out(Sending.WriterGets));
      frame := outbound[0].Queued?;
      if frame {
        writer, sent := Sending.Holding(outbound[0].n), sent.(taken := sent.taken + 1);
      } else {
        writer := Sending.Draining;
      }
      outbound := outbound[1..];
    }

    /** The socket accepts the frame in hand, and its sender is woken. */
    method SendTaken()
      requires Valid() && writer.Holding? && writer.n < |items| && running
      modifies this
      ensures Valid() && Contents() == old(Contents()).(out := WithFrameSent(old(Out()), old(writer).n))
    {
      hide Reachable, Sending.Indexed;
      var n := writer.n;
      SendingReaches(Contents(), n);
      sent := sent.(written := sent.written + [n]);
      items := items[n := items[n].(done := items[n].blocking)];
      writer := Sending.Idle;
    }

    /** Either the connection stopped or the socket failed: the frame in hand fails with it. */
    method FailTaken()
      requires Valid() && writer.Holding? && writer.n < |items|
      modifies this
      ensures Valid() && Contents() == old(Contents()).(out := WithFrameFailed(old(Out()), old(writer).n))
    {
      hide Reachable, Sending.Indexed;
      var n := writer.n;
      FailingReaches(Contents(), n);
      items := items[n := items[n].(failed := true, done := items[n].blocking)];
      writerError, running, writer := true, false, Sending.CallingClose;
    }

    method BreakDown()
      requires Valid() && writer.Holding? && writer.n < |items|
      modifies this
      ensures Valid()
      ensures Contents() == WriterBreaks(old(Contents()), old(writer).n)
    {
      hide Reachable, WriterLeaves, InApply, InEnabled;
      FailTaken();
      Close(1000);
      var _ := NextIndexed(Contents(), Step.Out(Sending.WriterStartsDrain));
      writer := Sending.Draining;
      Leave();
    }

    method Leave()
      requires Valid() && writer.Draining?
      modifies this
      ensures Valid() && Contents() == WriterLeaves(old(Contents()))
    {
      hide Reachable, InApply, InEnabled;
      FailPendingSends();
      var _ := NextIndexed(Contents(), Step.Out(Sending.WriterExits));
      writer := Sending.Exited;
    }
  }
}
