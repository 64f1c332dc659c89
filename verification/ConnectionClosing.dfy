/** Why a connection closes, with which code, what is lost, and what is still written afterwards. */
module ConnectionClosing {
  import opened Options
  import opened FrameCodec
  import Sending = OutboundQueue
  import opened InboundRouting
  import opened Multiplexer

  // ----- The receive loop -----

  /** The frame's id is not routed and a client may not open it. */
  predicate OpensReserved(i: Inbound, frame: Frame) {
    frame.stream !in i.table && frame.stream % 2 == 0
  }

  /** The frame opens a stream although as many as allowed wait to be accepted. */
  predicate OpensTooMany(i: Inbound, frame: Frame) {
    frame.stream !in i.table && frame.stream % 2 == 1 && frame.kind.Process? && 0 < i.maxPending && i.maxPending <= |i.pending|
  }

  /**
   * The receive loop asks to close exactly in these cases and with these codes: 1000 once the
   * connection or the stream is shut, 1002 for a reserved id, 1013 for too many streams or too many
   * frames of one stream, and the code of a frame that does not decode.
   */
  lemma LoopEndsExactly(c: Connection, step: Step, code: nat)
    requires Reachable(c) && Enabled(c, step)
    ensures var i, running := c.inn, c.out.running;
      i.receiver != Asking(code) && Apply(c, step).inn.receiver == Asking(code) <==>
      && step.In?
      && (|| (step.inn.Receive? && !running && code == 1000)
          || (step.inn.Receive? && running && OpensReserved(i, step.inn.frame) && code == 1002)
          || (step.inn.Receive? && running && OpensTooMany(i, step.inn.frame) && code == 1013)
          || (step.inn.Deliver? && i.streams[i.receiver.to].shutdown && code == 1000)
          || (step.inn.Deliver? && !i.streams[i.receiver.to].shutdown && |i.streams[i.receiver.to].queue| == 128 && code == 1013)
          || (step.inn.ReceiveFails? && step.inn.code == code))
  {
    ReachableSound(c);
    assert StreamsSound(c.inn);
    hide Reachable, Sound, Sending.Enabled, Sending.Apply, Routed, StreamsSound;
    if step.In? && step.inn.Deliver? {
      assert |c.inn.streams[c.inn.receiver.to].queue| <= 128 by { QueueFits(c.inn, c.inn.receiver.to); }
    }
  }

  lemma QueueFits(i: Inbound, h: nat)
    requires StreamsSound(i) && h < |i.streams|
    ensures |i.streams[h].queue| <= 128
  {
  }

  /** A frame is lost exactly when the loop ends over it, on a shut or full stream or without room to announce it. */
  lemma FrameLostExactly(c: Connection, step: Step)
    requires Reachable(c) && Enabled(c, step)
    ensures var i, lost := c.inn, Apply(c, step).inn.lost;
      && (lost != i.lost ==>
            && step.In?
            && (|| (step.inn.Receive? && c.out.running && OpensTooMany(i, step.inn.frame)
                    && lost.Some? && lost.value.frame == step.inn.frame)
                || (step.inn.Deliver? && (i.streams[i.receiver.to].shutdown || |i.streams[i.receiver.to].queue| == 128)
                    && lost == Some(Route(i.receiver.to, i.receiver.frame)))))
      && (step.In? && step.inn.Receive? && c.out.running && OpensTooMany(i, step.inn.frame) ==>
            lost == Some(Route(|i.streams|, step.inn.frame)))
      && (step.In? && step.inn.Deliver? && (i.streams[i.receiver.to].shutdown || |i.streams[i.receiver.to].queue| == 128) ==>
            lost == Some(Route(i.receiver.to, i.receiver.frame)))
  {
    ReachableSound(c);
    assert StreamsSound(c.inn);
    hide Reachable, Sound, Sending.Enabled, Sending.Apply, Routed, StreamsSound;
    if step.In? && step.inn.Deliver? {
      QueueFits(c.inn, c.inn.receiver.to);
    }
  }

  // ----- The close code -----

  /** The step is the call of `close` that counts. */
  predicate Closes(c: Connection, step: Step) {
    c.out.closing.NotStarted? && ((step.Out? && step.out.BeginClose?) || (step.In? && step.inn.ReceiverCloses?))
  }

  function CodeOf(c: Connection, step: Step): nat
    requires Enabled(c, step) && Closes(c, step)
  {
    if step.Out? then step.out.code else c.inn.receiver.code
  }

  /** The close code is set by the first call of all and by no other step. */
  lemma CloseCodeStep(c: Connection, step: Step)
    requires Enabled(c, step)
    ensures var o, after := c.out, Apply(c, step).out;
      && (Closes(c, step) ==> after.closeCode == CodeOf(c, step) && !after.running && !after.closing.NotStarted?)
      && (!Closes(c, step) ==> after.closeCode == o.closeCode && (after.closing.NotStarted? <==> o.closing.NotStarted?))
      && (!o.running ==> !after.running)
  {
    hide InApply, InEnabled;
    if step.Out? {
      SendingCloseStep(c.out, step.out);
      hide Sending.Apply, Sending.Enabled;
    }
  }

  lemma SendingCloseStep(o: Sending.Outbound, step: Sending.OutboundStep)
    requires Sending.Enabled(o, step)
    ensures var after := Sending.Apply(o, step);
      && (step.BeginClose? ==> o.closing.NotStarted? && after.closeCode == step.code && !after.running && !after.closing.NotStarted?)
      && (!step.BeginClose? ==> after.closeCode == o.closeCode && (after.closing.NotStarted? <==> o.closing.NotStarted?))
      && (!o.running ==> !after.running)
  {
  }

  lemma {:induction false} ClosedStaysClosed(c: Connection, steps: seq<Step>, end: Connection)
    requires IsRun(c, steps, end) && !c.out.closing.NotStarted? && !c.out.running
    ensures end.out.closeCode == c.out.closeCode && !end.out.closing.NotStarted? && !end.out.running
    decreases |steps|
  {
    if steps != [] {
      CloseCodeStep(c, steps[0]);
      hide Apply, Enabled;
      ClosedStaysClosed(Apply(c, steps[0]), steps[1..], end);
    }
  }

  /** Over any run the code of the first close stays, whoever closes again and with what. */
  lemma FirstCloseDecides(c: Connection, step: Step, steps: seq<Step>, end: Connection)
    requires Enabled(c, step) && Closes(c, step) && IsRun(Apply(c, step), steps, end)
    ensures end.out.closeCode == CodeOf(c, step) && !end.out.running
  {
    CloseCodeStep(c, step);
    hide Apply, Enabled;
    ClosedStaysClosed(Apply(c, step), steps, end);
  }

  /** A connection that nobody has closed keeps the code it starts with. */
  lemma {:induction false} UnclosedIsNormal(c: Connection, steps: seq<Step>, end: Connection)
    requires IsRun(c, steps, end) && end.out.closing.NotStarted?
    ensures c.out.closing.NotStarted? && end.out.closeCode == c.out.closeCode
    decreases |steps|
  {
    if steps != [] {
      CloseCodeStep(c, steps[0]);
      hide Apply, Enabled;
      UnclosedIsNormal(Apply(c, steps[0]), steps[1..], end);
    }
  }

  // ----- Sending -----

  /** A frame is queued exactly while the connection runs, the send lock is free and fewer than 1024 entries wait. */
  lemma PutEnabledExactly(c: Connection, message: Sending.Message, blocking: bool)
    requires Reachable(c)
    ensures Enabled(c, Out(Sending.Put(message, blocking))) <==>
            && c.out.running && !c.out.writerError && |c.out.queue| < 1024
            && (c.out.closing.NotStarted? || c.out.closing.Done?)
            && message.from < |c.inn.streams| && c.inn.streams[message.from].id == message.frame.stream
  {
    ReachableSound(c);
    Sending.SoundIsIndexed(c.out);
  }


  /** The frame that the writer is passing to the socket. */
  function Passing(o: Sending.Outbound): seq<nat> {
    if o.writer.Sending? then [o.writer.n] else []
  }

  lemma StoppedStep(o: Sending.Outbound, step: Sending.OutboundStep)
    requires Sending.Enabled(o, step) && !o.running
    ensures var next := Sending.Apply(o, step);
      && !next.running && next.written + Passing(next) <= o.written + Passing(o) && o.written <= next.written
  {
  }

  /** Once the connection has stopped, only a frame that the writer was already passing on is still written. */
  lemma {:induction false} StoppedWritesAtMostOne(o: Sending.Outbound, steps: seq<Sending.OutboundStep>, end: Sending.Outbound)
    requires Sending.IsRun(o, steps, end) && !o.running
    ensures !end.running && (end.written == o.written || end.written == o.written + Passing(o))
    decreases |steps|
  {
    if steps != [] {
      var next := Sending.Apply(o, steps[0]);
      StoppedStep(o, steps[0]);
      hide Sending.Apply, Sending.Enabled;
      StoppedWritesAtMostOne(next, steps[1..], end);
      assert end.written + Passing(end) <= o.written + Passing(o) || end.written == next.written || end.written == next.written + Passing(next);
      assert |o.written| <= |end.written| <= |o.written + Passing(o)|;
    }
  }

  // ----- Stream numbers -----

  function LocalCount(streams: seq<StreamState>): nat {
    if streams == [] then 0
    else LocalCount(streams[..|streams| - 1]) + if streams[|streams| - 1].local then 1 else 0
  }

  /** Server streams are numbered 2, 4, 6 and so on, in the order in which they are opened. */
  ghost predicate Numbered(i: Inbound) {
    && i.nextId == 2 + 2 * LocalCount(i.streams)
    && forall h :: 0 <= h < |i.streams| && i.streams[h].local ==> i.streams[h].id == 2 + 2 * LocalCount(i.streams[..h])
  }

  lemma {:induction false} LocalCountOf(a: seq<StreamState>, b: seq<StreamState>)
    requires |a| == |b| && forall h :: 0 <= h < |a| ==> a[h].local == b[h].local
    ensures LocalCount(a) == LocalCount(b)
  {
    if a != [] {
      LocalCountOf(a[..|a| - 1], b[..|b| - 1]);
    }
  }

  lemma StreamsChange(i: Inbound, o: Sending.Outbound, step: InboundStep)
    requires InEnabled(i, o, step)
    ensures var next := InApply(i, o, step);
      && |i.streams| <= |next.streams| <= |i.streams| + 1
      && (forall h :: 0 <= h < |i.streams| ==> next.streams[h].id == i.streams[h].id && next.streams[h].local == i.streams[h].local)
      && next.nextId == (if step.Open? then i.nextId + 2 else i.nextId)
      && (step.Open? ==> |next.streams| > |i.streams|)
      && (|next.streams| > |i.streams| ==>
            var s := next.streams[|i.streams|]; (s.local <==> step.Open?) && (step.Open? ==> s.id == i.nextId))
  {
    hide Routed;
  }

  lemma NumberingStep(i: Inbound, o: Sending.Outbound, step: InboundStep)
    requires InEnabled(i, o, step) && Numbered(i)
    ensures Numbered(InApply(i, o, step))
  {
    StreamsChange(i, o, step);
    var next := InApply(i, o, step);
    hide InApply, InEnabled;
    var prior := next.streams[..|i.streams|];
    LocalCountOf(i.streams, prior);
    if |next.streams| == |i.streams| {
      assert next.streams == prior;
    }
    forall h | 0 <= h < |next.streams| && next.streams[h].local
      ensures next.streams[h].id == 2 + 2 * LocalCount(next.streams[..h])
    {
      if h < |i.streams| {
        LocalCountOf(i.streams[..h], next.streams[..h]);
      }
    }
  }

  lemma {:induction false} RunNumbers(c: Connection, steps: seq<Step>, end: Connection)
    requires IsRun(c, steps, end) && Numbered(c.inn)
    ensures Numbered(end.inn)
    decreases |steps|
  {
    if steps != [] {
      if steps[0].In? {
        NumberingStep(c.inn, c.out, steps[0].inn);
      }
      hide InApply, InEnabled, Sending.Apply, Sending.Enabled, Numbered;
      RunNumbers(Apply(c, steps[0]), steps[1..], end);
    }
  }

  lemma StreamsAreNumbered(c: Connection, h: nat)
    requires Reachable(c) && h < |c.inn.streams| && c.inn.streams[h].local
    ensures c.inn.streams[h].id == 2 + 2 * LocalCount(c.inn.streams[..h])
  {
    var maxPending, steps :| IsRun(NewConnection(maxPending), steps, c);
    RunNumbers(NewConnection(maxPending), steps, c);
  }
}
