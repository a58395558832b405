/** What ends a run: for each assertion, exception or undefined read, exactly which step in which state
    runs into it. */
module Halts {
  import opened Prelude
  import opened Packets
  import opened Framing
  import opened Messages
  import opened Runtime
  import opened Protocol

  // ---------------------------------------------------------------------------------------
  // A batch of packets
  // ---------------------------------------------------------------------------------------

  /** A type that the packet dispatch asserts it does not get. */
  predicate Foreign(p: Packet) { p.ptype == Handshake || p.ptype == HandshakeAck }

  /** A packet that takes an established connection down. */
  predicate Breaks(p: Packet, codeToRoute: map<int, string>, inflate: Bytes -> Option<Bytes>) {
    p.ptype == Kick || (p.ptype == Data && Messages.Decode(p.body, codeToRoute, inflate).Malformed?)
  }

  /** A message on which the decoder reads or shifts out of range. */
  predicate Undecodable(p: Packet) {
    p.ptype == Data && (IdOverruns(p.body) || RouteCutOff(p.body))
  }

  /** The connection is established and the packets before the i-th leave it so. */
  ghost predicate StillUp(st: State, ps: seq<Packet>, i: nat, inflate: Bytes -> Option<Bytes>)
    requires i <= |ps|
  {
    st.Connected? && forall j :: 0 <= j < i ==> !Breaks(ps[j], st.codeToRoute, inflate)
  }

  /** The i-th packet would end the run. */
  ghost predicate Fatal(st: State, ps: seq<Packet>, i: nat, inflate: Bytes -> Option<Bytes>)
    requires i < |ps|
  {
    Foreign(ps[i]) || (StillUp(st, ps, i, inflate) && Undecodable(ps[i]))
  }

  ghost predicate FirstFatal(st: State, ps: seq<Packet>, i: nat, inflate: Bytes -> Option<Bytes>) {
    i < |ps| && Fatal(st, ps, i, inflate) && forall j :: 0 <= j < i ==> !Fatal(st, ps, j, inflate)
  }

  ghost predicate NoneFatal(st: State, ps: seq<Packet>, inflate: Bytes -> Option<Bytes>) {
    forall j :: 0 <= j < |ps| ==> !Fatal(st, ps, j, inflate)
  }

  lemma OnePacketHalts(c: Conn, p: Packet, inflate: Bytes -> Option<Bytes>)
    requires c.halted.None?
    ensures var d := ProcessPacket(c, p, inflate);
            && d.halted == (if Foreign(p) then Some(UnexpectedPacket)
                            else if c.state.Connected? && Undecodable(p) then Some(UndefinedDecode) else None)
            && (d.halted.None? ==>
                  && (d.state.Connected? <==> c.state.Connected? && !Breaks(p, c.state.codeToRoute, inflate))
                  && (d.state.Connected? ==> d.state.codeToRoute == c.state.codeToRoute))
  {
    if p.ptype == Data && c.state.Connected? {
      DecodeUndefinedIff(p.body, c.state.codeToRoute, inflate);
    }
  }

  /** The outcome of a batch: up to its first fatal packet, or to the end. */
  ghost predicate RunsTo(c: Conn, d: Conn, ps: seq<Packet>, inflate: Bytes -> Option<Bytes>) {
    && (forall i: nat :: FirstFatal(c.state, ps, i, inflate) ==>
          d.halted == Some(if Foreign(ps[i]) then UnexpectedPacket else UndefinedDecode))
    && (NoneFatal(c.state, ps, inflate) ==>
          && d.halted.None?
          && (d.state.Connected? <==> StillUp(c.state, ps, |ps|, inflate))
          && (d.state.Connected? ==> d.state.codeToRoute == c.state.codeToRoute))
  }

  lemma SameInPrefix(st: State, ps: seq<Packet>, n: nat, inflate: Bytes -> Option<Bytes>)
    requires n <= |ps|
    ensures forall i :: 0 <= i <= n ==> StillUp(st, ps[..n], i, inflate) == StillUp(st, ps, i, inflate)
    ensures forall i :: 0 <= i < n ==> Fatal(st, ps[..n], i, inflate) == Fatal(st, ps, i, inflate)
  {
  }

  /** One more packet behind a batch without a fatal one. */
  lemma OneMoreRuns(c: Conn, d: Conn, ps: seq<Packet>, inflate: Bytes -> Option<Bytes>)
    requires ps != [] && NoneFatal(c.state, ps[..|ps| - 1], inflate) && RunsTo(c, d, ps[..|ps| - 1], inflate)
    ensures RunsTo(c, ProcessPacket(d, ps[|ps| - 1], inflate), ps, inflate)
  {
    var n := |ps| - 1;
    SameInPrefix(c.state, ps, n, inflate);
    OnePacketHalts(d, ps[n], inflate);
    assert Fatal(c.state, ps, n, inflate) <==> Foreign(ps[n]) || (d.state.Connected? && Undecodable(ps[n]));
    assert forall i: nat :: FirstFatal(c.state, ps, i, inflate) ==> i == n;
  }

  /** A batch runs up to its first fatal packet. */
  lemma {:induction false} BatchRuns(c: Conn, ps: seq<Packet>, inflate: Bytes -> Option<Bytes>)
    requires c.halted.None?
    ensures RunsTo(c, ProcessPackets(c, ps, inflate), ps, inflate)
  {
    if ps != [] {
      var init := ps[..|ps| - 1];
      var d := ProcessPackets(c, init, inflate);
      BatchRuns(c, init, inflate);
      if NoneFatal(c.state, init, inflate) {
        OneMoreRuns(c, d, ps, inflate);
      } else {
        var k := FindFatal(c.state, init, |init|, inflate);
        HaltedRuns(c, d, ps, k, inflate);
      }
    }
  }

  /** A batch whose front ends the run. */
  lemma HaltedRuns(c: Conn, d: Conn, ps: seq<Packet>, k: nat, inflate: Bytes -> Option<Bytes>)
    requires ps != [] && FirstFatal(c.state, ps[..|ps| - 1], k, inflate) && RunsTo(c, d, ps[..|ps| - 1], inflate)
    ensures d.halted.Some? && RunsTo(c, d, ps, inflate)
  {
    SameInPrefix(c.state, ps, |ps| - 1, inflate);
    assert FirstFatal(c.state, ps, k, inflate);
    assert forall i: nat :: FirstFatal(c.state, ps, i, inflate) ==> i == k;
  }

  lemma {:induction false} FindFatal(st: State, ps: seq<Packet>, n: nat, inflate: Bytes -> Option<Bytes>)
    returns (i: nat)
    requires n <= |ps| && exists j :: 0 <= j < n && Fatal(st, ps, j, inflate)
    ensures FirstFatal(st, ps, i, inflate)
  {
    if exists j :: 0 <= j < n - 1 && Fatal(st, ps, j, inflate) {
      i := FindFatal(st, ps, n - 1, inflate);
    } else {
      i := n - 1;
    }
  }

  /** The first fatal packet ends the run in this way. */
  ghost predicate FatalBatch(st: State, ps: seq<Packet>, inflate: Bytes -> Option<Bytes>, h: Halt) {
    exists i: nat ::
      FirstFatal(st, ps, i, inflate) && h == if Foreign(ps[i]) then UnexpectedPacket else UndefinedDecode
  }

  lemma BatchHaltsIff(c: Conn, ps: seq<Packet>, inflate: Bytes -> Option<Bytes>, h: Halt)
    requires c.halted.None?
    ensures ProcessPackets(c, ps, inflate).halted == Some(h) <==> FatalBatch(c.state, ps, inflate, h)
  {
    BatchRuns(c, ps, inflate);
    if !NoneFatal(c.state, ps, inflate) {
      var i := FindFatal(c.state, ps, |ps|, inflate);
    }
  }

  // ---------------------------------------------------------------------------------------
  // A step
  // ---------------------------------------------------------------------------------------

  /** The packets that a step passes to the receive handler. */
  function Delivered(c: Conn, s: Step): seq<Packet> {
    if s.ReceiveStep? && s.result.ReadBytes? && ReadDone(c.reader.buffered, s.result.chunk).0.Deliver?
    then ReadDone(c.reader.buffered, s.result.chunk).0.packets
    else []
  }

  /** Exactly when a step ends the run, and why. */
  ghost predicate HaltCause(c: Conn, s: Step, h: Halt)
    requires Enabled(c, s)
  {
    match h
    case EmptySendQueue => s.TaskStep? && c.tasks.pending[0].SendNext? && c.sender.queue == []
    case WriteIdReused =>
      && s.TaskStep? && c.tasks.pending[0].SendNext? && c.sender.queue != []
      && (c.sender.writeId + 1) % TWO_TO_32 in c.sender.writeBuffers
    case UnknownRoute =>
      && s.TaskStep? && c.tasks.pending[0].RunRequest?
      && c.state.Connected? && c.tasks.pending[0].route !in c.state.routeToCode
    case DuplicateRequestId =>
      && s.SendStep? && s.ec.None?
      && var h := c.sender.handed[s.op].handler; h.RequestSent? && h.id in c.inFlight
    case EmptyBatch => false
    case ZeroByteRead => s.ReceiveStep? && s.result == ReadBytes([])
    case UnexpectedFrame =>
      && s.ReceiveStep? && s.result.ReadBytes? && s.result.chunk != []
      && exists good, tail ::
           StandsBehind(c.reader.buffered + s.result.chunk, good, tail) && NextFrame(tail) == Unwanted
    case UnexpectedPacket => FatalDelivery(c, s, UnexpectedPacket)
    case UndefinedDecode => FatalDelivery(c, s, UndefinedDecode)
  }

  /** The packets delivered after the handshake run up to one that ends the run in this way. */
  ghost predicate FatalDelivery(c: Conn, s: Step, h: Halt)
    requires Enabled(c, s)
  {
    s.ReceiveStep? && c.reader.receiving == Some(OnPackets) && FatalBatch(c.state, Delivered(c, s), s.inflate, h)
  }

  lemma TaskHaltsIff(c: Conn, s: Step, h: Halt)
    requires Enabled(c, s) && s.TaskStep?
    ensures Apply(c, s).halted == Some(h) <==> HaltCause(c, s, h)
  {
  }

  lemma SendHaltsIff(c: Conn, s: Step, h: Halt)
    requires Enabled(c, s) && s.SendStep?
    ensures Apply(c, s).halted == Some(h) <==> HaltCause(c, s, h)
  {
  }

  lemma WaitHaltsIff(c: Conn, s: Step, h: Halt)
    requires Enabled(c, s) && s.WaitStep?
    ensures Apply(c, s).halted == Some(h) <==> HaltCause(c, s, h)
  {
  }

  lemma FailedReadHaltsIff(c: Conn, s: Step, h: Halt)
    requires Enabled(c, s) && s.ReceiveStep? && s.result.ReadFailed?
    ensures Apply(c, s).halted == Some(h) <==> HaltCause(c, s, h)
  {
  }

  /** A read that delivers nothing. */
  lemma SilentReadHaltsIff(c: Conn, s: Step, h: Halt)
    requires Enabled(c, s) && s.ReceiveStep? && s.result.ReadBytes?
    requires !ReadDone(c.reader.buffered, s.result.chunk).0.Deliver?
    ensures Apply(c, s).halted == Some(h) <==> HaltCause(c, s, h)
  {
    ParseRefusesIff(c.reader.buffered + s.result.chunk);
  }

  lemma ReplyHaltsIff(c: Conn, s: Step, h: Halt)
    requires Enabled(c, s) && s.ReceiveStep? && s.result.ReadBytes? && c.reader.receiving == Some(OnHandshakeResponse)
    requires ReadDone(c.reader.buffered, s.result.chunk).0.Deliver?
    ensures Apply(c, s).halted == Some(h) <==> HaltCause(c, s, h)
  {
    ParseRefusesIff(c.reader.buffered + s.result.chunk);
  }

  lemma PacketsHaltIff(c: Conn, s: Step, h: Halt)
    requires Enabled(c, s) && s.ReceiveStep? && s.result.ReadBytes? && c.reader.receiving == Some(OnPackets)
    requires ReadDone(c.reader.buffered, s.result.chunk).0.Deliver?
    ensures Apply(c, s).halted == Some(h) <==> HaltCause(c, s, h)
  {
    var (done, rest) := ReadDone(c.reader.buffered, s.result.chunk);
    var c1 := Quiet(Noted(c, s.result), rest);
    assert Apply(c, s).halted == ProcessPackets(c1, done.packets, s.inflate).halted;
    BatchHaltsIff(c1, done.packets, s.inflate, h);
    NoFrameRefused(c, s, h);
  }

  lemma NoFrameRefused(c: Conn, s: Step, h: Halt)
    requires Enabled(c, s) && s.ReceiveStep? && s.result.ReadBytes? && c.reader.receiving == Some(OnPackets)
    requires ReadDone(c.reader.buffered, s.result.chunk).0.Deliver?
    ensures HaltCause(c, s, h) <==> FatalDelivery(c, s, h)
  {
    ParseRefusesIff(c.reader.buffered + s.result.chunk);
  }

  /** The whole of it: a step ends the run for this reason if and only if it has this cause. */
  lemma StepHaltsIff(c: Conn, s: Step, h: Halt)
    requires Enabled(c, s)
    ensures Apply(c, s).halted == Some(h) <==> HaltCause(c, s, h)
  {
    match s
    case TaskStep => TaskHaltsIff(c, s, h);
    case SendStep(_, _) => SendHaltsIff(c, s, h);
    case WaitStep(_) => WaitHaltsIff(c, s, h);
    case ReceiveStep(r, _, _) => ReceiveHaltsIff(c, s, h);
    case _ =>
  }

  lemma ReceiveHaltsIff(c: Conn, s: Step, h: Halt)
    requires Enabled(c, s) && s.ReceiveStep?
    ensures Apply(c, s).halted == Some(h) <==> HaltCause(c, s, h)
  {
    if s.result.ReadFailed? {
      FailedReadHaltsIff(c, s, h);
    } else if !ReadDone(c.reader.buffered, s.result.chunk).0.Deliver? {
      SilentReadHaltsIff(c, s, h);
    } else {
      match c.reader.receiving.value
      case OnHandshakeResponse => ReplyHaltsIff(c, s, h);
      case OnPackets => PacketsHaltIff(c, s, h);
    }
  }
}
