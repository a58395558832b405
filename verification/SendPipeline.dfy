/** The send pipeline (SendPacket, SendNextPacket and the completion of a send): what holds in every
    reachable state about the queue, the posted tasks, the sends in progress and the write set. */
module SendPipeline {
  import opened Prelude
  import opened Packets
  import opened Framing
  import opened Messages
  import opened Runtime
  import opened Protocol

  /** Pairs the i-th queued packet with the i-th posted send callback. */
  function Zip(ps: seq<Packet>, hs: seq<SendHandler>): (r: seq<Sent>)
    requires |ps| == |hs|
    ensures |r| == |ps|
  {
    if ps == [] then [] else [Sent(ps[0], hs[0])] + Zip(ps[1..], hs[1..])
  }

  lemma {:induction false} ZipAppend(ps: seq<Packet>, hs: seq<SendHandler>, p: Packet, h: SendHandler)
    requires |ps| == |hs|
    ensures Zip(ps + [p], hs + [h]) == Zip(ps, hs) + [Sent(p, h)]
  {
    if ps != [] {
      assert (ps + [p])[1..] == ps[1..] + [p] && (hs + [h])[1..] == hs[1..] + [h];
      ZipAppend(ps[1..], hs[1..], p, h);
    }
  }

  /** One posted SendNextPacket task per queued packet, at most fifty; and the packets handed to the
      socket, followed by the queued ones with their posted callbacks, are exactly the accepted
      ones: same order, same callbacks. */
  ghost predicate Paired(s: Sender, hs: seq<SendHandler>) {
    && |s.queue| == |hs| <= MAX_QUEUED_PACKETS
    && s.accepted == s.handed + Zip(s.queue, hs)
  }

  /** Sends in progress and failed sends are handed-over packets, and no send is both. */
  ghost predicate OpsNumbered(s: Sender) {
    && (forall i :: i in s.outstanding || i in s.failed ==> i < |s.handed|)
    && s.outstanding !! s.failed
  }

  /** Until the 32-bit id wraps, the write set holds exactly the bytes of the sends in progress and
      of the failed ones. */
  ghost predicate BuffersExact(s: Sender) {
    |s.handed| < TWO_TO_32 ==>
      && s.writeBuffers.Keys == s.outstanding + s.failed
      && (forall i :: i in s.writeBuffers && i < |s.handed| ==>
            s.writeBuffers[i] == Serialize(s.handed[i].packet))
  }

  ghost predicate SenderInv(s: Sender, hs: seq<SendHandler>) {
    Paired(s, hs) && OpsNumbered(s) && s.writeId == |s.handed| % TWO_TO_32
  }

  ghost predicate SendInv(c: Conn) {
    && SenderInv(c.sender, Handlers(c.tasks.pending))
    && (c.halted.None? ==> BuffersExact(c.sender))
    && c.halted != Some(EmptySendQueue)
    && (c.halted == Some(WriteIdReused) ==> |c.sender.handed| >= TWO_TO_32)
  }

  // ---------------------------------------------------------------------------------------
  // Callbacks that neither enqueue nor complete a send
  // ---------------------------------------------------------------------------------------

  ghost predicate SameSends(c: Conn, d: Conn) {
    && d.sender == c.sender
    && d.tasks == c.tasks
    && (d.halted == c.halted || (d.halted.Some? && d.halted != Some(EmptySendQueue) && d.halted != Some(WriteIdReused)))
  }

  lemma ProcessPacketKeepsSends(c: Conn, p: Packet, inflate: Bytes -> Option<Bytes>)
    ensures SameSends(c, ProcessPacket(c, p, inflate))
  {
  }

  lemma {:induction false} ProcessPacketsKeepsSends(c: Conn, ps: seq<Packet>, inflate: Bytes -> Option<Bytes>)
    ensures SameSends(c, ProcessPackets(c, ps, inflate))
  {
    if ps != [] {
      var init := ps[..|ps| - 1];
      ProcessPacketsKeepsSends(c, init, inflate);
      ProcessPacketKeepsSends(ProcessPackets(c, init, inflate), ps[|ps| - 1], inflate);
    }
  }

  lemma OnSentKeepsSends(c: Conn, h: SendHandler, ec: Option<int>)
    ensures SameSends(c, OnSent(c, h, ec))
  {
  }

  lemma SameSendsKeepsInv(c: Conn, d: Conn)
    requires SendInv(c) && SameSends(c, d)
    ensures SendInv(d)
  {
  }

  // ---------------------------------------------------------------------------------------
  // The three operations of the pipeline
  // ---------------------------------------------------------------------------------------

  lemma SendPacketKeepsInv(c: Conn, p: Packet, h: SendHandler)
    requires SendInv(c)
    ensures SendInv(SendPacket(c, p, h))
  {
    if |c.sender.queue| < MAX_QUEUED_PACKETS {
      HandlersAppend(c.tasks.pending, [SendNext(h)]);
      assert Handlers([SendNext(h)]) == [h];
      ZipAppend(c.sender.queue, Handlers(c.tasks.pending), p, h);
    }
  }

  lemma SendingIsPaired(s: Sender, hs: seq<SendHandler>)
    requires SenderInv(s, hs) && hs != []
    ensures SenderInv(Sending(s, hs[0]), hs[1..])
  {
    assert Zip(s.queue, hs) == [Sent(s.queue[0], hs[0])] + Zip(s.queue[1..], hs[1..]);
    assert (|s.handed| + 1) % TWO_TO_32 == (s.writeId + 1) % TWO_TO_32;
  }

  /** The id that the assertion looks up is free until the counter wraps. */
  lemma SendingIsExact(s: Sender, h: SendHandler)
    requires OpsNumbered(s) && s.writeId == |s.handed| % TWO_TO_32 && BuffersExact(s) && s.queue != []
    ensures var sending := Sending(s, h);
            && (sending.writeId in s.writeBuffers ==> |sending.handed| >= TWO_TO_32)
            && BuffersExact(sending.(writeBuffers := s.writeBuffers[s.writeId := Serialize(s.queue[0])]))
  {
    var sending := Sending(s, h);
    if |sending.handed| < TWO_TO_32 {
      assert s.writeId == |s.handed| && sending.writeId == |s.handed| + 1;
      assert s.writeBuffers[s.writeId := Serialize(s.queue[0])].Keys == sending.outstanding + sending.failed;
    }
  }

  lemma ExactBeforeWrap(s: Sender)
    requires OpsNumbered(s) && s.writeId == |s.handed| % TWO_TO_32 && BuffersExact(s) && |s.handed| < TWO_TO_32
    ensures s.writeId == |s.handed| && s.writeBuffers.Keys == s.outstanding + s.failed
    ensures forall i :: i in s.writeBuffers ==>
              i < |s.handed| && s.writeBuffers[i] == Serialize(s.handed[i].packet)
  {
  }

  lemma SendNextKeepsInv(c: Conn, h: SendHandler)
    requires SendInv(c) && c.halted.None? && c.tasks.pending != [] && c.tasks.pending[0] == SendNext(h)
    ensures SendInv(RunTask(c))
  {
    var hs := Handlers(c.tasks.pending);
    assert hs[0] == h && Handlers(c.tasks.pending[1..]) == hs[1..];
    SendingIsPaired(c.sender, hs);
    SendingIsExact(c.sender, h);
  }

  lemma EndedIsExact(s: Sender, op: nat)
    requires OpsNumbered(s) && BuffersExact(s) && op in s.outstanding
    ensures OpsNumbered(Ended(s, op, true)) && OpsNumbered(Ended(s, op, false))
    ensures BuffersExact(Ended(s, op, false))
    ensures BuffersExact(Ended(s, op, true).(writeBuffers := s.writeBuffers - {op % TWO_TO_32}))
  {
    assert Ended(s, op, false).outstanding + Ended(s, op, false).failed == s.outstanding + s.failed;
    if |s.handed| < TWO_TO_32 {
      assert op % TWO_TO_32 == op;
      assert (s.writeBuffers - {op}).Keys == Ended(s, op, true).outstanding + s.failed;
    }
  }

  lemma SendDoneKeepsInv(c: Conn, op: nat, ec: Option<int>)
    requires SendInv(c) && c.halted.None? && op in c.sender.outstanding && op < |c.sender.handed|
    ensures SendInv(SendDone(c, op, ec))
  {
    EndedIsExact(c.sender, op);
    OnSentKeepsSends(c.(sender := Ended(c.sender, op, ec.None?)), c.sender.handed[op].handler, ec);
  }

  // ---------------------------------------------------------------------------------------
  // Every step
  // ---------------------------------------------------------------------------------------

  lemma RunRequestKeepsInv(c: Conn, token: nat, route: string, data: Bytes, timeout: nat)
    requires SendInv(c) && c.halted.None?
    ensures SendInv(RunRequestTask(c, token, route, data, timeout))
  {
    if c.state.Connected? {
      var c1 := c.(reqId := (c.reqId + 1) % TWO_TO_64, issued := c.issued + 1);
      var body := Messages.Encode(NewRequest(c.reqId, route, data), c.state.routeToCode);
      if body.Some? {
        SendPacketKeepsInv(c1, Packet(Data, body.value), RequestSent(c.reqId, token, timeout));
      }
    }
  }

  lemma RunTaskKeepsInv(c: Conn)
    requires SendInv(c) && c.halted.None? && c.tasks.pending != []
    ensures SendInv(RunTask(c))
  {
    match c.tasks.pending[0]
    case RunRequest(token, route, data, timeout) =>
      assert Handlers(c.tasks.pending[1..]) == Handlers(c.tasks.pending);
      RunRequestKeepsInv(c.(tasks := PopTask(c.tasks)), token, route, data, timeout);
    case SendNext(h) => SendNextKeepsInv(c, h);
  }

  lemma OnHandshakeKeepsInv(c: Conn, ps: seq<Packet>, reply: HandshakeReply)
    requires SendInv(c)
    ensures SendInv(OnHandshakePackets(c, ps, reply))
  {
    if |ps| == 1 && ps[0].ptype == Handshake && reply.Good? {
      SendPacketKeepsInv(c, Packet(HandshakeAck, []), AckSent(reply.interval, reply.dict));
    } else {
      SameSendsKeepsInv(c, OnHandshakePackets(c, ps, reply));
    }
  }

  lemma OnReceivedKeepsInv(c: Conn, h: ReceiveHandler, ec: Option<ErrorCode>, ps: seq<Packet>,
                           reply: HandshakeReply, inflate: Bytes -> Option<Bytes>)
    requires SendInv(c)
    ensures SendInv(OnReceived(c, h, ec, ps, reply, inflate))
  {
    if ec.Some? {
      SameSendsKeepsInv(c, OnReceived(c, h, ec, ps, reply, inflate));
    } else if h.OnHandshakeResponse? {
      OnHandshakeKeepsInv(c, ps, reply);
    } else {
      ProcessPacketsKeepsSends(c, ps, inflate);
      SameSendsKeepsInv(c, OnReceived(c, h, ec, ps, reply, inflate));
    }
  }

  lemma ReceiveDoneKeepsInv(c: Conn, r: ReadResult, reply: HandshakeReply, inflate: Bytes -> Option<Bytes>)
    requires SendInv(c) && c.reader.receiving.Some?
    ensures SendInv(ReceiveDone(c, r, reply, inflate))
  {
    var h := c.reader.receiving.value;
    match r
    case ReadFailed(code) => OnReceivedKeepsInv(Quiet(c, c.reader.buffered), h, Some(System(code)), [], reply, inflate);
    case ReadBytes(chunk) =>
      var (done, rest) := ReadDone(c.reader.buffered, chunk);
      match done
      case Deliver(ps) => OnReceivedKeepsInv(Quiet(c, rest), h, None, ps, reply, inflate);
      case Reject => OnReceivedKeepsInv(Quiet(c, rest), h, Some(InvalidPacketType), [], reply, inflate);
      case _ => SameSendsKeepsInv(c, ReceiveDone(c, r, reply, inflate));
  }

  lemma HeartbeatTickKeepsInv(c: Conn)
    requires SendInv(c)
    ensures SendInv(HeartbeatTick(c))
  {
    SendPacketKeepsInv(c, Packet(Heartbeat, []), HeartbeatSent);
  }

  lemma RunWaitKeepsInv(c: Conn, w: nat)
    requires SendInv(c) && w in c.timers.waits
    ensures SendInv(RunWait(c, w))
  {
    var c1 := c.(timers := c.timers.(waits := c.timers.waits - {w}));
    if c.timers.waits[w].kind.TickWait? {
      HeartbeatTickKeepsInv(c1);
    } else {
      assert SameSends(c1, RunWait(c, w));
    }
  }

  lemma StepKeepsInv(c: Conn, s: Step)
    requires SendInv(c) && Enabled(c, s)
    ensures SendInv(Apply(c, s))
  {
    match s
    case PostRequest(route, data, timeout) =>
      var t := RunRequest(c.posted, route, data, timeout);
      HandlersAppend(c.tasks.pending, [t]);
      assert Handlers([t]) == [];
      assert Handlers(Post(c.tasks, t).pending) == Handlers(c.tasks.pending);
    case TaskStep => RunTaskKeepsInv(c);
    case ConnectStep(ec) =>
      var c1 := c.(reader := c.reader.(connecting := false));
      SendPacketKeepsInv(c1, Packet(Handshake, BytesOf(HANDSHAKE_JSON)), HandshakeSent);
    case SendStep(op, ec) => SendDoneKeepsInv(c, op, ec);
    case ReceiveStep(r, reply, inflate) => ReceiveDoneKeepsInv(Noted(c, r), r, reply, inflate);
    case WaitStep(w) => RunWaitKeepsInv(c, w);
    case Start => assert SameSends(c, Apply(c, s));
    case Elapse(_) => assert SameSends(c, Apply(c, s));
    case Expire(_) => assert SameSends(c, Apply(c, s));
  }
}
