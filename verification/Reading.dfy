/** The read buffer of a running connection: whenever a receive is pending the buffer holds the
    front of one incomplete frame, so a receive with no room means a frame larger than the buffer. */
module Reading {
  import opened Prelude
  import opened Packets
  import opened Framing
  import opened Messages
  import opened Runtime
  import opened Protocol
  import opened Handshake

  /** The acknowledgement is queued or being sent. */
  ghost predicate AckPending(c: Conn) {
    (exists h :: h in Handlers(c.tasks.pending) && h.AckSent?) || 1 in c.sender.outstanding
  }

  /** The handshake's send has not completed. */
  predicate HelloPending(s: Sender) {
    s.handed == [] || 0 in s.outstanding
  }

  ghost predicate Oversize(bytes: Bytes) {
    |bytes| == 2048 && 4 + HeaderLength(bytes) > 2048
  }

  ghost predicate ReadInv(c: Conn) {
    && |c.reader.buffered| <= 2048
    && (HelloPending(c.sender) ==> c.reader.buffered == [])
    && (c.halted.None? && (c.reader.receiving.Some? || AckPending(c)) ==> NextFrame(c.reader.buffered) == Incomplete)
    && (c.halted == Some(ZeroByteRead) ==> Oversize(c.reader.buffered))
  }

  /** The buffer and the handshake's progress are as before, and no run ends on an empty read. */
  lemma SameReaderKeeps(c: Conn, d: Conn)
    requires ReadInv(c) && c.halted.None?
    requires d.reader == c.reader && d.halted != Some(ZeroByteRead)
    requires HelloPending(d.sender) ==> HelloPending(c.sender)
    requires AckPending(d) ==> AckPending(c) || HelloPending(c.sender)
    ensures ReadInv(d)
  {
  }

  lemma ReadDoneLeaves(buffered: Bytes, chunk: Bytes)
    ensures var (done, rest) := ReadDone(buffered, chunk);
            && |rest| <= |buffered| + |chunk|
            && (done.ReadOn? || done.Deliver? ==> NextFrame(rest) == Incomplete)
            && (done.EmptyRead? ==> rest == buffered && chunk == [])
  {
    if chunk != [] && ParseAll(buffered + chunk).Parsed? {
      LeftoverIsIncomplete(buffered + chunk);
    }
  }

  /** A full buffer that holds an incomplete frame holds an oversize one. */
  lemma FullMeansOversize(bytes: Bytes)
    requires |bytes| == READ_BUFFER_SIZE
    requires NextFrame(bytes) == Incomplete
    ensures Oversize(bytes)
  {
  }

  predicate SameBytes(s: Reader, t: Reader) {
    t.buffered == s.buffered && t.received == s.received && t.delivered == s.delivered
  }

  /** What a receive callback leaves alone. */
  ghost predicate ReadsKept(c: Conn, d: Conn) {
    && SameBytes(c.reader, d.reader)
    && (d.halted == Some(ZeroByteRead) ==> c.halted == Some(ZeroByteRead))
    && d.sender.handed == c.sender.handed && d.sender.outstanding == c.sender.outstanding
  }

  lemma OnErrorReads(c: Conn, h: ReceiveHandler, ec: ErrorCode, reply: HandshakeReply, inflate: Bytes -> Option<Bytes>)
    ensures var d := OnReceived(c, h, Some(ec), [], reply, inflate);
            d.reader == c.reader && d.tasks == c.tasks && d.sender == c.sender && d.halted == c.halted
  {
  }

  lemma OnHandshakeReads(c: Conn, ps: seq<Packet>, reply: HandshakeReply)
    ensures ReadsKept(c, OnHandshakePackets(c, ps, reply))
  {
  }

  lemma OnPacketsReads(c: Conn, h: ReceiveHandler, ps: seq<Packet>, reply: HandshakeReply,
                       inflate: Bytes -> Option<Bytes>)
    ensures ReadsKept(c, OnReceived(c, h, None, ps, reply, inflate))
  {
    OnHandshakeReads(c, ps, reply);
    ProcessPacketsReads(c, ps, inflate);
  }

  lemma {:induction false} ProcessPacketsReads(c: Conn, ps: seq<Packet>, inflate: Bytes -> Option<Bytes>)
    ensures var d := ProcessPackets(c, ps, inflate);
            && d.reader == c.reader && d.sender == c.sender
            && (d.halted == Some(ZeroByteRead) ==> c.halted == Some(ZeroByteRead))
  {
    if ps != [] {
      ProcessPacketsReads(c, ps[..|ps| - 1], inflate);
    }
  }

  lemma ReceiveKeeps(c: Conn, stage: Stage, r: ReadResult, reply: HandshakeReply, inflate: Bytes -> Option<Bytes>)
    requires ReadInv(c) && InStage(c, stage) && c.halted.None? && c.reader.receiving.Some? && ReadFits(c.reader, r)
    ensures ReadInv(ReceiveDone(c, r, reply, inflate))
  {
    var h := c.reader.receiving.value;
    assert !HelloPending(c.sender);
    match r
    case ReadFailed(code) => OnErrorReads(Quiet(c, c.reader.buffered), h, System(code), reply, inflate);
    case ReadBytes(chunk) =>
      var (done, rest) := ReadDone(c.reader.buffered, chunk);
      ReadDoneLeaves(c.reader.buffered, chunk);
      match done
      case Deliver(ps) => OnPacketsReads(Quiet(c, rest), h, ps, reply, inflate);
      case Reject =>
        OnErrorReads(Quiet(c, rest), h, InvalidPacketType, reply, inflate);
        assert !AckPending(c);
      case EmptyRead => FullMeansOversize(c.reader.buffered);
      case _ =>
  }

  lemma SendDoneReads(c: Conn, stage: Stage, op: nat, ec: Option<int>)
    requires ReadInv(c) && InStage(c, stage) && c.halted.None?
    requires op in c.sender.outstanding && op < |c.sender.handed|
    ensures ReadInv(SendDone(c, op, ec))
  {
    var d := SendDone(c, op, ec);
    assert NextFrame([]) == Incomplete;
    assert d.reader.buffered == c.reader.buffered && d.tasks == c.tasks;
    assert d.sender.handed == c.sender.handed && d.sender.outstanding == c.sender.outstanding - {op};
  }

  lemma SendReads(c: Conn, p: Packet, h: SendHandler)
    requires ReadInv(c) && c.halted.None? && !h.AckSent?
    ensures ReadInv(SendPacket(c, p, h))
  {
    HandlersAppend(c.tasks.pending, [SendNext(h)]);
    assert Handlers([SendNext(h)]) == [h];
    SameReaderKeeps(c, SendPacket(c, p, h));
  }

  lemma RunRequestReads(c: Conn, token: nat, route: string, data: Bytes, timeout: nat)
    requires ReadInv(c) && c.halted.None?
    ensures ReadInv(RunRequestTask(c, token, route, data, timeout))
  {
    var d := RunRequestTask(c, token, route, data, timeout);
    if c.state.Connected? {
      var c1 := c.(reqId := (c.reqId + 1) % TWO_TO_64, issued := c.issued + 1);
      match Messages.Encode(NewRequest(c.reqId, route, data), c.state.routeToCode)
      case None => SameReaderKeeps(c, d);
      case Some(body) => SendReads(c1, Packet(Data, body), RequestSent(c.reqId, token, timeout));
    } else {
      SameReaderKeeps(c, d);
    }
  }

  lemma SendNextReads(c: Conn, stage: Stage, h: SendHandler)
    requires ReadInv(c) && InStage(c, stage) && c.halted.None?
    requires c.tasks.pending != [] && c.tasks.pending[0] == SendNext(h)
    ensures ReadInv(RunTask(c))
  {
    var d := RunTask(c);
    var hs := Handlers(c.tasks.pending);
    assert hs[0] == h && h in hs && Handlers(c.tasks.pending[1..]) == hs[1..];
    assert d.reader == c.reader;
    assert NextFrame([]) == Incomplete;
  }

  lemma RunTaskReads(c: Conn, stage: Stage)
    requires ReadInv(c) && InStage(c, stage) && c.halted.None? && c.tasks.pending != []
    ensures ReadInv(RunTask(c))
  {
    match c.tasks.pending[0]
    case RunRequest(token, route, data, timeout) =>
      var c1 := c.(tasks := PopTask(c.tasks));
      assert Handlers(c1.tasks.pending) == Handlers(c.tasks.pending);
      RunRequestReads(c1, token, route, data, timeout);
    case SendNext(h) => SendNextReads(c, stage, h);
  }

  lemma RunWaitReads(c: Conn, w: nat)
    requires ReadInv(c) && c.halted.None? && w in c.timers.waits
    ensures ReadInv(RunWait(c, w))
  {
    if c.timers.waits[w].kind.TickWait? {
      SendReads(c.(timers := c.timers.(waits := c.timers.waits - {w})), Packet(Heartbeat, []), HeartbeatSent);
    } else {
      SameReaderKeeps(c, RunWait(c, w));
    }
  }

  lemma ConnectReads(c: Conn, ec: Option<int>)
    requires ReadInv(c) && c.halted.None?
    ensures ReadInv(ConnectDone(c, ec))
  {
    if ec.None? {
      var c1 := c.(reader := c.reader.(connecting := false));
      SendReads(c1, Packet(PacketType.Handshake, BytesOf(HANDSHAKE_JSON)), HandshakeSent);
    }
  }

  lemma StepReads(c: Conn, stage: Stage, s: Step)
    requires ReadInv(c) && InStage(c, stage) && Enabled(c, s)
    ensures ReadInv(Apply(c, s))
  {
    match s
    case Start =>
    case PostRequest(route, data, timeout) =>
      var t := RunRequest(c.posted, route, data, timeout);
      HandlersAppend(c.tasks.pending, [t]);
      assert Handlers([t]) == [];
      SameReaderKeeps(c, Apply(c, s));
    case TaskStep => RunTaskReads(c, stage);
    case ConnectStep(ec) => ConnectReads(c, ec);
    case SendStep(op, ec) => SendDoneReads(c, stage, op, ec);
    case ReceiveStep(r, reply, inflate) => ReceiveKeeps(Noted(c, r), stage, r, reply, inflate);
    case Elapse(_) => SameReaderKeeps(c, Apply(c, s));
    case Expire(_) => SameReaderKeeps(c, Apply(c, s));
    case WaitStep(w) => RunWaitReads(c, w);
  }

  // ---------------------------------------------------------------------------------------
  // Conservation of bytes
  // ---------------------------------------------------------------------------------------

  /** The packets delivered so far, serialized, followed by the bytes held, are all bytes read. */
  ghost predicate Conserved(s: Reader) {
    AllSendable(s.delivered) && SerializeAll(s.delivered) + s.buffered == s.received
  }

  lemma ReadConserves(s: Reader, chunk: Bytes)
    requires Conserved(s)
    ensures Conserved(Recorded(s, ReadBytes(chunk)).(buffered := ReadDone(s.buffered, chunk).1))
  {
    var all := s.buffered + chunk;
    Regroup(SerializeAll(s.delivered), s.buffered, chunk);
    assert s.delivered + [] == s.delivered;
    if chunk == [] {
      assert s.received + chunk == s.received;
    } else if ParseAll(all).Parsed? {
      ParseMore(s.delivered, all);
    }
  }

  lemma Regroup(a: Bytes, b: Bytes, c: Bytes)
    ensures (a + b) + c == a + (b + c)
  {
  }

  /** Packets parsed behind those delivered before. */
  lemma ParseMore(delivered: seq<Packet>, all: Bytes)
    requires AllSendable(delivered) && ParseAll(all).Parsed?
    ensures var r := ParseAll(all);
            && AllSendable(delivered + r.packets)
            && SerializeAll(delivered + r.packets) + r.rest == SerializeAll(delivered) + all
  {
    var r := ParseAll(all);
    ParseConserves(all);
    SerializeAllAppend(delivered, r.packets);
    Regroup(SerializeAll(delivered), SerializeAll(r.packets), r.rest);
  }

  lemma ReceiveConserves(c: Conn, s: Step)
    requires Conserved(c.reader) && Enabled(c, s) && s.ReceiveStep?
    ensures Conserved(Apply(c, s).reader)
  {
    var h := c.reader.receiving.value;
    var c1 := Noted(c, s.result);
    match s.result
    case ReadFailed(code) => OnErrorReads(Quiet(c1, c1.reader.buffered), h, System(code), s.reply, s.inflate);
    case ReadBytes(chunk) =>
      ReadConserves(c.reader, chunk);
      var (done, rest) := ReadDone(c.reader.buffered, chunk);
      OnPacketsReads(Quiet(c1, rest), h, if done.Deliver? then done.packets else [], s.reply, s.inflate);
      OnErrorReads(Quiet(c1, rest), h, InvalidPacketType, s.reply, s.inflate);
  }

  /** No other step touches the bytes. */
  lemma OtherStepSameBytes(c: Conn, s: Step)
    requires Enabled(c, s) && !s.ReceiveStep?
    ensures SameBytes(c.reader, Apply(c, s).reader)
  {
    match s
    case TaskStep => TaskSameBytes(c);
    case SendStep(op, ec) => SendSameBytes(c, op, ec);
    case WaitStep(w) => WaitSameBytes(c, w);
    case _ =>
  }

  lemma TaskSameBytes(c: Conn)
    requires c.tasks.pending != []
    ensures RunTask(c).reader == c.reader
  {
  }

  lemma SendSameBytes(c: Conn, op: nat, ec: Option<int>)
    requires op < |c.sender.handed|
    ensures SameBytes(c.reader, SendDone(c, op, ec).reader)
  {
  }

  lemma WaitSameBytes(c: Conn, w: nat)
    requires w in c.timers.waits
    ensures RunWait(c, w).reader == c.reader
  {
  }

  lemma StepConserves(c: Conn, s: Step)
    requires Conserved(c.reader) && Enabled(c, s)
    ensures Conserved(Apply(c, s).reader)
  {
    if s.ReceiveStep? {
      ReceiveConserves(c, s);
    } else {
      OtherStepSameBytes(c, s);
    }
  }

  /** Bytes read stay read, and packets delivered stay delivered. */
  lemma StepReadsOn(c: Conn, s: Step)
    requires Enabled(c, s)
    ensures c.reader.received <= Apply(c, s).reader.received && c.reader.delivered <= Apply(c, s).reader.delivered
  {
    if s.ReceiveStep? {
      ReceiveReadsOn(c, s);
    } else {
      OtherStepSameBytes(c, s);
    }
  }

  lemma ReceiveReadsOn(c: Conn, s: Step)
    requires Enabled(c, s) && s.ReceiveStep?
    ensures Apply(c, s).reader.received == Recorded(c.reader, s.result).received
    ensures Apply(c, s).reader.delivered == Recorded(c.reader, s.result).delivered
  {
    var h := c.reader.receiving.value;
    var c1 := Noted(c, s.result);
    match s.result
    case ReadFailed(code) => OnErrorReads(Quiet(c1, c1.reader.buffered), h, System(code), s.reply, s.inflate);
    case ReadBytes(chunk) =>
      var (done, rest) := ReadDone(c.reader.buffered, chunk);
      OnPacketsReads(Quiet(c1, rest), h, if done.Deliver? then done.packets else [], s.reply, s.inflate);
      OnErrorReads(Quiet(c1, rest), h, InvalidPacketType, s.reply, s.inflate);
  }
}
