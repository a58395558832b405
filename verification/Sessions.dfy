/** What an established connection works with: the interval and the dictionary of the handshake response,
    from the moment the acknowledgement was sent. */
module Sessions {
  import opened Prelude
  import opened Packets
  import opened Framing
  import opened Messages
  import opened Runtime
  import opened Protocol
  import opened SendPipeline
  import opened Handshake
  import opened Deadlines
  import opened Heartbeats
  import opened Halts
  import opened Offers

  /** The interval and dictionary are those of the acknowledgement, the second packet accepted. */
  ghost predicate SessionInv(c: Conn) {
    c.state.Connected? ==>
      && |c.sender.accepted| >= 2 && c.sender.accepted[1].handler.AckSent?
      && var h := c.sender.accepted[1].handler;
      && c.state.interval == h.interval && c.state.routeToCode == h.dict.routeToCode
      && c.state.codeToRoute == Inverse(h.dict.order, h.dict.routeToCode)
  }

  /** The acknowledgement establishes the session, at the time of the step; nothing else does or
      changes it, and losing the connection is all that ends it. */
  ghost predicate StateExact(c: Conn, s: Step)
    requires Enabled(c, s)
  {
    var d := Apply(c, s);
    if Establishes(c, s) then
      var h := c.sender.handed[s.op].handler;
      && d.state.Connected? && d.state.interval == h.interval && d.state.routeToCode == h.dict.routeToCode
      && d.state.codeToRoute == Inverse(h.dict.order, h.dict.routeToCode)
      && d.state.tick == c.timers.next && d.state.timeout == c.timers.next + 1
      && d.session == Session(c.timers.now, h.interval, 0, [])
    else if TickRuns(c, s) then
      d.state == c.state.(tick := c.timers.next) && d.session == c.session.(ticks := c.session.ticks + 1)
    else KeptOrLost(c, d)
  }

  /** The state is kept or the connection is lost. */
  ghost predicate KeptOrLost(c: Conn, d: Conn) {
    && (d.state == c.state || d.state.Inited?)
    && d.session == c.session.(heartbeats := d.session.heartbeats)
  }

  lemma PacketKeepsState(c: Conn, p: Packet, inflate: Bytes -> Option<Bytes>)
    ensures KeptOrLost(c, ProcessPacket(c, p, inflate))
  {
  }

  lemma {:induction false} PacketsKeepState(c: Conn, ps: seq<Packet>, inflate: Bytes -> Option<Bytes>)
    ensures KeptOrLost(c, ProcessPackets(c, ps, inflate))
  {
    if ps != [] {
      var init := ps[..|ps| - 1];
      PacketsKeepState(c, init, inflate);
      PacketKeepsState(ProcessPackets(c, init, inflate), ps[|ps| - 1], inflate);
    }
  }

  lemma CallbackKeepsState(c: Conn, h: ReceiveHandler, ec: Option<ErrorCode>, ps: seq<Packet>,
                           reply: HandshakeReply, inflate: Bytes -> Option<Bytes>)
    ensures KeptOrLost(c, OnReceived(c, h, ec, ps, reply, inflate))
  {
    if ec.None? && h.OnPackets? {
      PacketsKeepState(c, ps, inflate);
    }
  }

  lemma ReceiveKeepsState(c: Conn, s: Step)
    requires Enabled(c, s) && s.ReceiveStep?
    ensures KeptOrLost(c, Apply(c, s))
  {
    var h := c.reader.receiving.value;
    var c1 := Noted(c, s.result);
    match s.result
    case ReadFailed(code) =>
      CallbackKeepsState(Quiet(c1, c1.reader.buffered), h, Some(System(code)), [], s.reply, s.inflate);
    case ReadBytes(chunk) =>
      var (done, rest) := ReadDone(c.reader.buffered, chunk);
      match done
      case Deliver(ps) => CallbackKeepsState(Quiet(c1, rest), h, None, ps, s.reply, s.inflate);
      case Reject => CallbackKeepsState(Quiet(c1, rest), h, Some(InvalidPacketType), [], s.reply, s.inflate);
      case _ =>
  }

  lemma SendState(c: Conn, s: Step)
    requires Enabled(c, s) && s.SendStep? && (Establishes(c, s) ==> c.state.Inited?)
    ensures StateExact(c, s)
  {
    if !Establishes(c, s) {
      assert KeptOrLost(c, Apply(c, s));
    }
  }

  lemma WaitState(c: Conn, s: Step)
    requires Enabled(c, s) && s.WaitStep?
    ensures StateExact(c, s)
  {
  }

  lemma TaskState(c: Conn)
    requires c.tasks.pending != []
    ensures RunTask(c).state == c.state && RunTask(c).session == c.session
  {
  }

  lemma StepState(c: Conn, s: Step)
    requires Enabled(c, s) && (Establishes(c, s) ==> c.state.Inited?)
    ensures StateExact(c, s)
  {
    match s
    case ReceiveStep(_, _, _) => ReceiveKeepsState(c, s);
    case SendStep(_, _) => SendState(c, s);
    case WaitStep(_) => WaitState(c, s);
    case TaskStep => TaskState(c);
    case _ =>
  }

  lemma AcceptedGrows(c: Conn, s: Step)
    requires Enabled(c, s)
    ensures c.sender.accepted <= Apply(c, s).sender.accepted
  {
    StepOffersExactly(c, s);
  }

  /** The acknowledgement is the second packet. */
  lemma AckIsSecond(c: Conn, stage: Stage, s: Step)
    requires InStage(c, stage) && SendInv(c) && Enabled(c, s) && Establishes(c, s)
    ensures c.state.Inited? && c.session == INIT.session
    ensures |c.sender.accepted| >= 2 && c.sender.accepted[1] == c.sender.handed[s.op]
  {
    assert s.op == 1;
    assert c.sender.accepted[1] == c.sender.handed[1];
  }

  lemma StepSession(c: Conn, stage: Stage, s: Step)
    requires InStage(c, stage) && SendInv(c) && SessionInv(c) && Enabled(c, s)
    ensures SessionInv(Apply(c, s))
  {
    if Establishes(c, s) {
      AckIsSecond(c, stage, s);
    }
    StepState(c, s);
    AcceptedGrows(c, s);
  }

  // ---------------------------------------------------------------------------------------
  // The receive
  // ---------------------------------------------------------------------------------------

  /** Which receive is pending after a step: one for the handshake response once the handshake was
      sent, one for packets once the connection is established and again after every batch, even one
      that loses the connection; a read that completes no packet goes on, and nothing else starts one. */
  function Receiving(c: Conn, s: Step): Option<ReceiveHandler>
    requires Enabled(c, s)
  {
    if s.SendStep? && s.ec.None? && c.sender.handed[s.op].handler.HandshakeSent? then Some(OnHandshakeResponse)
    else if Establishes(c, s) then Some(OnPackets)
    else if s.ReceiveStep? then
      if s.result.ReadBytes? && ReadDone(c.reader.buffered, s.result.chunk).0.ReadOn? then c.reader.receiving
      else if Delivered(c, s) != [] && c.reader.receiving == Some(OnPackets) then Some(OnPackets)
      else None
    else c.reader.receiving
  }

  lemma BatchReceives(c: Conn, s: Step)
    requires Enabled(c, s) && s.ReceiveStep? && c.reader.receiving == Some(OnPackets) && Delivered(c, s) != []
    ensures Apply(c, s).halted.None? ==> Apply(c, s).reader.receiving == Some(OnPackets)
  {
  }

  lemma ReplyReceives(c: Conn, s: Step)
    requires Enabled(c, s) && s.ReceiveStep? && (c.reader.receiving != Some(OnPackets) || Delivered(c, s) == [])
    ensures Apply(c, s).reader.receiving == Receiving(c, s)
  {
    var c1 := Noted(c, s.result);
    if s.result.ReadBytes? {
      var (done, rest) := ReadDone(c.reader.buffered, s.result.chunk);
      if done.Deliver? {
        assert Apply(c, s) == OnHandshakePackets(Quiet(c1, rest), done.packets, s.reply);
        assert OnHandshakePackets(Quiet(c1, rest), done.packets, s.reply).reader == Quiet(c1, rest).reader;
      }
    }
  }

  lemma SendReceives(c: Conn, s: Step)
    requires Enabled(c, s) && s.SendStep?
    ensures Apply(c, s).reader.receiving == Receiving(c, s)
  {
  }

  lemma OtherReceives(c: Conn, s: Step)
    requires Enabled(c, s) && !s.SendStep? && !s.ReceiveStep?
    ensures Apply(c, s).reader.receiving == c.reader.receiving
  {
  }

  /** While the run goes on, exactly that receive is pending after a step. */
  lemma StepReceives(c: Conn, s: Step)
    requires Enabled(c, s) && Apply(c, s).halted.None?
    ensures Apply(c, s).reader.receiving == Receiving(c, s)
    ensures Apply(c, s).reader.connecting == (s.Start? || (c.reader.connecting && !s.ConnectStep?))
  {
    StepConnects(c, s);
    match s
    case SendStep(_, _) => SendReceives(c, s);
    case ReceiveStep(_, _, _) =>
      if c.reader.receiving == Some(OnPackets) && Delivered(c, s) != [] {
        BatchReceives(c, s);
      } else {
        ReplyReceives(c, s);
      }
    case _ => OtherReceives(c, s);
  }

  lemma StepConnects(c: Conn, s: Step)
    requires Enabled(c, s)
    ensures Apply(c, s).reader.connecting == (s.Start? || (c.reader.connecting && !s.ConnectStep?))
  {
    match s
    case ReceiveStep(_, _, _) => ReceiveConnects(c, s);
    case SendStep(_, _) => SendConnects(c, s);
    case WaitStep(w) => WaitConnects(c, w);
    case _ =>
  }

  lemma WaitConnects(c: Conn, w: nat)
    requires w in c.timers.waits
    ensures RunWait(c, w).reader == c.reader
  {
  }

  lemma SendConnects(c: Conn, s: Step)
    requires Enabled(c, s) && s.SendStep?
    ensures Apply(c, s).reader.connecting == c.reader.connecting
  {
  }

  lemma {:induction false} PacketsKeepReader(c: Conn, ps: seq<Packet>, inflate: Bytes -> Option<Bytes>)
    ensures ProcessPackets(c, ps, inflate).reader == c.reader
  {
    if ps != [] {
      PacketsKeepReader(c, ps[..|ps| - 1], inflate);
    }
  }

  lemma ReceiveConnects(c: Conn, s: Step)
    requires Enabled(c, s) && s.ReceiveStep?
    ensures Apply(c, s).reader.connecting == c.reader.connecting
  {
    if s.result.ReadBytes? {
      var (done, rest) := ReadDone(c.reader.buffered, s.result.chunk);
      if done.Deliver? {
        PacketsKeepReader(Quiet(Noted(c, s.result), rest), done.packets, s.inflate);
      }
    }
  }
}
