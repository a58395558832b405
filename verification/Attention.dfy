/** What an established connection keeps pending: a receive, the next tick and, until the first
    heartbeat of the server, the heartbeat timeout. */
module Attention {
  import opened Prelude
  import opened Packets
  import opened Framing
  import opened Messages
  import opened Runtime
  import opened Protocol
  import opened Timeouts
  import opened Handshake

  /** The wait will still run its callback with success, now or later. */
  predicate Live(t: Timers, w: nat) {
    w in t.waits && !t.waits[w].status.Aborted?
  }

  ghost predicate Ticking(t: Timers, st: State, se: Session) {
    st.Connected? ==> Live(t, st.tick) && (se.heartbeats == [] ==> Live(t, st.timeout))
  }

  ghost predicate Listening(c: Conn) {
    c.state.Connected? && c.halted.None? ==> c.reader.receiving == Some(OnPackets)
  }

  ghost predicate Attended(c: Conn) {
    TimerInv(c) && Ticking(c.timers, c.state, c.session)
  }

  // ---------------------------------------------------------------------------------------
  // The timers
  // ---------------------------------------------------------------------------------------

  lemma SameTimersKeep(c: Conn, d: Conn)
    requires Attended(c)
    requires d.timers == c.timers && d.state == c.state && d.session == c.session && d.inFlight == c.inFlight
    ensures Attended(d)
  {
  }

  lemma InitedIsAttended(c: Conn)
    requires TimerInv(c) && c.state.Inited?
    ensures Attended(c)
  {
  }

  /** Destroying a request's timer leaves the heartbeat timers alone. */
  lemma FinishKeeps(c: Conn, id: nat, status: RequestStatus, data: Bytes)
    requires Attended(c) && id in c.inFlight
    ensures Attended(FinishRequest(c, id, status, data))
  {
    Timeouts.FinishKeeps(c, id, status, data);
  }

  lemma ExtendKeeps(c: Conn)
    requires Attended(c)
    ensures Attended(ExtendHeartbeatTimeout(c))
  {
    if c.state.Connected? {
      CancelKeepsArmed(c.timers, c.inFlight, c.state.timeout);
    }
  }

  lemma ProcessPacketKeeps(c: Conn, p: Packet, inflate: Bytes -> Option<Bytes>)
    requires Attended(c)
    ensures Attended(ProcessPacket(c, p, inflate))
  {
    var d := ProcessPacket(c, p, inflate);
    Timeouts.ProcessPacketKeeps(c, p, inflate);
    if p.ptype == Heartbeat {
      ExtendKeeps(c);
    } else if p.ptype == Data && c.state.Connected? {
      match Messages.Decode(p.body, c.state.codeToRoute, inflate)
      case Ok(m) =>
        if m.mtype == Response && m.id in c.inFlight {
          var c1 := c.(responses := c.responses + [m]);
          FinishKeeps(c1, m.id, if m.error then ServerError else StatusOk, m.data);
        } else {
          SameTimersKeep(c, d);
        }
      case Malformed => InitedIsAttended(d);
      case Undefined => SameTimersKeep(c, d);
    } else if p.ptype == Kick {
      InitedIsAttended(d);
    } else {
      SameTimersKeep(c, d);
    }
  }

  lemma {:induction false} ProcessPacketsKeeps(c: Conn, ps: seq<Packet>, inflate: Bytes -> Option<Bytes>)
    requires Attended(c)
    ensures Attended(ProcessPackets(c, ps, inflate))
  {
    if ps != [] {
      var init := ps[..|ps| - 1];
      ProcessPacketsKeeps(c, init, inflate);
      ProcessPacketKeeps(ProcessPackets(c, init, inflate), ps[|ps| - 1], inflate);
    }
  }

  lemma OnReceivedKeeps(c: Conn, buffered: Bytes, h: ReceiveHandler, ec: Option<ErrorCode>, ps: seq<Packet>,
                        reply: HandshakeReply, inflate: Bytes -> Option<Bytes>)
    requires Attended(c) && (h.OnHandshakeResponse? ==> c.state.Inited?)
    ensures Attended(OnReceived(Quiet(c, buffered), h, ec, ps, reply, inflate))
  {
    var c1 := Quiet(c, buffered);
    var d := OnReceived(c1, h, ec, ps, reply, inflate);
    Timeouts.OnReceivedKeeps(c1, h, ec, ps, reply, inflate);
    if ec.None? && h.OnPackets? {
      ProcessPacketsKeeps(c1, ps, inflate);
      SameTimersKeep(ProcessPackets(c1, ps, inflate), d);
    } else {
      InitedIsAttended(d);
    }
  }

  lemma ReceiveDoneKeeps(c: Conn, r: ReadResult, reply: HandshakeReply, inflate: Bytes -> Option<Bytes>)
    requires Attended(c) && c.reader.receiving.Some?
    requires c.reader.receiving == Some(OnHandshakeResponse) ==> c.state.Inited?
    ensures Attended(ReceiveDone(c, r, reply, inflate))
  {
    var h := c.reader.receiving.value;
    match r
    case ReadFailed(code) => OnReceivedKeeps(c, c.reader.buffered, h, Some(System(code)), [], reply, inflate);
    case ReadBytes(chunk) =>
      var (done, rest) := ReadDone(c.reader.buffered, chunk);
      match done
      case Deliver(ps) => OnReceivedKeeps(c, rest, h, None, ps, reply, inflate);
      case Reject => OnReceivedKeeps(c, rest, h, Some(InvalidPacketType), [], reply, inflate);
      case _ => SameTimersKeep(c, ReceiveDone(c, r, reply, inflate));
  }

  /** The wait that runs is gone; a tick is replaced by the next one in the same step, and a timeout
      that runs takes the connection down. */
  lemma RunWaitKeeps(c: Conn, w: nat)
    requires Attended(c) && w in c.timers.waits
    ensures Attended(RunWait(c, w))
  {
    Timeouts.RunWaitKeeps(c, w);
    if c.state.Connected? {
      var kind := c.timers.waits[w].kind;
      if w == c.state.tick || (kind.TickWait? && Live(c.timers, w)) {
        assert Ticking(RunWait(c, w).timers, RunWait(c, w).state, c.session);
      }
    }
  }

  lemma OnSentKeeps(c: Conn, h: SendHandler, ec: Option<int>)
    requires Attended(c)
    ensures Attended(OnSent(c, h, ec))
  {
    Timeouts.OnSentKeeps(c, h, ec);
  }

  lemma SendDoneKeeps(c: Conn, op: nat, ec: Option<int>)
    requires Attended(c) && op < |c.sender.handed|
    ensures Attended(SendDone(c, op, ec))
  {
    var c1 := c.(sender := Ended(c.sender, op, ec.None?));
    OnSentKeeps(c1, c.sender.handed[op].handler, ec);
    SameTimersKeep(OnSent(c1, c.sender.handed[op].handler, ec), SendDone(c, op, ec));
  }

  lemma RunTaskKeeps(c: Conn)
    requires Attended(c) && c.tasks.pending != []
    ensures Attended(RunTask(c))
  {
    SameTimersKeep(c, RunTask(c));
  }

  lemma ConnectDoneKeeps(c: Conn, stage: Stage, ec: Option<int>)
    requires Attended(c) && InStage(c, stage) && c.reader.connecting
    ensures Attended(ConnectDone(c, ec))
  {
    SameTimersKeep(c, ConnectDone(c, ec));
  }

  lemma StepAttended(c: Conn, stage: Stage, s: Step)
    requires Attended(c) && InStage(c, stage) && Enabled(c, s)
    ensures Attended(Apply(c, s))
  {
    match s
    case TaskStep => RunTaskKeeps(c);
    case ConnectStep(ec) => ConnectDoneKeeps(c, stage, ec);
    case SendStep(op, ec) => SendDoneKeeps(c, op, ec);
    case ReceiveStep(r, reply, inflate) => ReceiveDoneKeeps(Noted(c, r), r, reply, inflate);
    case WaitStep(w) => RunWaitKeeps(c, w);
    case Elapse(_) =>
    case Expire(_) =>
    case Start => SameTimersKeep(c, Apply(c, s));
    case PostRequest(_, _, _) => SameTimersKeep(c, Apply(c, s));
  }

  // ---------------------------------------------------------------------------------------
  // The receive
  // ---------------------------------------------------------------------------------------

  lemma {:induction false} ProcessPacketsState(c: Conn, ps: seq<Packet>, inflate: Bytes -> Option<Bytes>)
    ensures c.state.Inited? ==> ProcessPackets(c, ps, inflate).state.Inited?
    ensures ProcessPackets(c, ps, inflate).reader == c.reader
  {
    if ps != [] {
      ProcessPacketsState(c, ps[..|ps| - 1], inflate);
    }
  }

  lemma ReceiveListens(c: Conn, stage: Stage, r: ReadResult, reply: HandshakeReply, inflate: Bytes -> Option<Bytes>)
    requires InStage(c, stage) && Listening(c) && c.reader.receiving.Some?
    ensures Listening(ReceiveDone(c, r, reply, inflate))
  {
    if r.ReadBytes? {
      var (done, rest) := ReadDone(c.reader.buffered, r.chunk);
      if done.Deliver? {
        ProcessPacketsState(Quiet(c, rest), done.packets, inflate);
      }
    }
  }

  lemma StepListens(c: Conn, stage: Stage, s: Step)
    requires InStage(c, stage) && Listening(c) && Enabled(c, s)
    ensures Listening(Apply(c, s))
  {
    match s
    case ReceiveStep(r, reply, inflate) => ReceiveListens(Noted(c, r), stage, r, reply, inflate);
    case SendStep(op, ec) => SendDoneListens(c, op, ec);
    case TaskStep => assert RunTask(c).reader == c.reader && RunTask(c).state == c.state;
    case WaitStep(w) => RunWaitListens(c, w);
    case _ =>
  }

  lemma SendDoneListens(c: Conn, op: nat, ec: Option<int>)
    requires Listening(c) && c.halted.None? && op < |c.sender.handed|
    requires c.sender.handed[op].handler.HandshakeSent? ==> c.state.Inited?
    ensures Listening(SendDone(c, op, ec))
  {
  }

  lemma RunWaitListens(c: Conn, w: nat)
    requires Listening(c) && c.halted.None? && w in c.timers.waits
    ensures Listening(RunWait(c, w))
  {
  }
}
