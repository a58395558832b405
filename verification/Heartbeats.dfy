/** The heartbeat timers: when a timeout may be raised, and how often heartbeats are sent. The clock
    is one non-decreasing counter. */
module Heartbeats {
  import opened Prelude
  import opened Packets
  import opened Framing
  import opened Messages
  import opened Runtime
  import opened Protocol
  import opened Timeouts
  import opened SendPipeline

  /** At time `at` three intervals had passed since the connection was established, and no
      heartbeat of the server had been processed before it. */
  predicate Overdue(se: Session, at: nat, now: nat) {
    && se.since + se.interval * 3 <= at <= now
    && forall i :: 0 <= i < |se.heartbeats| ==> at <= se.heartbeats[i]
  }

  /** While connected there is at most one live timeout wait: still waiting for the first deadline
      with no heartbeat processed, or expired at a time that was overdue. */
  ghost predicate Watched(t: Timers, st: State, se: Session) {
    st.Connected? ==>
      && st.interval == se.interval
      && forall w :: w in t.waits && t.waits[w].kind.HeartbeatTimeoutWait? && !t.waits[w].status.Aborted? ==>
           && w == st.timeout
           && (t.waits[w].status.Waiting? ==>
                 t.waits[w].status.deadline == se.since + se.interval * 3 && se.heartbeats == [])
           && (t.waits[w].status.Expired? ==> Overdue(se, t.waits[w].status.at, t.now))
  }

  /** The tick numbered `ticks` + 1 is not due before as many intervals have passed. */
  ghost predicate Paced(t: Timers, st: State, se: Session) {
    && se.since + se.ticks * se.interval <= t.now
    && (st.Connected? ==>
          && st.interval == se.interval
          && forall w :: w in t.waits && t.waits[w].kind.TickWait? && !t.waits[w].status.Aborted? ==>
               && w == st.tick
               && (t.waits[w].status.Waiting? ==>
                     t.waits[w].status.deadline >= se.since + se.ticks * se.interval + se.interval)
               && (t.waits[w].status.Expired? ==>
                     se.since + se.ticks * se.interval + se.interval <= t.now))
  }

  ghost predicate Blamed(events: seq<Event>, se: Session, now: nat) {
    ConnectionErrorEvent(HeartbeatTimeout) in events ==> exists at :: Overdue(se, at, now)
  }

  /** Until the connection has been announced neither heartbeat timer has been waited on. */
  ghost predicate Unstarted(events: seq<Event>, t: Timers, st: State) {
    ConnectedEvent !in events ==>
      st.Inited? && forall w :: w in t.waits ==> t.waits[w].kind.RequestTimeoutWait?
  }

  /** The heartbeat packets among those offered to SendPacket. */
  function Beats(sent: seq<Sent>): nat {
    if sent == [] then 0
    else Beats(sent[..|sent| - 1]) + if sent[|sent| - 1].handler.HeartbeatSent? then 1 else 0
  }

  /** One heartbeat packet was offered per tick that ran while connected, and no other. */
  ghost predicate BeatsCounted(s: Sender, se: Session) {
    Beats(s.accepted) + Beats(s.refused) == se.ticks
  }

  ghost predicate HeartbeatInv(c: Conn) {
    && Numbered(c.timers, c.state)
    && Watched(c.timers, c.state, c.session)
    && Paced(c.timers, c.state, c.session)
    && Blamed(c.events, c.session, c.timers.now)
    && Unstarted(c.events, c.timers, c.state)
    && BeatsCounted(c.sender, c.session)
  }

  // ---------------------------------------------------------------------------------------

  lemma BeatsAppend(sent: seq<Sent>, s: Sent)
    ensures Beats(sent + [s]) == Beats(sent) + if s.handler.HeartbeatSent? then 1 else 0
  {
    assert (sent + [s])[..|sent|] == sent;
  }

  lemma SendCounts(c: Conn, p: Packet, h: SendHandler)
    ensures var s := SendPacket(c, p, h).sender;
            Beats(s.accepted) + Beats(s.refused) ==
            Beats(c.sender.accepted) + Beats(c.sender.refused) + if h.HeartbeatSent? then 1 else 0
  {
    BeatsAppend(c.sender.accepted, Sent(p, h));
    BeatsAppend(c.sender.refused, Sent(p, h));
  }

  /** A packet that is not a heartbeat. */
  lemma SendOtherKeeps(c: Conn, p: Packet, h: SendHandler)
    requires HeartbeatInv(c) && !h.HeartbeatSent?
    ensures HeartbeatInv(SendPacket(c, p, h))
  {
    SendCounts(c, p, h);
  }

  ghost predicate SameHeartbeats(c: Conn, d: Conn) {
    && d.state == c.state && d.session == c.session && d.events == c.events
    && d.sender.accepted == c.sender.accepted && d.sender.refused == c.sender.refused
  }

  lemma SameKeeps(c: Conn, d: Conn)
    requires HeartbeatInv(c) && SameHeartbeats(c, d) && d.timers == c.timers
    ensures HeartbeatInv(d)
  {
  }

  /** Cancelling one wait, whichever it is. */
  lemma CancelKeeps(c: Conn, d: Conn, w: nat)
    requires HeartbeatInv(c) && SameHeartbeats(c, d) && d.timers == Cancel(c.timers, w)
    ensures HeartbeatInv(d)
  {
  }

  /** Starting a wait of a request. */
  lemma RequestWaitKeeps(c: Conn, d: Conn, id: nat, deadline: nat)
    requires HeartbeatInv(c) && SameHeartbeats(c, d)
    requires d.timers == AsyncWait(c.timers, RequestTimeoutWait(id), deadline)
    ensures HeartbeatInv(d)
  {
  }

  lemma RemoveKeeps(c: Conn, w: nat)
    requires HeartbeatInv(c)
    ensures HeartbeatInv(c.(timers := c.timers.(waits := c.timers.waits - {w})))
  {
  }

  /** Losing the connection for a reason other than the timeout, or for the timeout if overdue. */
  lemma DownKeeps(c: Conn, event: Event)
    requires HeartbeatInv(c)
    requires event == ConnectionErrorEvent(HeartbeatTimeout) ==> exists at :: Overdue(c.session, at, c.timers.now)
    ensures var d := SetInited(c); HeartbeatInv(d.(events := d.events + [event]))
  {
  }

  lemma ErrorKeeps(c: Conn, why: ErrorCode)
    requires HeartbeatInv(c) && why != HeartbeatTimeout
    ensures HeartbeatInv(ConnectionError(c, why)) && HeartbeatInv(KickedFromServer(c))
  {
    DownKeeps(c, ConnectionErrorEvent(why));
    DownKeeps(c, KickedEvent);
  }

  lemma FailedKeeps(c: Conn, why: ErrorCode)
    requires HeartbeatInv(c)
    ensures HeartbeatInv(HandshakeFailed(c, why))
  {
    DownKeeps(c, ConnectionFailedEvent(why));
  }

  /** Establishing the connection, for the first time. */
  lemma UpKeeps(c: Conn, interval: nat, dict: RouteDict)
    requires HeartbeatInv(c) && c.state.Inited? && c.session == INIT.session && c.events == []
    ensures HeartbeatInv(StartReceivingPackets(c, interval, dict))
  {
    var d := StartReceivingPackets(c, interval, dict);
    assert d.events == [ConnectedEvent] && d.events[0] in d.events;
    assert Numbered(d.timers, d.state);
    assert 0 * interval == 0;
  }

  /** Processing a heartbeat aborts the wait if it was still waiting; if it had expired, the
      heartbeat came after that. */
  lemma ExtendKeeps(c: Conn)
    requires HeartbeatInv(c)
    ensures HeartbeatInv(ExtendHeartbeatTimeout(c))
  {
    if c.state.Connected? {
      var d := ExtendHeartbeatTimeout(c);
      assert Watched(d.timers, d.state, d.session);
      assert forall at :: Overdue(c.session, at, c.timers.now) ==> Overdue(d.session, at, d.timers.now);
    }
  }

  lemma NextTick(se: Session)
    ensures (se.ticks + 1) * se.interval == se.ticks * se.interval + se.interval
  {
  }

  /** A tick that was due sends one heartbeat and becomes due again an interval later. */
  lemma TickKeeps(c: Conn)
    requires HeartbeatInv(c)
    requires c.state.Connected? ==>
               c.session.since + c.session.ticks * c.session.interval + c.session.interval <= c.timers.now
    requires c.state.Connected? ==>
               forall w :: w in c.timers.waits && c.timers.waits[w].kind.TickWait? ==> c.timers.waits[w].status.Aborted?
    ensures HeartbeatInv(HeartbeatTick(c))
  {
    if c.state.Connected? {
      var d := HeartbeatTick(c);
      SendCounts(c, Packet(Heartbeat, []), HeartbeatSent);
      NextTick(c.session);
      assert Numbered(d.timers, d.state);
      assert Paced(d.timers, d.state, d.session);
      assert forall at :: Overdue(c.session, at, c.timers.now) ==> Overdue(d.session, at, d.timers.now);
    }
  }

  // ---------------------------------------------------------------------------------------

  lemma ElapseKeeps(c: Conn, time: nat)
    requires HeartbeatInv(c)
    ensures HeartbeatInv(c.(timers := c.timers.(now := c.timers.now + time)))
  {
    var d := c.(timers := c.timers.(now := c.timers.now + time));
    assert forall at :: Overdue(c.session, at, c.timers.now) ==> Overdue(c.session, at, d.timers.now);
  }

  lemma ExpireKeeps(c: Conn, w: nat)
    requires HeartbeatInv(c) && w in c.timers.waits
    requires c.timers.waits[w].status.Waiting? && c.timers.waits[w].status.deadline <= c.timers.now
    ensures HeartbeatInv(c.(timers := ExpireWait(c.timers, w)))
  {
  }

  lemma RunWaitKeeps(c: Conn, w: nat)
    requires HeartbeatInv(c) && w in c.timers.waits && !c.timers.waits[w].status.Waiting?
    ensures HeartbeatInv(RunWait(c, w))
  {
    var c1 := c.(timers := c.timers.(waits := c.timers.waits - {w}));
    var wait := c.timers.waits[w];
    RemoveKeeps(c, w);
    if wait.status.Expired? {
      match wait.kind
      case TickWait => TickKeeps(c1);
      case HeartbeatTimeoutWait =>
        if c.state.Connected? {
          assert Overdue(c1.session, wait.status.at, c1.timers.now);
          DownKeeps(c1, ConnectionErrorEvent(HeartbeatTimeout));
        }
      case RequestTimeoutWait(id) =>
        if id in c.inFlight {
          CancelKeeps(c1, RunWait(c, w), c.inFlight[id].wait);
        }
    }
  }

  lemma OnSentKeeps(c: Conn, h: SendHandler, ec: Option<int>)
    requires HeartbeatInv(c)
    requires h.AckSent? ==> c.state.Inited? && c.session == INIT.session && c.events == []
    ensures HeartbeatInv(OnSent(c, h, ec))
  {
    match h
    case HandshakeSent =>
      if ec.Some? { FailedKeeps(c, System(ec.value)); } else { SameKeeps(c, OnSent(c, h, ec)); }
    case AckSent(interval, dict) => UpKeeps(c, interval, dict);
    case HeartbeatSent => if ec.Some? { ErrorKeeps(c, System(ec.value)); }
    case RequestSent(id, token, timeout) =>
      if ec.None? && id !in c.inFlight {
        RequestWaitKeeps(c, OnSent(c, h, ec), id, c.timers.now + timeout);
      } else {
        SameKeeps(c, OnSent(c, h, ec));
      }
  }

  lemma SendDoneKeeps(c: Conn, op: nat, ec: Option<int>)
    requires HeartbeatInv(c) && op < |c.sender.handed|
    requires c.sender.handed[op].handler.AckSent? ==> c.state.Inited? && c.session == INIT.session && c.events == []
    ensures HeartbeatInv(SendDone(c, op, ec))
  {
    var c1 := c.(sender := Ended(c.sender, op, ec.None?));
    SameKeeps(c, c1);
    OnSentKeeps(c1, c.sender.handed[op].handler, ec);
    SameKeeps(OnSent(c1, c.sender.handed[op].handler, ec), SendDone(c, op, ec));
  }

  lemma ProcessPacketKeeps(c: Conn, p: Packet, inflate: Bytes -> Option<Bytes>)
    requires HeartbeatInv(c)
    ensures HeartbeatInv(ProcessPacket(c, p, inflate))
  {
    match p.ptype
    case Heartbeat => ExtendKeeps(c);
    case Kick => ErrorKeeps(c, WrongPacket);
    case Data =>
      ErrorKeeps(c, WrongPacket);
      if c.state.Connected? {
        match Messages.Decode(p.body, c.state.codeToRoute, inflate)
        case Malformed => ErrorKeeps(c, InvalidMessage);
        case Undefined => SameKeeps(c, ProcessPacket(c, p, inflate));
        case Ok(m) => ProcessMessageKeeps(c, m);
      }
    case _ => SameKeeps(c, ProcessPacket(c, p, inflate));
  }

  lemma ProcessMessageKeeps(c: Conn, m: Message)
    requires HeartbeatInv(c)
    ensures HeartbeatInv(ProcessMessage(c, m))
  {
    if m.mtype == Response && m.id in c.inFlight {
      CancelKeeps(c, ProcessMessage(c, m), c.inFlight[m.id].wait);
    } else {
      SameKeeps(c, ProcessMessage(c, m));
    }
  }

  lemma {:induction false} ProcessPacketsKeeps(c: Conn, ps: seq<Packet>, inflate: Bytes -> Option<Bytes>)
    requires HeartbeatInv(c)
    ensures HeartbeatInv(ProcessPackets(c, ps, inflate))
  {
    if ps != [] {
      var init := ps[..|ps| - 1];
      ProcessPacketsKeeps(c, init, inflate);
      ProcessPacketKeeps(ProcessPackets(c, init, inflate), ps[|ps| - 1], inflate);
    }
  }

  lemma OnHandshakeKeeps(c: Conn, ps: seq<Packet>, reply: HandshakeReply)
    requires HeartbeatInv(c)
    ensures HeartbeatInv(OnHandshakePackets(c, ps, reply))
  {
    if |ps| == 1 && ps[0].ptype == PacketType.Handshake {
      match reply
      case BadCompression => ErrorKeeps(c, InvalidHandshakeCompression);
      case BadJson => ErrorKeeps(c, InvalidHeartbeatJson);
      case Good(interval, dict) => SendOtherKeeps(c, Packet(HandshakeAck, []), AckSent(interval, dict));
    } else if ps == [] {
      SameKeeps(c, OnHandshakePackets(c, ps, reply));
    } else {
      FailedKeeps(c, if |ps| > 1 then TooManyPackets else WrongPacket);
    }
  }

  lemma OnReceivedKeeps(c: Conn, buffered: Bytes, h: ReceiveHandler, ec: Option<ErrorCode>, ps: seq<Packet>,
                        reply: HandshakeReply, inflate: Bytes -> Option<Bytes>)
    requires HeartbeatInv(c) && ec != Some(HeartbeatTimeout)
    ensures HeartbeatInv(OnReceived(Quiet(c, buffered), h, ec, ps, reply, inflate))
  {
    var c1 := Quiet(c, buffered);
    SameKeeps(c, c1);
    if ec.Some? {
      FailedKeeps(c1, ec.value);
      ErrorKeeps(c1, ec.value);
    } else if h.OnHandshakeResponse? {
      OnHandshakeKeeps(c1, ps, reply);
    } else {
      ProcessPacketsKeeps(c1, ps, inflate);
      SameKeeps(ProcessPackets(c1, ps, inflate), OnReceived(c1, h, ec, ps, reply, inflate));
    }
  }

  lemma ReceiveDoneKeeps(c: Conn, r: ReadResult, reply: HandshakeReply, inflate: Bytes -> Option<Bytes>)
    requires HeartbeatInv(c) && c.reader.receiving.Some?
    ensures HeartbeatInv(ReceiveDone(c, r, reply, inflate))
  {
    var h := c.reader.receiving.value;
    match r
    case ReadFailed(code) => OnReceivedKeeps(c, c.reader.buffered, h, Some(System(code)), [], reply, inflate);
    case ReadBytes(chunk) =>
      var (done, rest) := ReadDone(c.reader.buffered, chunk);
      match done
      case Deliver(ps) => OnReceivedKeeps(c, rest, h, None, ps, reply, inflate);
      case Reject => OnReceivedKeeps(c, rest, h, Some(InvalidPacketType), [], reply, inflate);
      case _ => SameKeeps(c, ReceiveDone(c, r, reply, inflate));
  }

  lemma RunTaskKeeps(c: Conn)
    requires HeartbeatInv(c) && c.tasks.pending != []
    ensures HeartbeatInv(RunTask(c))
  {
    var c1 := c.(tasks := PopTask(c.tasks));
    SameKeeps(c, c1);
    match c.tasks.pending[0]
    case RunRequest(token, route, data, timeout) => RunRequestKeeps(c1, token, route, data, timeout);
    case SendNext(h) => SameKeeps(c1, RunTask(c));
  }

  lemma RunRequestKeeps(c: Conn, token: nat, route: string, data: Bytes, timeout: nat)
    requires HeartbeatInv(c)
    ensures HeartbeatInv(RunRequestTask(c, token, route, data, timeout))
  {
    var d := RunRequestTask(c, token, route, data, timeout);
    if c.state.Connected? {
      var c1 := c.(reqId := (c.reqId + 1) % TWO_TO_64, issued := c.issued + 1);
      SameKeeps(c, c1);
      match Messages.Encode(NewRequest(c.reqId, route, data), c.state.routeToCode)
      case None => SameKeeps(c, d);
      case Some(body) => SendOtherKeeps(c1, Packet(Data, body), RequestSent(c.reqId, token, timeout));
    } else {
      SameKeeps(c, d);
    }
  }

  lemma ConnectDoneKeeps(c: Conn, ec: Option<int>)
    requires HeartbeatInv(c)
    ensures HeartbeatInv(ConnectDone(c, ec))
  {
    var c1 := c.(reader := c.reader.(connecting := false));
    SameKeeps(c, c1);
    if ec.Some? {
      FailedKeeps(c1, System(ec.value));
    } else {
      SendOtherKeeps(c1, Packet(PacketType.Handshake, BytesOf(HANDSHAKE_JSON)), HandshakeSent);
    }
  }

  lemma StepKeeps(c: Conn, s: Step)
    requires HeartbeatInv(c) && Enabled(c, s)
    requires s.SendStep? && c.sender.handed[s.op].handler.AckSent? ==>
               c.state.Inited? && c.session == INIT.session && c.events == []
    ensures HeartbeatInv(Apply(c, s))
  {
    match s
    case Start => SameKeeps(c, Apply(c, s));
    case PostRequest(_, _, _) => SameKeeps(c, Apply(c, s));
    case TaskStep => RunTaskKeeps(c);
    case ConnectStep(ec) => ConnectDoneKeeps(c, ec);
    case SendStep(op, ec) => SendDoneKeeps(c, op, ec);
    case ReceiveStep(r, reply, inflate) =>
      SameKeeps(c, Noted(c, r));
      ReceiveDoneKeeps(Noted(c, r), r, reply, inflate);
    case Elapse(time) => ElapseKeeps(c, time);
    case Expire(w) => ExpireKeeps(c, w);
    case WaitStep(w) => RunWaitKeeps(c, w);
  }

  // ---------------------------------------------------------------------------------------
  // Heartbeats offered, step by step
  // ---------------------------------------------------------------------------------------

  /** All heartbeat packets offered to SendPacket so far. */
  function Offered(s: Sender): nat { Beats(s.accepted) + Beats(s.refused) }

  /** The callback of an expired tick runs while connected. */
  predicate TickRuns(c: Conn, s: Step)
    requires Enabled(c, s)
  {
    && c.state.Connected? && s.WaitStep?
    && c.timers.waits[s.wait].kind.TickWait? && c.timers.waits[s.wait].status.Expired?
  }

  lemma WaitOffers(c: Conn, s: Step)
    requires Enabled(c, s) && s.WaitStep?
    ensures Offered(Apply(c, s).sender) == Offered(c.sender) + if TickRuns(c, s) then 1 else 0
  {
    var c1 := c.(timers := c.timers.(waits := c.timers.waits - {s.wait}));
    SendCounts(c1, Packet(Heartbeat, []), HeartbeatSent);
  }

  lemma TaskOffersNone(c: Conn)
    requires c.tasks.pending != []
    ensures Offered(RunTask(c).sender) == Offered(c.sender)
  {
    if c.tasks.pending[0].RunRequest? && c.state.Connected? {
      var t := c.tasks.pending[0];
      var c1 := c.(tasks := PopTask(c.tasks), reqId := (c.reqId + 1) % TWO_TO_64, issued := c.issued + 1);
      var body := Messages.Encode(NewRequest(c.reqId, t.route, t.data), c.state.routeToCode);
      if body.Some? {
        SendCounts(c1, Packet(Data, body.value), RequestSent(c.reqId, t.token, t.timeout));
      }
    }
  }

  lemma ReceiveOffersNone(c: Conn, s: Step)
    requires Enabled(c, s) && s.ReceiveStep?
    ensures Offered(Apply(c, s).sender) == Offered(c.sender)
  {
    var h := c.reader.receiving.value;
    var c1 := Noted(c, s.result);
    match s.result
    case ReadFailed(code) =>
      CallbackOffersNone(Quiet(c1, c1.reader.buffered), h, Some(System(code)), [], s.reply, s.inflate);
    case ReadBytes(chunk) =>
      var (done, rest) := ReadDone(c.reader.buffered, chunk);
      match done
      case Deliver(ps) => CallbackOffersNone(Quiet(c1, rest), h, None, ps, s.reply, s.inflate);
      case Reject => CallbackOffersNone(Quiet(c1, rest), h, Some(InvalidPacketType), [], s.reply, s.inflate);
      case _ =>
  }

  lemma CallbackOffersNone(c: Conn, h: ReceiveHandler, ec: Option<ErrorCode>, ps: seq<Packet>,
                           reply: HandshakeReply, inflate: Bytes -> Option<Bytes>)
    ensures Offered(OnReceived(c, h, ec, ps, reply, inflate).sender) == Offered(c.sender)
  {
    if ec.None? && h.OnPackets? {
      ProcessPacketsKeepsSends(c, ps, inflate);
    } else if ec.None? && reply.Good? {
      SendCounts(c, Packet(HandshakeAck, []), AckSent(reply.interval, reply.dict));
    }
  }

  lemma ConnectOffersNone(c: Conn, ec: Option<int>)
    ensures Offered(ConnectDone(c, ec).sender) == Offered(c.sender)
  {
    var c1 := c.(reader := c.reader.(connecting := false));
    SendCounts(c1, Packet(PacketType.Handshake, BytesOf(HANDSHAKE_JSON)), HandshakeSent);
  }

  /** A heartbeat packet is offered by exactly the steps in which a tick runs while connected. */
  lemma StepOffers(c: Conn, s: Step)
    requires Enabled(c, s)
    ensures Offered(Apply(c, s).sender) == Offered(c.sender) + if TickRuns(c, s) then 1 else 0
  {
    match s
    case WaitStep(_) => WaitOffers(c, s);
    case TaskStep => TaskOffersNone(c);
    case ReceiveStep(_, _, _) => ReceiveOffersNone(c, s);
    case ConnectStep(ec) => ConnectOffersNone(c, ec);
    case _ =>
  }
}
