/** Why a handler is called and why an event is broadcast: what each step appends to the answers and to
    the events, takes out of flight or puts in flight, and exactly on what grounds. */
module Causes {
  import opened Prelude
  import opened Packets
  import opened Framing
  import opened Messages
  import opened Runtime
  import opened Protocol
  import opened Halts
  import opened Batches

  /** The packets of this step go to an established connection's receive handler. */
  predicate DeliversPackets(c: Conn, s: Step) {
    s.ReceiveStep? && c.reader.receiving == Some(OnPackets)
  }

  /** Exactly when a step calls a handler with this answer. Reset is never given. */
  ghost predicate AnswerCause(c: Conn, s: Step, a: Answer)
    requires Enabled(c, s)
  {
    match a.status
    case NotConnectedError =>
      && s.TaskStep? && c.state.Inited? && a.data == []
      && c.tasks.pending[0].RunRequest? && c.tasks.pending[0].token == a.token
    case InternalError =>
      s.SendStep? && s.ec.Some? && a.data == [] &&
      var h := c.sender.handed[s.op].handler; h.RequestSent? && h.token == a.token
    case Timeout =>
      s.WaitStep? && a.data == [] &&
      var w := c.timers.waits[s.wait];
      && w.status.Expired? && w.kind.RequestTimeoutWait?
      && w.kind.id in c.inFlight && c.inFlight[w.kind.id].token == a.token
    case StatusOk => DeliversPackets(c, s) && SomeAnswers(c.state, c.inFlight, Delivered(c, s), s.inflate, a)
    case ServerError => DeliversPackets(c, s) && SomeAnswers(c.state, c.inFlight, Delivered(c, s), s.inflate, a)
    case Reset => false
  }

  /** The receive of the handshake response fails, or brings something other than one handshake packet. */
  predicate BadReply(c: Conn, s: Step, why: ErrorCode)
    requires s.ReceiveStep?
  {
    match s.result
    case ReadFailed(code) => why == System(code)
    case ReadBytes(chunk) =>
      var done := ReadDone(c.reader.buffered, chunk).0;
      match done
      case Reject => why == InvalidPacketType
      case Deliver(ps) =>
        if |ps| > 1 then why == TooManyPackets
        else |ps| == 1 && ps[0].ptype != PacketType.Handshake && why == WrongPacket
      case _ => false
  }

  /** Exactly when a step broadcasts this event. */
  ghost predicate EventCause(c: Conn, s: Step, e: Event)
    requires Enabled(c, s)
  {
    match e
    case ConnectedEvent => s.SendStep? && s.ec.None? && c.sender.handed[s.op].handler.AckSent?
    case ConnectionFailedEvent(why) =>
      || (s.ConnectStep? && s.ec.Some? && why == System(s.ec.value))
      || (s.SendStep? && s.ec.Some? && c.sender.handed[s.op].handler.HandshakeSent? && why == System(s.ec.value))
      || (s.ReceiveStep? && c.reader.receiving == Some(OnHandshakeResponse) && BadReply(c, s, why))
    case KickedEvent => DeliversPackets(c, s) && SomeBreaks(c.state, Delivered(c, s), s.inflate, e)
    case ConnectionErrorEvent(why) =>
      c.state.Connected? && (
        match why
        case HeartbeatTimeout =>
          s.WaitStep? && c.timers.waits[s.wait].kind.HeartbeatTimeoutWait? && c.timers.waits[s.wait].status.Expired?
        case InvalidMessage => DeliversPackets(c, s) && SomeBreaks(c.state, Delivered(c, s), s.inflate, e)
        case InvalidPacketType =>
          && DeliversPackets(c, s) && s.result.ReadBytes?
          && ReadDone(c.reader.buffered, s.result.chunk).0.Reject?
        case System(code) =>
          || (DeliversPackets(c, s) && s.result == ReadFailed(code))
          || (s.SendStep? && s.ec == Some(code) && c.sender.handed[s.op].handler.HeartbeatSent?)
        case _ => false
      )
  }

  /** The step gives exactly these answers and broadcasts exactly these events, at most one. */
  ghost predicate Grounded(c: Conn, s: Step)
    requires Enabled(c, s)
  {
    var d := Apply(c, s);
    && c.answers <= d.answers && (forall a :: NewAnswer(c, d, a) <==> AnswerCause(c, s, a))
    && c.events <= d.events && |d.events| <= |c.events| + 1
    && (forall e :: NewEvent(c, d, e) <==> EventCause(c, s, e))
  }

  // ---------------------------------------------------------------------------------------
  // What is new
  // ---------------------------------------------------------------------------------------

  lemma SameAnswers(c: Conn, d: Conn)
    requires d.answers == c.answers
    ensures forall a :: !NewAnswer(c, d, a)
  {
  }

  lemma OneAnswer(c: Conn, d: Conn, a: Answer)
    requires d.answers == c.answers + [a]
    ensures forall b :: NewAnswer(c, d, b) <==> b == a
  {
    assert d.answers[|c.answers|..] == [a];
  }

  lemma SameEvents(c: Conn, d: Conn)
    requires d.events == c.events
    ensures forall e :: !NewEvent(c, d, e)
  {
  }

  lemma OneEvent(c: Conn, d: Conn, e: Event)
    requires d.events == c.events + [e]
    ensures forall v :: NewEvent(c, d, v) <==> v == e
  {
    assert d.events[|c.events|..] == [e];
  }

  // ---------------------------------------------------------------------------------------
  // Each kind of step
  // ---------------------------------------------------------------------------------------

  lemma TaskGrounded(c: Conn, s: Step)
    requires Enabled(c, s) && s.TaskStep?
    ensures Grounded(c, s)
  {
    var d := Apply(c, s);
    var t := c.tasks.pending[0];
    assert d.events == c.events;
    SameEvents(c, d);
    if t.RunRequest? && c.state.Inited? {
      assert d.answers == c.answers + [Answer(t.token, NotConnectedError, [])];
      OneAnswer(c, d, Answer(t.token, NotConnectedError, []));
    } else {
      assert d.answers == c.answers;
      SameAnswers(c, d);
    }
  }

  lemma FailedSendGrounded(c: Conn, s: Step)
    requires Enabled(c, s) && s.SendStep? && s.ec.Some?
    ensures Grounded(c, s)
  {
    var d := Apply(c, s);
    var h := c.sender.handed[s.op].handler;
    if h.RequestSent? {
      assert d.answers == c.answers + [Answer(h.token, InternalError, [])] && d.events == c.events;
      OneAnswer(c, d, Answer(h.token, InternalError, []));
      SameEvents(c, d);
    } else {
      assert d.answers == c.answers;
      SameAnswers(c, d);
      FailedSendEvents(c, s);
    }
  }

  lemma FailedSendEvents(c: Conn, s: Step)
    requires Enabled(c, s) && s.SendStep? && s.ec.Some? && !c.sender.handed[s.op].handler.RequestSent?
    ensures var d := Apply(c, s);
            && c.events <= d.events && |d.events| <= |c.events| + 1
            && (forall e :: NewEvent(c, d, e) <==> EventCause(c, s, e))
  {
    var d := Apply(c, s);
    var why := System(s.ec.value);
    match c.sender.handed[s.op].handler
    case HandshakeSent => OneEvent(c, d, ConnectionFailedEvent(why));
    case AckSent(_, _) => SameEvents(c, d);
    case HeartbeatSent =>
      if c.state.Connected? {
        OneEvent(c, d, ConnectionErrorEvent(why));
      } else {
        SameEvents(c, d);
      }
  }

  lemma GoodSendGrounded(c: Conn, s: Step)
    requires Enabled(c, s) && s.SendStep? && s.ec.None?
    ensures Grounded(c, s)
  {
    var d := Apply(c, s);
    GoodSendEvents(c, s);
    SameAnswers(c, d);
    if c.sender.handed[s.op].handler.AckSent? {
      OneEvent(c, d, ConnectedEvent);
    } else {
      SameEvents(c, d);
    }
  }

  lemma GoodSendEvents(c: Conn, s: Step)
    requires Enabled(c, s) && s.SendStep? && s.ec.None?
    ensures Apply(c, s).answers == c.answers
    ensures Apply(c, s).events ==
            if c.sender.handed[s.op].handler.AckSent? then c.events + [ConnectedEvent] else c.events
  {
  }

  lemma WaitGrounded(c: Conn, s: Step)
    requires Enabled(c, s) && s.WaitStep?
    ensures Grounded(c, s)
  {
    var d := Apply(c, s);
    var w := c.timers.waits[s.wait];
    if w.status.Expired? && w.kind.RequestTimeoutWait? && w.kind.id in c.inFlight {
      assert d.answers == c.answers + [Answer(c.inFlight[w.kind.id].token, Timeout, [])] && d.events == c.events;
      OneAnswer(c, d, Answer(c.inFlight[w.kind.id].token, Timeout, []));
      SameEvents(c, d);
    } else {
      assert d.answers == c.answers;
      SameAnswers(c, d);
      if w.status.Expired? && w.kind.HeartbeatTimeoutWait? && c.state.Connected? {
        OneEvent(c, d, ConnectionErrorEvent(HeartbeatTimeout));
      } else {
        assert d.events == c.events;
        SameEvents(c, d);
      }
    }
  }

  lemma ConnectGrounded(c: Conn, s: Step)
    requires Enabled(c, s) && s.ConnectStep?
    ensures Grounded(c, s)
  {
    var d := Apply(c, s);
    assert d.answers == c.answers;
    SameAnswers(c, d);
    if s.ec.Some? {
      OneEvent(c, d, ConnectionFailedEvent(System(s.ec.value)));
    } else {
      SameEvents(c, d);
    }
  }

  /** The handshake response. */
  lemma ReplyGrounded(c: Conn, s: Step)
    requires Enabled(c, s) && s.ReceiveStep? && c.reader.receiving == Some(OnHandshakeResponse) && c.state.Inited?
    ensures Grounded(c, s)
  {
    var d := Apply(c, s);
    ReplyEvents(c, s);
    SameAnswers(c, d);
    if why :| BadReply(c, s, why) {
      OneEvent(c, d, ConnectionFailedEvent(why));
    } else {
      SameEvents(c, d);
    }
  }

  lemma ReplyEvents(c: Conn, s: Step)
    requires Enabled(c, s) && s.ReceiveStep? && c.reader.receiving == Some(OnHandshakeResponse) && c.state.Inited?
    ensures Apply(c, s).answers == c.answers
    ensures forall why :: BadReply(c, s, why) ==> Apply(c, s).events == c.events + [ConnectionFailedEvent(why)]
    ensures (forall why :: !BadReply(c, s, why)) ==> Apply(c, s).events == c.events
  {
    var c1 := Noted(c, s.result);
    if s.result.ReadFailed? {
      assert BadReply(c, s, System(s.result.code));
    } else {
      var (done, rest) := ReadDone(c.reader.buffered, s.result.chunk);
      if done.Reject? {
        assert BadReply(c, s, InvalidPacketType);
      } else if done.Deliver? {
        assert Apply(c, s) == OnHandshakePackets(Quiet(c1, rest), done.packets, s.reply);
        LoneReplyEvents(Quiet(c1, rest), done.packets, s.reply);
        assert |done.packets| > 1 ==> BadReply(c, s, TooManyPackets);
        assert |done.packets| == 1 && done.packets[0].ptype != PacketType.Handshake ==> BadReply(c, s, WrongPacket);
      }
    }
  }

  lemma LoneReplyEvents(c: Conn, ps: seq<Packet>, reply: HandshakeReply)
    requires c.state.Inited? && ps != []
    ensures var d := OnHandshakePackets(c, ps, reply);
            && d.answers == c.answers
            && d.events == (if |ps| > 1 then c.events + [ConnectionFailedEvent(TooManyPackets)]
                            else if ps[0].ptype != PacketType.Handshake
                            then c.events + [ConnectionFailedEvent(WrongPacket)]
                            else c.events)
  {
  }

  /** A batch for an established connection, or for one that has been lost. */
  lemma BatchGrounded(c: Conn, s: Step)
    requires Enabled(c, s) && DeliversPackets(c, s) && Delivered(c, s) != []
    ensures Grounded(c, s)
  {
    var rest := ReadDone(c.reader.buffered, s.result.chunk).1;
    var ps := Delivered(c, s);
    var c1 := Quiet(Noted(c, s.result), rest);
    var d := ProcessPackets(c1, ps, s.inflate);
    assert Apply(c, s).answers == d.answers && Apply(c, s).events == d.events;
    BatchAnswers(c1, ps, s.inflate);
    BatchEvents(c1, ps, s.inflate);
    forall a ensures NewAnswer(c, Apply(c, s), a) <==> AnswerCause(c, s, a) {
      assert NewAnswer(c, Apply(c, s), a) <==> NewAnswer(c1, d, a);
    }
    forall e ensures NewEvent(c, Apply(c, s), e) <==> EventCause(c, s, e) {
      assert NewEvent(c, Apply(c, s), e) <==> NewEvent(c1, d, e);
    }
  }

  lemma NoBatchGrounded(c: Conn, s: Step)
    requires Enabled(c, s) && DeliversPackets(c, s) && Delivered(c, s) == []
    ensures Grounded(c, s)
  {
    var d := Apply(c, s);
    NoBatchEvents(c, s);
    SameAnswers(c, d);
    if c.state.Connected? && s.result.ReadFailed? {
      OneEvent(c, d, ConnectionErrorEvent(System(s.result.code)));
    } else if c.state.Connected? && ReadDone(c.reader.buffered, s.result.chunk).0.Reject? {
      OneEvent(c, d, ConnectionErrorEvent(InvalidPacketType));
    } else {
      SameEvents(c, d);
    }
  }

  lemma NoBatchEvents(c: Conn, s: Step)
    requires Enabled(c, s) && DeliversPackets(c, s) && Delivered(c, s) == []
    ensures Apply(c, s).answers == c.answers
    ensures Apply(c, s).events ==
            if c.state.Connected? && s.result.ReadFailed?
            then c.events + [ConnectionErrorEvent(System(s.result.code))]
            else if c.state.Connected? && ReadDone(c.reader.buffered, s.result.chunk).0.Reject?
            then c.events + [ConnectionErrorEvent(InvalidPacketType)]
            else c.events
  {
    var c1 := Quiet(Noted(c, s.result), ReadOver(c, s.result));
    if s.result.ReadFailed? {
      assert Apply(c, s) == ConnectionError(c1, System(s.result.code));
    } else if ReadDone(c.reader.buffered, s.result.chunk).0.Reject? {
      assert Apply(c, s) == ConnectionError(c1, InvalidPacketType);
    }
  }

  /** The bytes held after a read. */
  function ReadOver(c: Conn, r: ReadResult): Bytes {
    if r.ReadFailed? then c.reader.buffered else ReadDone(c.reader.buffered, r.chunk).1
  }

  /** A step calls a handler, or broadcasts an event, if and only if it has the cause for it. */
  lemma StepGrounded(c: Conn, s: Step)
    requires Enabled(c, s)
    requires c.reader.receiving == Some(OnHandshakeResponse) ==> c.state.Inited?
    ensures Grounded(c, s)
  {
    match s
    case ReceiveStep(_, _, _) =>
      match c.reader.receiving.value {
        case OnHandshakeResponse => ReplyGrounded(c, s);
        case OnPackets => if Delivered(c, s) == [] { NoBatchGrounded(c, s); } else { BatchGrounded(c, s); }
      }
    case SendStep(_, ec) => if ec.Some? { FailedSendGrounded(c, s); } else { GoodSendGrounded(c, s); }
    case TaskStep => TaskGrounded(c, s);
    case WaitStep(_) => WaitGrounded(c, s);
    case ConnectStep(_) => ConnectGrounded(c, s);
    case _ =>
      SameAnswers(c, Apply(c, s));
      SameEvents(c, Apply(c, s));
  }

  // ---------------------------------------------------------------------------------------
  // Requests in flight
  // ---------------------------------------------------------------------------------------

  /** The send of this request's packet succeeds. */
  predicate Launches(c: Conn, s: Step, id: nat)
    requires Enabled(c, s)
  {
    s.SendStep? && s.ec.None? && c.sender.handed[s.op].handler.RequestSent? && c.sender.handed[s.op].handler.id == id
  }

  /** Its timeout runs, or a response for it is processed. */
  ghost predicate Lands(c: Conn, s: Step, id: nat)
    requires Enabled(c, s)
  {
    || (s.WaitStep? && c.timers.waits[s.wait].status.Expired? && c.timers.waits[s.wait].kind == RequestTimeoutWait(id))
    || (DeliversPackets(c, s) && RepliedTo(c.state, Delivered(c, s), |Delivered(c, s)|, s.inflate, id))
  }

  /** The requests in flight after a step: those before it that have not landed, and the one launched. */
  ghost predicate FlightsExact(c: Conn, s: Step)
    requires Enabled(c, s)
  {
    var d := Apply(c, s);
    && (forall id :: id in d.inFlight <==> (id in c.inFlight && !Lands(c, s, id)) || Launches(c, s, id))
    && (forall id :: id in d.inFlight && id in c.inFlight ==> d.inFlight[id] == c.inFlight[id])
    && (forall id :: id in d.inFlight && id !in c.inFlight ==>
          d.inFlight[id] == InFlight(c.sender.handed[s.op].handler.token, c.timers.next))
  }

  lemma BatchFlights(c: Conn, s: Step)
    requires Enabled(c, s) && DeliversPackets(c, s)
    ensures FlightsExact(c, s)
  {
    var d := Apply(c, s);
    var ps := Delivered(c, s);
    var c1 := Quiet(Noted(c, s.result), ReadOver(c, s.result));
    if ps != [] {
      BatchAnswers(c1, ps, s.inflate);
      assert d.inFlight == ProcessPackets(c1, ps, s.inflate).inFlight;
    } else {
      NoBatchFlights(c, s);
      assert forall id: nat :: !RepliedTo(c.state, ps, 0, s.inflate, id);
    }
  }

  lemma NoBatchFlights(c: Conn, s: Step)
    requires Enabled(c, s) && s.ReceiveStep? && (Delivered(c, s) == [] || !DeliversPackets(c, s))
    ensures Apply(c, s).inFlight == c.inFlight
  {
    var c1 := Noted(c, s.result);
    if s.result.ReadBytes? {
      var (done, rest) := ReadDone(c.reader.buffered, s.result.chunk);
      if done.Deliver? {
        assert Apply(c, s) == OnHandshakePackets(Quiet(c1, rest), done.packets, s.reply);
        ReplyFlights(Quiet(c1, rest), done.packets, s.reply);
      }
    }
  }

  lemma ReplyFlights(c: Conn, ps: seq<Packet>, reply: HandshakeReply)
    ensures OnHandshakePackets(c, ps, reply).inFlight == c.inFlight
  {
  }

  lemma SendFlights(c: Conn, s: Step)
    requires Enabled(c, s) && s.SendStep?
    ensures FlightsExact(c, s)
  {
    var h := c.sender.handed[s.op].handler;
    if !h.RequestSent? || s.ec.Some? {
      assert Apply(c, s).inFlight == c.inFlight;
    }
  }

  lemma WaitFlights(c: Conn, s: Step)
    requires Enabled(c, s) && s.WaitStep?
    ensures FlightsExact(c, s)
  {
    var w := c.timers.waits[s.wait];
    if !w.status.Expired? || !w.kind.RequestTimeoutWait? {
      assert Apply(c, s).inFlight == c.inFlight;
    }
  }

  lemma StepFlights(c: Conn, s: Step)
    requires Enabled(c, s)
    ensures FlightsExact(c, s)
  {
    match s
    case ReceiveStep(_, _, _) =>
      if DeliversPackets(c, s) { BatchFlights(c, s); } else { NoBatchFlights(c, s); }
    case SendStep(_, _) => SendFlights(c, s);
    case WaitStep(_) => WaitFlights(c, s);
    case TaskStep => TaskFlights(c);
    case _ =>
  }

  lemma TaskFlights(c: Conn)
    requires c.tasks.pending != []
    ensures RunTask(c).inFlight == c.inFlight
  {
  }

  // ---------------------------------------------------------------------------------------
  // Heartbeats of the server
  // ---------------------------------------------------------------------------------------

  /** A heartbeat of the server is processed while connected. */
  ghost predicate Hears(c: Conn, s: Step)
    requires Enabled(c, s)
  {
    DeliversPackets(c, s) && SomeBeats(c.state, Delivered(c, s), s.inflate)
  }

  /** Then it is counted, at the time of the step, and nothing else is. */
  lemma BatchCounts(c: Conn, s: Step)
    requires Enabled(c, s) && DeliversPackets(c, s) && Delivered(c, s) != []
    ensures var d := Apply(c, s);
            && c.session.heartbeats <= d.session.heartbeats
            && (forall k :: |c.session.heartbeats| <= k < |d.session.heartbeats| ==>
                  d.session.heartbeats[k] == c.timers.now)
            && (d.session.heartbeats != c.session.heartbeats <==> Hears(c, s))
  {
    var c1 := Quiet(Noted(c, s.result), ReadOver(c, s.result));
    BatchBeats(c1, Delivered(c, s), s.inflate);
    assert Apply(c, s).session == ProcessPackets(c1, Delivered(c, s), s.inflate).session;
  }

  lemma NoBatchCounts(c: Conn, s: Step)
    requires Enabled(c, s) && s.ReceiveStep? && (Delivered(c, s) == [] || !DeliversPackets(c, s))
    ensures Apply(c, s).session == c.session
  {
    var c1 := Noted(c, s.result);
    if s.result.ReadBytes? {
      var (done, rest) := ReadDone(c.reader.buffered, s.result.chunk);
      if done.Deliver? {
        assert Apply(c, s) == OnHandshakePackets(Quiet(c1, rest), done.packets, s.reply);
        ReplyCounts(Quiet(c1, rest), done.packets, s.reply);
      }
    }
  }

  lemma ReplyCounts(c: Conn, ps: seq<Packet>, reply: HandshakeReply)
    ensures OnHandshakePackets(c, ps, reply).session == c.session
  {
  }

  lemma SendCountsNone(c: Conn, s: Step)
    requires Enabled(c, s) && s.SendStep?
    requires s.ec.None? && c.sender.handed[s.op].handler.AckSent? ==> c.session.heartbeats == []
    ensures Apply(c, s).session.heartbeats == c.session.heartbeats
  {
  }

  lemma WaitCountsNone(c: Conn, s: Step)
    requires Enabled(c, s) && s.WaitStep?
    ensures Apply(c, s).session.heartbeats == c.session.heartbeats
  {
  }

  lemma TaskCountsNone(c: Conn)
    requires c.tasks.pending != []
    ensures RunTask(c).session == c.session
  {
  }

  lemma StepHears(c: Conn, s: Step)
    requires Enabled(c, s)
    requires s.SendStep? && s.ec.None? && c.sender.handed[s.op].handler.AckSent? ==> c.session.heartbeats == []
    ensures Apply(c, s).session.heartbeats != [] <==> c.session.heartbeats != [] || Hears(c, s)
  {
    match s
    case ReceiveStep(_, _, _) =>
      if DeliversPackets(c, s) && Delivered(c, s) != [] { BatchCounts(c, s); } else { NoBatchCounts(c, s); }
    case SendStep(_, _) => SendCountsNone(c, s);
    case WaitStep(_) => WaitCountsNone(c, s);
    case TaskStep => TaskCountsNone(c);
    case _ =>
  }
}
