/** Whose the waits are: every wait that is still waiting belongs to a request in flight or to one of the
    two heartbeat timers of an established connection, so answering a request or losing the connection
    leaves none of its waits behind; and until the request ids wrap, a timeout that can still run is
    that of the request in flight under its id. */
module Ownership {
  import opened Prelude
  import opened Packets
  import opened Framing
  import opened Messages
  import opened Runtime
  import opened Protocol
  import opened SendPipeline
  import opened Timeouts
  import opened Replies
  import opened Causes
  import opened Deadlines

  ghost predicate Accounted(t: Timers, st: State, inFlight: map<nat, InFlight>) {
    forall w :: w in t.waits && t.waits[w].status.Waiting? ==>
      match t.waits[w].kind
      case TickWait => st.Connected? && w == st.tick
      case HeartbeatTimeoutWait => st.Connected? && w == st.timeout
      case RequestTimeoutWait(id) => id in inFlight && inFlight[id].wait == w
  }

  ghost predicate OwnInv(c: Conn) { Accounted(c.timers, c.state, c.inFlight) }

  lemma DownOwned(c: Conn)
    requires OwnInv(c)
    ensures OwnInv(SetInited(c))
  {
  }

  lemma FinishOwned(c: Conn, id: nat, status: RequestStatus, data: Bytes)
    requires OwnInv(c) && id in c.inFlight
    ensures OwnInv(FinishRequest(c, id, status, data))
  {
  }

  lemma SameOwned(c: Conn, d: Conn)
    requires OwnInv(c) && d.timers == c.timers && d.state == c.state && d.inFlight == c.inFlight
    ensures OwnInv(d)
  {
  }

  lemma PacketOwned(c: Conn, p: Packet, inflate: Bytes -> Option<Bytes>)
    requires OwnInv(c)
    ensures OwnInv(ProcessPacket(c, p, inflate))
  {
    var d := ProcessPacket(c, p, inflate);
    DownOwned(c);
    if p.ptype == Data && c.state.Connected? {
      MessageOwned(c, p, inflate);
    } else if p.ptype == Kick && c.state.Connected? {
      SameOwned(SetInited(c), d);
    } else if p.ptype != Heartbeat {
      SameOwned(c, d);
    }
  }

  lemma MessageOwned(c: Conn, p: Packet, inflate: Bytes -> Option<Bytes>)
    requires OwnInv(c) && p.ptype == Data && c.state.Connected?
    ensures OwnInv(ProcessPacket(c, p, inflate))
  {
    var d := ProcessPacket(c, p, inflate);
    DownOwned(c);
    match Messages.Decode(p.body, c.state.codeToRoute, inflate)
    case Malformed => SameOwned(SetInited(c), d);
    case Undefined => SameOwned(c, d);
    case Ok(m) =>
      if m.mtype == Response && m.id in c.inFlight {
        FinishOwned(c, m.id, if m.error then ServerError else StatusOk, m.data);
        SameOwned(FinishRequest(c, m.id, if m.error then ServerError else StatusOk, m.data), d);
      } else {
        SameOwned(c, d);
      }
  }

  lemma {:induction false} PacketsOwned(c: Conn, ps: seq<Packet>, inflate: Bytes -> Option<Bytes>)
    requires OwnInv(c)
    ensures OwnInv(ProcessPackets(c, ps, inflate))
  {
    if ps != [] {
      var init := ps[..|ps| - 1];
      PacketsOwned(c, init, inflate);
      PacketOwned(ProcessPackets(c, init, inflate), ps[|ps| - 1], inflate);
    }
  }

  lemma CallbackOwned(c: Conn, h: ReceiveHandler, ec: Option<ErrorCode>, ps: seq<Packet>,
                      reply: HandshakeReply, inflate: Bytes -> Option<Bytes>)
    requires OwnInv(c)
    ensures OwnInv(OnReceived(c, h, ec, ps, reply, inflate))
  {
    var d := OnReceived(c, h, ec, ps, reply, inflate);
    if ec.None? && h.OnPackets? {
      PacketsOwned(c, ps, inflate);
      SameOwned(ProcessPackets(c, ps, inflate), d);
    } else {
      DownOwned(c);
      assert d.inFlight == c.inFlight;
      assert (d.timers == c.timers && d.state == c.state)
        || (d.timers == SetInited(c).timers && d.state == SetInited(c).state);
    }
  }

  lemma ReceiveOwned(c: Conn, s: Step)
    requires OwnInv(c) && Enabled(c, s) && s.ReceiveStep?
    ensures OwnInv(Apply(c, s))
  {
    var h := c.reader.receiving.value;
    var c1 := Noted(c, s.result);
    match s.result
    case ReadFailed(code) =>
      CallbackOwned(Quiet(c1, c1.reader.buffered), h, Some(System(code)), [], s.reply, s.inflate);
    case ReadBytes(chunk) =>
      var (done, rest) := ReadDone(c.reader.buffered, chunk);
      match done
      case Deliver(ps) => CallbackOwned(Quiet(c1, rest), h, None, ps, s.reply, s.inflate);
      case Reject => CallbackOwned(Quiet(c1, rest), h, Some(InvalidPacketType), [], s.reply, s.inflate);
      case _ => SameOwned(c, Apply(c, s));
  }

  lemma UpOwned(c: Conn, interval: nat, dict: RouteDict)
    requires OwnInv(c) && Numbered(c.timers, c.state)
    ensures OwnInv(SetConnected(c, interval, dict))
  {
    DownOwned(c);
  }

  lemma OnSentOwned(c: Conn, h: SendHandler, ec: Option<int>)
    requires OwnInv(c) && Numbered(c.timers, c.state)
    ensures OwnInv(OnSent(c, h, ec))
  {
    var d := OnSent(c, h, ec);
    DownOwned(c);
    match h
    case AckSent(interval, dict) =>
      UpOwned(c, interval, dict);
      SameOwned(if ec.None? then SetConnected(c, interval, dict) else c, d);
    case RequestSent(_, _, _) =>
    case _ =>
      assert d.inFlight == c.inFlight;
      assert (d.timers == c.timers && d.state == c.state)
        || (d.timers == SetInited(c).timers && d.state == SetInited(c).state);
  }

  lemma SendOwned(c: Conn, s: Step)
    requires OwnInv(c) && Numbered(c.timers, c.state) && Enabled(c, s) && s.SendStep?
    ensures OwnInv(Apply(c, s))
  {
    var c1 := c.(sender := Ended(c.sender, s.op, s.ec.None?));
    var h := c.sender.handed[s.op].handler;
    OnSentOwned(c1, h, s.ec);
    SameOwned(OnSent(c1, h, s.ec), Apply(c, s));
  }

  lemma TickOwned(c: Conn)
    requires OwnInv(c) && Numbered(c.timers, c.state)
    ensures OwnInv(HeartbeatTick(c))
  {
  }

  lemma WaitOwned(c: Conn, s: Step)
    requires OwnInv(c) && Numbered(c.timers, c.state) && Enabled(c, s) && s.WaitStep?
    ensures OwnInv(Apply(c, s))
  {
    var c1 := c.(timers := c.timers.(waits := c.timers.waits - {s.wait}));
    var w := c.timers.waits[s.wait];
    assert OwnInv(c1);
    if w.status.Expired? {
      match w.kind
      case TickWait => TickOwned(c1);
      case HeartbeatTimeoutWait =>
        DownOwned(c1);
        SameOwned(SetInited(c1), Apply(c, s));
      case RequestTimeoutWait(id) =>
        if id in c.inFlight { FinishOwned(c1, id, Timeout, []); }
    }
  }

  lemma StepOwned(c: Conn, s: Step)
    requires OwnInv(c) && Numbered(c.timers, c.state) && Enabled(c, s)
    ensures OwnInv(Apply(c, s))
  {
    match s
    case ReceiveStep(_, _, _) => ReceiveOwned(c, s);
    case SendStep(_, _) => SendOwned(c, s);
    case WaitStep(_) => WaitOwned(c, s);
    case TaskStep => TaskOwned(c);
    case ConnectStep(ec) => ConnectOwned(c, ec);
    case _ =>
  }

  lemma TaskOwned(c: Conn)
    requires OwnInv(c) && c.tasks.pending != []
    ensures OwnInv(RunTask(c))
  {
    SameOwned(c, RunTask(c));
  }

  lemma ConnectOwned(c: Conn, ec: Option<int>)
    requires OwnInv(c)
    ensures OwnInv(ConnectDone(c, ec))
  {
    var c1 := c.(reader := c.reader.(connecting := false));
    DownOwned(c1);
    SameOwned(if ec.Some? then SetInited(c1) else c1, ConnectDone(c, ec));
  }

  // ---------------------------------------------------------------------------------------
  // Until the ids wrap
  // ---------------------------------------------------------------------------------------

  /** The completed send `op` was that of a request with this id. */
  ghost predicate SentAs(s: Sender, op: nat, id: nat) {
    op < |s.handed| && op !in s.outstanding && s.handed[op].handler.RequestSent? && s.handed[op].handler.id == id
  }

  /** Each request wait comes from a completed send. */
  ghost predicate WaitsSent(t: Timers, s: Sender) {
    forall w :: w in t.waits && t.waits[w].kind.RequestTimeoutWait? ==>
      exists op: nat :: SentAs(s, op, t.waits[w].kind.id)
  }

  /** A request timeout that can still run is that of the request in flight under its id. */
  ghost predicate Unshared(t: Timers, inFlight: map<nat, InFlight>) {
    forall w :: w in t.waits && t.waits[w].kind.RequestTimeoutWait? && !t.waits[w].status.Aborted? ==>
      t.waits[w].kind.id in inFlight ==> inFlight[t.waits[w].kind.id].wait == w
  }

  ghost predicate ShareInv(c: Conn) {
    WaitsSent(c.timers, c.sender) && (c.issued < TWO_TO_64 ==> Unshared(c.timers, c.inFlight))
  }

  /** Sends are only added, and a completed one stays completed. */
  ghost predicate SendsGrow(c: Conn, d: Conn) {
    && c.sender.handed <= d.sender.handed && c.issued <= d.issued
    && (forall op :: op in d.sender.outstanding && op < |c.sender.handed| ==> op in c.sender.outstanding)
  }

  lemma TaskSendsGrow(c: Conn)
    requires c.tasks.pending != []
    ensures SendsGrow(c, RunTask(c))
  {
  }

  lemma SendSendsGrow(c: Conn, s: Step)
    requires Enabled(c, s) && s.SendStep?
    ensures SendsGrow(c, Apply(c, s)) && s.op !in Apply(c, s).sender.outstanding
  {
  }

  lemma ReceiveSendsGrow(c: Conn, s: Step)
    requires Enabled(c, s) && s.ReceiveStep?
    ensures SendsGrow(c, Apply(c, s))
  {
    var h := c.reader.receiving.value;
    var c1 := Noted(c, s.result);
    match s.result
    case ReadFailed(code) =>
      CallbackSendsGrow(Quiet(c1, c1.reader.buffered), h, Some(System(code)), [], s.reply, s.inflate);
    case ReadBytes(chunk) =>
      var (done, rest) := ReadDone(c.reader.buffered, chunk);
      match done
      case Deliver(ps) => CallbackSendsGrow(Quiet(c1, rest), h, None, ps, s.reply, s.inflate);
      case Reject => CallbackSendsGrow(Quiet(c1, rest), h, Some(InvalidPacketType), [], s.reply, s.inflate);
      case _ =>
  }

  lemma CallbackSendsGrow(c: Conn, h: ReceiveHandler, ec: Option<ErrorCode>, ps: seq<Packet>,
                          reply: HandshakeReply, inflate: Bytes -> Option<Bytes>)
    ensures SendsGrow(c, OnReceived(c, h, ec, ps, reply, inflate))
  {
    if ec.None? && h.OnPackets? {
      ProcessPacketsKeepsSends(c, ps, inflate);
      ProcessPacketsIds(c, ps, inflate);
    }
  }

  lemma StepSendsGrow(c: Conn, s: Step)
    requires Enabled(c, s)
    ensures SendsGrow(c, Apply(c, s)) && (s.SendStep? ==> s.op !in Apply(c, s).sender.outstanding)
  {
    match s
    case TaskStep => TaskSendsGrow(c);
    case SendStep(_, _) => SendSendsGrow(c, s);
    case ReceiveStep(_, _, _) => ReceiveSendsGrow(c, s);
    case _ =>
  }

  lemma StepWaitsSent(c: Conn, s: Step)
    requires WaitsSent(c.timers, c.sender) && Enabled(c, s) && StartsExact(c, s)
    ensures WaitsSent(Apply(c, s).timers, Apply(c, s).sender)
  {
    var d := Apply(c, s);
    StepSendsGrow(c, s);
    forall w | w in d.timers.waits && d.timers.waits[w].kind.RequestTimeoutWait?
      ensures exists op: nat :: SentAs(d.sender, op, d.timers.waits[w].kind.id)
    {
      var id := d.timers.waits[w].kind.id;
      if w < c.timers.next {
        var op: nat :| SentAs(c.sender, op, id);
        assert SentAs(d.sender, op, id);
      } else {
        assert d.timers.waits[w] == Started(c, s)[w - c.timers.next];
        assert SentAs(d.sender, s.op, id);
      }
    }
  }

  lemma StepUnshared(c: Conn, s: Step)
    requires Enabled(c, s) && StartsExact(c, s) && FlightsExact(c, s) && WaitsSent(c.timers, c.sender)
    requires IdInv(c) && c.sender.handed <= c.sender.accepted && c.issued < TWO_TO_64
    requires Numbered(c.timers, c.state) && Unshared(c.timers, c.inFlight)
    ensures Unshared(Apply(c, s).timers, Apply(c, s).inFlight)
  {
    var d := Apply(c, s);
    forall w | && w in d.timers.waits && d.timers.waits[w].kind.RequestTimeoutWait?
               && !d.timers.waits[w].status.Aborted? && d.timers.waits[w].kind.id in d.inFlight
      ensures d.inFlight[d.timers.waits[w].kind.id].wait == w
    {
      var id := d.timers.waits[w].kind.id;
      if w >= c.timers.next {
        assert d.timers.waits[w] == Started(c, s)[w - c.timers.next];
      } else if id !in c.inFlight {
        var op: nat :| SentAs(c.sender, op, id);
        SameIdMeansWrapped(c, op, s.op);
      }
    }
  }

  lemma StepShared(c: Conn, s: Step)
    requires Enabled(c, s) && ShareInv(c) && IdInv(c) && c.sender.handed <= c.sender.accepted
    requires Numbered(c.timers, c.state) && (Establishes(c, s) ==> c.state.Inited?)
    ensures ShareInv(Apply(c, s))
  {
    StepStarts(c, s);
    StepFlights(c, s);
    StepWaitsSent(c, s);
    StepSendsGrow(c, s);
    if c.issued < TWO_TO_64 {
      StepUnshared(c, s);
    }
  }
}
