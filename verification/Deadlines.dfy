/** When the timers are due: exactly which waits each step starts, with which deadlines, and that a wait
    keeps its deadline while it waits. */
module Deadlines {
  import opened Prelude
  import opened Packets
  import opened Framing
  import opened Messages
  import opened Runtime
  import opened Protocol
  import opened Timeouts
  import opened Heartbeats
  import opened Causes

  /** The acknowledgement has been sent: the connection is established. */
  predicate Establishes(c: Conn, s: Step)
    requires Enabled(c, s)
  {
    s.SendStep? && s.ec.None? && c.sender.handed[s.op].handler.AckSent?
  }

  /** The waits that a step starts: a request's timeout when its send succeeds, a tick and the
      heartbeat timeout when the connection is established, and the next tick when one runs. */
  function Started(c: Conn, s: Step): seq<Wait>
    requires Enabled(c, s)
  {
    if Establishes(c, s) then
      var interval := c.sender.handed[s.op].handler.interval;
      [Wait(TickWait, Waiting(c.timers.now + interval)),
       Wait(HeartbeatTimeoutWait, Waiting(c.timers.now + interval * 3))]
    else if TickRuns(c, s) then [Wait(TickWait, Waiting(c.timers.now + c.state.interval))]
    else if s.SendStep? && s.ec.None? && c.sender.handed[s.op].handler.RequestSent?
            && c.sender.handed[s.op].handler.id !in c.inFlight then
      var h := c.sender.handed[s.op].handler;
      [Wait(RequestTimeoutWait(h.id), Waiting(c.timers.now + h.timeout))]
    else []
  }

  /** Waits from before keep their kind, and their deadline as long as they wait. */
  ghost predicate WaitsKept(t: Timers, t': Timers) {
    forall w :: w in t'.waits && w < t.next ==>
      && w in t.waits && t'.waits[w].kind == t.waits[w].kind
      && (t'.waits[w].status.Waiting? ==> t'.waits[w] == t.waits[w])
      && (t.waits[w].status.Aborted? ==> t'.waits[w].status.Aborted?)
  }

  ghost predicate StartsExact(c: Conn, s: Step)
    requires Enabled(c, s)
  {
    var t, begun := Apply(c, s).timers, Started(c, s);
    && WaitsKept(c.timers, t)
    && t.next == c.timers.next + |begun|
    && (forall k :: 0 <= k < |begun| ==> c.timers.next + k in t.waits && t.waits[c.timers.next + k] == begun[k])
    && (forall w :: w in t.waits ==> w < t.next)
    && t.now == c.timers.now + if s.Elapse? then s.time else 0
  }

  // ---------------------------------------------------------------------------------------

  /** Nothing is started: waits are only aborted or gone. */
  ghost predicate NoneStarted(t: Timers, t': Timers) {
    && t'.next == t.next && t'.now == t.now
    && (forall w :: w in t'.waits ==>
          && w in t.waits && t'.waits[w].kind == t.waits[w].kind
          && (t'.waits[w].status.Waiting? ==> t'.waits[w] == t.waits[w])
          && (t.waits[w].status.Aborted? ==> t'.waits[w].status.Aborted?))
  }

  lemma DownStartsNone(c: Conn)
    ensures NoneStarted(c.timers, SetInited(c).timers)
  {
  }

  lemma PacketStartsNone(c: Conn, p: Packet, inflate: Bytes -> Option<Bytes>)
    ensures NoneStarted(c.timers, ProcessPacket(c, p, inflate).timers)
  {
    var t := ProcessPacket(c, p, inflate).timers;
    DownStartsNone(c);
    if p.ptype == Heartbeat && c.state.Connected? {
      assert t == Cancel(c.timers, c.state.timeout);
    } else if p.ptype == Data && c.state.Connected? {
      MessageStartsNone(c, p, inflate);
    } else {
      assert t == c.timers || t == SetInited(c).timers;
    }
  }

  lemma MessageStartsNone(c: Conn, p: Packet, inflate: Bytes -> Option<Bytes>)
    requires c.state.Connected? && p.ptype == Data
    ensures NoneStarted(c.timers, ProcessPacket(c, p, inflate).timers)
  {
    var t := ProcessPacket(c, p, inflate).timers;
    DownStartsNone(c);
    match Messages.Decode(p.body, c.state.codeToRoute, inflate)
    case Malformed => assert t == SetInited(c).timers;
    case Undefined => assert t == c.timers;
    case Ok(m) =>
      if m.mtype == Response && m.id in c.inFlight {
        assert t == Cancel(c.timers, c.inFlight[m.id].wait);
      } else {
        assert t == c.timers;
      }
  }

  lemma {:induction false} PacketsStartNone(c: Conn, ps: seq<Packet>, inflate: Bytes -> Option<Bytes>)
    ensures NoneStarted(c.timers, ProcessPackets(c, ps, inflate).timers)
  {
    if ps != [] {
      var init := ps[..|ps| - 1];
      PacketsStartNone(c, init, inflate);
      PacketStartsNone(ProcessPackets(c, init, inflate), ps[|ps| - 1], inflate);
    }
  }

  lemma CallbackStartsNone(c: Conn, h: ReceiveHandler, ec: Option<ErrorCode>, ps: seq<Packet>,
                           reply: HandshakeReply, inflate: Bytes -> Option<Bytes>)
    ensures NoneStarted(c.timers, OnReceived(c, h, ec, ps, reply, inflate).timers)
  {
    DownStartsNone(c);
    if ec.None? && h.OnPackets? {
      PacketsStartNone(c, ps, inflate);
    } else {
      var d := OnReceived(c, h, ec, ps, reply, inflate);
      assert d.timers == c.timers || d.timers == SetInited(c).timers;
    }
  }

  lemma ReceiveStartsNone(c: Conn, s: Step)
    requires Enabled(c, s) && s.ReceiveStep?
    ensures NoneStarted(c.timers, Apply(c, s).timers)
  {
    var h := c.reader.receiving.value;
    var c1 := Noted(c, s.result);
    match s.result
    case ReadFailed(code) =>
      CallbackStartsNone(Quiet(c1, c1.reader.buffered), h, Some(System(code)), [], s.reply, s.inflate);
    case ReadBytes(chunk) =>
      var (done, rest) := ReadDone(c.reader.buffered, chunk);
      match done
      case Deliver(ps) => CallbackStartsNone(Quiet(c1, rest), h, None, ps, s.reply, s.inflate);
      case Reject => CallbackStartsNone(Quiet(c1, rest), h, Some(InvalidPacketType), [], s.reply, s.inflate);
      case _ =>
  }

  /** The connection is established. */
  lemma EstablishStarts(c: Conn, s: Step)
    requires Enabled(c, s) && Establishes(c, s) && Numbered(c.timers, c.state) && c.state.Inited?
    ensures StartsExact(c, s)
  {
    var h := c.sender.handed[s.op].handler;
    EstablishTimers(c, s);
    var t1 := AsyncWait(c.timers, TickWait, c.timers.now + h.interval);
    var t2 := AsyncWait(t1, HeartbeatTimeoutWait, c.timers.now + h.interval * 3);
    assert Apply(c, s).timers == t2;
  }

  lemma EstablishTimers(c: Conn, s: Step)
    requires Enabled(c, s) && Establishes(c, s) && c.state.Inited?
    ensures var interval := c.sender.handed[s.op].handler.interval;
            var t := AsyncWait(c.timers, TickWait, c.timers.now + interval);
            Apply(c, s).timers == AsyncWait(t, HeartbeatTimeoutWait, c.timers.now + interval * 3)
  {
  }

  lemma SendStarts(c: Conn, s: Step)
    requires Enabled(c, s) && s.SendStep? && !Establishes(c, s) && Numbered(c.timers, c.state)
    ensures StartsExact(c, s)
  {
    var h := c.sender.handed[s.op].handler;
    var c1 := c.(sender := Ended(c.sender, s.op, s.ec.None?));
    var t := Apply(c, s).timers;
    DownStartsNone(c1);
    if h.RequestSent? && s.ec.None? && h.id !in c.inFlight {
      assert t == AsyncWait(c.timers, RequestTimeoutWait(h.id), c.timers.now + h.timeout);
    } else {
      assert t == c.timers || t == SetInited(c1).timers;
    }
  }

  lemma WaitStarts(c: Conn, s: Step)
    requires Enabled(c, s) && s.WaitStep? && Numbered(c.timers, c.state)
    ensures StartsExact(c, s)
  {
    var c1 := c.(timers := c.timers.(waits := c.timers.waits - {s.wait}));
    var t := Apply(c, s).timers;
    if TickRuns(c, s) {
      assert t == HeartbeatTick(c1).timers;
      var t1 := Cancel(c1.timers, c.state.tick);
      assert t == AsyncWait(t1, TickWait, c.timers.now + c.state.interval);
    } else {
      WaitStartsNone(c, s);
    }
  }

  lemma WaitStartsNone(c: Conn, s: Step)
    requires Enabled(c, s) && s.WaitStep? && !TickRuns(c, s)
    ensures NoneStarted(c.timers, Apply(c, s).timers)
  {
    var c1 := c.(timers := c.timers.(waits := c.timers.waits - {s.wait}));
    var w := c.timers.waits[s.wait];
    var t := Apply(c, s).timers;
    DownStartsNone(c1);
    if w.status.Expired? && w.kind.RequestTimeoutWait? && w.kind.id in c.inFlight {
      assert t == Cancel(c1.timers, c.inFlight[w.kind.id].wait);
    } else {
      assert t == c1.timers || t == SetInited(c1).timers;
    }
  }

  /** Every step starts exactly these waits. */
  lemma StepStarts(c: Conn, s: Step)
    requires Enabled(c, s) && Numbered(c.timers, c.state) && (Establishes(c, s) ==> c.state.Inited?)
    ensures StartsExact(c, s)
  {
    match s
    case ReceiveStep(_, _, _) => ReceiveStartsNone(c, s);
    case SendStep(_, _) => if Establishes(c, s) { EstablishStarts(c, s); } else { SendStarts(c, s); }
    case WaitStep(_) => WaitStarts(c, s);
    case TaskStep => TaskExpiresNone(c);
    case ConnectStep(ec) => ConnectStartsNone(c, ec);
    case _ =>
  }

  lemma ConnectStartsNone(c: Conn, ec: Option<int>)
    ensures NoneStarted(c.timers, ConnectDone(c, ec).timers)
  {
    DownStartsNone(c.(reader := c.reader.(connecting := false)));
  }
}
