/** Request timeouts: every request in flight has a wait of its own that has not been aborted, so it
    cannot be forgotten. */
module Timeouts {
  import opened Prelude
  import opened Packets
  import opened Framing
  import opened Messages
  import opened Runtime
  import opened Protocol

  ghost predicate Armed(t: Timers, inFlight: map<nat, InFlight>) {
    forall id :: id in inFlight ==>
      var w := inFlight[id].wait;
      w in t.waits && t.waits[w].kind == RequestTimeoutWait(id) && !t.waits[w].status.Aborted?
  }

  /** Wait numbers are used once, and the two heartbeat timers' last waits are of their own kind. */
  ghost predicate Numbered(t: Timers, st: State) {
    && (forall w :: w in t.waits ==> w < t.next)
    && (st.Connected? ==>
          && st.tick < t.next && st.timeout < t.next
          && (st.tick in t.waits ==> t.waits[st.tick].kind.TickWait?)
          && (st.timeout in t.waits ==> t.waits[st.timeout].kind.HeartbeatTimeoutWait?))
  }

  ghost predicate TimerInv(c: Conn) {
    Numbered(c.timers, c.state) && Armed(c.timers, c.inFlight)
  }

  // ---------------------------------------------------------------------------------------

  /** Cancelling a wait that no request owns. */
  lemma CancelKeepsArmed(t: Timers, inFlight: map<nat, InFlight>, w: nat)
    requires Armed(t, inFlight)
    requires w in t.waits ==> !t.waits[w].kind.RequestTimeoutWait?
    ensures Armed(Cancel(t, w), inFlight)
  {
  }

  lemma SetInitedKeeps(c: Conn)
    requires TimerInv(c)
    ensures TimerInv(SetInited(c))
  {
    if c.state.Connected? {
      CancelKeepsArmed(c.timers, c.inFlight, c.state.tick);
      CancelKeepsArmed(Cancel(c.timers, c.state.tick), c.inFlight, c.state.timeout);
    }
  }

  lemma SetConnectedKeeps(c: Conn, interval: nat, dict: RouteDict)
    requires TimerInv(c)
    ensures TimerInv(SetConnected(c, interval, dict))
  {
    SetInitedKeeps(c);
  }

  lemma TickKeeps(c: Conn)
    requires TimerInv(c)
    ensures TimerInv(HeartbeatTick(c))
  {
    if c.state.Connected? {
      CancelKeepsArmed(c.timers, c.inFlight, c.state.tick);
    }
  }

  /** Other requests' waits are of a different id, so destroying one timer leaves them armed. */
  lemma FinishKeeps(c: Conn, id: nat, status: RequestStatus, data: Bytes)
    requires id in c.inFlight && Numbered(c.timers, c.state) && Armed(c.timers, c.inFlight - {id})
    requires var w := c.inFlight[id].wait; w in c.timers.waits ==> c.timers.waits[w].kind == RequestTimeoutWait(id)
    ensures TimerInv(FinishRequest(c, id, status, data))
  {
  }

  lemma OnSentKeeps(c: Conn, h: SendHandler, ec: Option<int>)
    requires TimerInv(c)
    ensures TimerInv(OnSent(c, h, ec))
  {
    match h
    case AckSent(interval, dict) => SetConnectedKeeps(c, interval, dict);
    case RequestSent(_, _, _) =>
    case _ => SetInitedKeeps(c);
  }

  lemma ProcessPacketKeeps(c: Conn, p: Packet, inflate: Bytes -> Option<Bytes>)
    requires TimerInv(c)
    ensures TimerInv(ProcessPacket(c, p, inflate))
  {
    if p.ptype == Heartbeat && c.state.Connected? {
      CancelKeepsArmed(c.timers, c.inFlight, c.state.timeout);
    } else if p.ptype == Data && c.state.Connected? {
      var m := Messages.Decode(p.body, c.state.codeToRoute, inflate);
      if m.Ok? && m.msg.mtype == Response && m.msg.id in c.inFlight {
        var c1 := c.(responses := c.responses + [m.msg]);
        FinishKeeps(c1, m.msg.id, if m.msg.error then ServerError else StatusOk, m.msg.data);
      } else {
        SetInitedKeeps(c);
      }
    } else {
      SetInitedKeeps(c);
    }
  }

  lemma {:induction false} ProcessPacketsKeeps(c: Conn, ps: seq<Packet>, inflate: Bytes -> Option<Bytes>)
    requires TimerInv(c)
    ensures TimerInv(ProcessPackets(c, ps, inflate))
  {
    if ps != [] {
      var init := ps[..|ps| - 1];
      ProcessPacketsKeeps(c, init, inflate);
      ProcessPacketKeeps(ProcessPackets(c, init, inflate), ps[|ps| - 1], inflate);
    }
  }

  lemma OnReceivedKeeps(c: Conn, h: ReceiveHandler, ec: Option<ErrorCode>, ps: seq<Packet>,
                        reply: HandshakeReply, inflate: Bytes -> Option<Bytes>)
    requires TimerInv(c)
    ensures TimerInv(OnReceived(c, h, ec, ps, reply, inflate))
  {
    SetInitedKeeps(c);
    if ec.None? && h.OnPackets? {
      ProcessPacketsKeeps(c, ps, inflate);
    }
  }

  lemma ReceiveDoneKeeps(c: Conn, r: ReadResult, reply: HandshakeReply, inflate: Bytes -> Option<Bytes>)
    requires TimerInv(c) && c.reader.receiving.Some?
    ensures TimerInv(ReceiveDone(c, r, reply, inflate))
  {
    var h := c.reader.receiving.value;
    match r
    case ReadFailed(code) => OnReceivedKeeps(Quiet(c, c.reader.buffered), h, Some(System(code)), [], reply, inflate);
    case ReadBytes(chunk) =>
      var (done, rest) := ReadDone(c.reader.buffered, chunk);
      match done
      case Deliver(ps) => OnReceivedKeeps(Quiet(c, rest), h, None, ps, reply, inflate);
      case Reject => OnReceivedKeeps(Quiet(c, rest), h, Some(InvalidPacketType), [], reply, inflate);
      case _ =>
  }

  /** The wait that is run is gone. If it was a request's own, it was not aborted, so the request is
      answered in the same step. */
  lemma RunWaitKeeps(c: Conn, w: nat)
    requires TimerInv(c) && w in c.timers.waits
    ensures TimerInv(RunWait(c, w))
  {
    var c1 := c.(timers := c.timers.(waits := c.timers.waits - {w}));
    var wait := c.timers.waits[w];
    if wait.kind.RequestTimeoutWait? && !wait.status.Aborted? {
      assert Armed(c1.timers, c1.inFlight - {wait.kind.id});
      if wait.kind.id in c.inFlight {
        FinishKeeps(c1, wait.kind.id, Timeout, []);
      }
    } else {
      assert TimerInv(c1);
      SetInitedKeeps(c1);
      TickKeeps(c1);
    }
  }

  lemma SendDoneKeeps(c: Conn, op: nat, ec: Option<int>)
    requires TimerInv(c) && op < |c.sender.handed|
    ensures TimerInv(SendDone(c, op, ec))
  {
    OnSentKeeps(c.(sender := Ended(c.sender, op, ec.None?)), c.sender.handed[op].handler, ec);
  }

  lemma StepKeeps(c: Conn, s: Step)
    requires TimerInv(c) && Enabled(c, s)
    ensures TimerInv(Apply(c, s))
  {
    match s
    case ConnectStep(ec) => SetInitedKeeps(c);
    case SendStep(op, ec) => SendDoneKeeps(c, op, ec);
    case ReceiveStep(r, reply, inflate) => ReceiveDoneKeeps(Noted(c, r), r, reply, inflate);
    case WaitStep(w) => RunWaitKeeps(c, w);
    case _ =>
  }

  // ---------------------------------------------------------------------------------------
  // When a wait expired
  // ---------------------------------------------------------------------------------------

  /** Every expired wait was expired before, at the same time. */
  ghost predicate NoneExpires(t: Timers, t': Timers) {
    forall w :: w in t'.waits && t'.waits[w].status.Expired? ==> w in t.waits && t.waits[w] == t'.waits[w]
  }

  lemma PacketExpiresNone(c: Conn, p: Packet, inflate: Bytes -> Option<Bytes>)
    ensures NoneExpires(c.timers, ProcessPacket(c, p, inflate).timers)
  {
  }

  lemma {:induction false} PacketsExpireNone(c: Conn, ps: seq<Packet>, inflate: Bytes -> Option<Bytes>)
    ensures NoneExpires(c.timers, ProcessPackets(c, ps, inflate).timers)
  {
    if ps != [] {
      var init := ps[..|ps| - 1];
      PacketsExpireNone(c, init, inflate);
      PacketExpiresNone(ProcessPackets(c, init, inflate), ps[|ps| - 1], inflate);
    }
  }

  lemma CallbackExpiresNone(c: Conn, h: ReceiveHandler, ec: Option<ErrorCode>, ps: seq<Packet>,
                            reply: HandshakeReply, inflate: Bytes -> Option<Bytes>)
    ensures NoneExpires(c.timers, OnReceived(c, h, ec, ps, reply, inflate).timers)
  {
    if ec.None? && h.OnPackets? {
      PacketsExpireNone(c, ps, inflate);
    } else {
      DownExpiresNone(c);
      var d := OnReceived(c, h, ec, ps, reply, inflate);
      assert d.timers == c.timers || d.timers == SetInited(c).timers;
    }
  }

  lemma DownExpiresNone(c: Conn)
    ensures NoneExpires(c.timers, SetInited(c).timers)
  {
  }

  lemma ReceiveExpiresNone(c: Conn, s: Step)
    requires Enabled(c, s) && s.ReceiveStep?
    ensures NoneExpires(c.timers, Apply(c, s).timers)
  {
    var h := c.reader.receiving.value;
    var c1 := Noted(c, s.result);
    match s.result
    case ReadFailed(code) =>
      CallbackExpiresNone(Quiet(c1, c1.reader.buffered), h, Some(System(code)), [], s.reply, s.inflate);
    case ReadBytes(chunk) =>
      var (done, rest) := ReadDone(c.reader.buffered, chunk);
      match done
      case Deliver(ps) => CallbackExpiresNone(Quiet(c1, rest), h, None, ps, s.reply, s.inflate);
      case Reject => CallbackExpiresNone(Quiet(c1, rest), h, Some(InvalidPacketType), [], s.reply, s.inflate);
      case _ =>
  }

  lemma SendExpiresNone(c: Conn, op: nat, ec: Option<int>)
    requires op < |c.sender.handed|
    ensures NoneExpires(c.timers, SendDone(c, op, ec).timers)
  {
    var c1 := c.(sender := Ended(c.sender, op, ec.None?));
    var h := c.sender.handed[op].handler;
    OnSentExpiresNone(c1, h, ec);
    assert SendDone(c, op, ec).timers == OnSent(c1, h, ec).timers;
  }

  lemma OnSentExpiresNone(c: Conn, h: SendHandler, ec: Option<int>)
    ensures NoneExpires(c.timers, OnSent(c, h, ec).timers)
  {
    match h
    case AckSent(interval, dict) => UpExpiresNone(c, interval, dict);
    case _ =>
  }

  lemma UpExpiresNone(c: Conn, interval: nat, dict: RouteDict)
    ensures NoneExpires(c.timers, SetConnected(c, interval, dict).timers)
  {
  }

  lemma WaitExpiresNone(c: Conn, w: nat)
    requires w in c.timers.waits
    ensures NoneExpires(c.timers, RunWait(c, w).timers)
  {
    var c1 := c.(timers := c.timers.(waits := c.timers.waits - {w}));
    DownExpiresNone(c1);
    TickExpiresNone(c1);
  }

  lemma TickExpiresNone(c: Conn)
    ensures NoneExpires(c.timers, HeartbeatTick(c).timers)
  {
  }

  lemma TaskExpiresNone(c: Conn)
    requires c.tasks.pending != []
    ensures RunTask(c).timers == c.timers
  {
  }

  /** Only the step that expires a wait makes it expired, at the time of that step. */
  lemma StepExpires(c: Conn, s: Step, w: nat)
    requires Enabled(c, s) && w in Apply(c, s).timers.waits && Apply(c, s).timers.waits[w].status.Expired?
    ensures var wait := Apply(c, s).timers.waits[w];
            (w in c.timers.waits && c.timers.waits[w] == wait) || (s == Expire(w) && wait.status.at == c.timers.now)
  {
    match s
    case ReceiveStep(_, _, _) => ReceiveExpiresNone(c, s);
    case SendStep(op, ec) => SendExpiresNone(c, op, ec);
    case WaitStep(v) => WaitExpiresNone(c, v);
    case TaskStep => TaskExpiresNone(c);
    case _ =>
  }
}
