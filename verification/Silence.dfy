/** When a heartbeat timeout can still be raised. The timeout wait is started once, when the
    connection is established, and is not started again when a heartbeat re-times its timer. */
module Silence {
  import opened Prelude
  import opened Packets
  import opened Framing
  import opened Runtime
  import opened Protocol
  import opened Handshake
  import opened Attention

  /** A heartbeat timeout wait that will still run with success. */
  predicate TimeoutLive(t: Timers, w: nat) {
    Live(t, w) && t.waits[w].kind.HeartbeatTimeoutWait?
  }

  const TIMEOUT_EVENT: Event := ConnectionErrorEvent(HeartbeatTimeout)

  /** No timeout wait comes to life, the connection is not established and no timeout is raised. */
  ghost predicate NothingNew(c: Conn, d: Conn) {
    && (forall w :: TimeoutLive(d.timers, w) ==> TimeoutLive(c.timers, w))
    && (d.state.Connected? ==> c.state.Connected?)
    && c.events <= d.events
    && (TIMEOUT_EVENT in d.events ==> TIMEOUT_EVENT in c.events)
  }

  lemma ErrorIsNotNew(c: Conn, why: ErrorCode)
    requires why != HeartbeatTimeout
    ensures NothingNew(c, ConnectionError(c, why)) && NothingNew(c, KickedFromServer(c))
    ensures NothingNew(c, HandshakeFailed(c, why))
  {
  }

  lemma ProcessPacketIsNotNew(c: Conn, p: Packet, inflate: Bytes -> Option<Bytes>)
    ensures NothingNew(c, ProcessPacket(c, p, inflate))
  {
    ErrorIsNotNew(c, InvalidMessage);
    ErrorIsNotNew(c, WrongPacket);
  }

  lemma {:induction false} ProcessPacketsIsNotNew(c: Conn, ps: seq<Packet>, inflate: Bytes -> Option<Bytes>)
    ensures NothingNew(c, ProcessPackets(c, ps, inflate))
  {
    if ps != [] {
      var init := ps[..|ps| - 1];
      ProcessPacketsIsNotNew(c, init, inflate);
      ProcessPacketIsNotNew(ProcessPackets(c, init, inflate), ps[|ps| - 1], inflate);
    }
  }

  lemma OnReceivedIsNotNew(c: Conn, h: ReceiveHandler, ec: Option<ErrorCode>, ps: seq<Packet>,
                           reply: HandshakeReply, inflate: Bytes -> Option<Bytes>)
    requires ec != Some(HeartbeatTimeout)
    ensures NothingNew(c, OnReceived(c, h, ec, ps, reply, inflate))
  {
    if ec.Some? {
      ErrorIsNotNew(c, ec.value);
    } else if h.OnPackets? {
      ProcessPacketsIsNotNew(c, ps, inflate);
    } else {
      ErrorIsNotNew(c, TooManyPackets);
      ErrorIsNotNew(c, WrongPacket);
      ErrorIsNotNew(c, InvalidHandshakeCompression);
      ErrorIsNotNew(c, InvalidHeartbeatJson);
    }
  }

  lemma ReceiveIsNotNew(c: Conn, r: ReadResult, reply: HandshakeReply, inflate: Bytes -> Option<Bytes>)
    requires c.reader.receiving.Some?
    ensures NothingNew(c, ReceiveDone(c, r, reply, inflate))
  {
    var h := c.reader.receiving.value;
    match r
    case ReadFailed(code) => OnReceivedIsNotNew(Quiet(c, c.reader.buffered), h, Some(System(code)), [], reply, inflate);
    case ReadBytes(chunk) =>
      var (done, rest) := ReadDone(c.reader.buffered, chunk);
      match done
      case Deliver(ps) => OnReceivedIsNotNew(Quiet(c, rest), h, None, ps, reply, inflate);
      case Reject => OnReceivedIsNotNew(Quiet(c, rest), h, Some(InvalidPacketType), [], reply, inflate);
      case _ =>
  }

  lemma SendDoneIsNotNew(c: Conn, op: nat, ec: Option<int>)
    requires op < |c.sender.handed| && !c.sender.handed[op].handler.AckSent?
    ensures NothingNew(c, SendDone(c, op, ec))
  {
    var h := c.sender.handed[op].handler;
    if ec.Some? && !h.RequestSent? {
      ErrorIsNotNew(c.(sender := Ended(c.sender, op, false)), System(ec.value));
    }
  }

  lemma RunWaitIsNotNew(c: Conn, w: nat)
    requires w in c.timers.waits && (c.state.Connected? ==> !TimeoutLive(c.timers, w))
    ensures NothingNew(c, RunWait(c, w))
  {
  }

  lemma ConnectIsNotNew(c: Conn, ec: Option<int>)
    ensures NothingNew(c, ConnectDone(c, ec))
  {
    if ec.Some? {
      ErrorIsNotNew(c.(reader := c.reader.(connecting := false)), System(ec.value));
    }
  }

  /** Connected, or no longer connected, with no live timeout wait and none raised so far. */
  ghost predicate Deaf(c: Conn) {
    && ConnectedEvent in c.events && TIMEOUT_EVENT !in c.events
    && (c.state.Connected? ==> forall w :: !TimeoutLive(c.timers, w))
  }

  /** Once deaf, always deaf: no step raises a timeout or makes one possible. */
  lemma StepStaysDeaf(c: Conn, stage: Stage, s: Step)
    requires InStage(c, stage) && Enabled(c, s) && Deaf(c)
    ensures Deaf(Apply(c, s))
  {
    match s
    case SendStep(op, ec) =>
      SendDoneIsNotNew(c, op, ec);
      assert NothingNew(c, SendDone(c, op, ec));
    case ReceiveStep(r, reply, inflate) => ReceiveIsNotNew(Noted(c, r), r, reply, inflate);
    case WaitStep(w) => RunWaitIsNotNew(c, w);
    case Expire(w) =>
      assert forall v :: TimeoutLive(Apply(c, s).timers, v) ==> TimeoutLive(c.timers, v);
    case TaskStep => assert NothingNew(c, RunTask(c));
    case Elapse(_) => assert NothingNew(c, Apply(c, s));
    case ConnectStep(ec) => ConnectIsNotNew(c, ec);
    case Start =>
    case PostRequest(_, _, _) =>
  }
}
