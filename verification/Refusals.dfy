/** Which requests are dropped: exactly those whose task runs while connected, with a route of the
    dictionary, when fifty packets are queued. */
module Refusals {
  import opened Prelude
  import opened Packets
  import opened Framing
  import opened Messages
  import opened Runtime
  import opened Protocol
  import opened SendPipeline
  import opened Runs

  ghost predicate RefusedIn(refused: seq<Sent>, token: nat) {
    exists k :: 0 <= k < |refused| && refused[k].handler.RequestSent? && refused[k].handler.token == token
  }

  /** The guard: the request's task runs with the queue full. */
  predicate TurnedAway(c: Conn, s: Step, token: nat)
    requires Enabled(c, s)
  {
    && s.TaskStep? && c.tasks.pending[0].RunRequest? && c.tasks.pending[0].token == token
    && c.state.Connected? && c.tasks.pending[0].route in c.state.routeToCode
    && |c.sender.queue| >= 50
  }

  lemma RefusedAppend(refused: seq<Sent>, s: Sent, token: nat)
    ensures RefusedIn(refused + [s], token) <==>
            RefusedIn(refused, token) || (s.handler.RequestSent? && s.handler.token == token)
  {
    var all := refused + [s];
    assert all[|refused|] == s;
    assert forall k :: 0 <= k < |refused| ==> all[k] == refused[k];
  }

  lemma TaskRefuses(c: Conn, s: Step, token: nat)
    requires Enabled(c, s) && s.TaskStep?
    ensures RefusedIn(Apply(c, s).sender.refused, token) <==>
            RefusedIn(c.sender.refused, token) || TurnedAway(c, s, token)
  {
    var t := c.tasks.pending[0];
    if t.RunRequest? && c.state.Connected? {
      var body := Messages.Encode(NewRequest(c.reqId, t.route, t.data), c.state.routeToCode);
      if body.Some? {
        var h := RequestSent(c.reqId, t.token, t.timeout);
        RefusedAppend(c.sender.refused, Sent(Packet(Data, body.value), h), token);
      }
    }
  }

  /** Offering a packet of another kind. */
  lemma SendOtherRefuses(c: Conn, p: Packet, h: SendHandler, token: nat)
    requires !h.RequestSent?
    ensures RefusedIn(SendPacket(c, p, h).sender.refused, token) <==> RefusedIn(c.sender.refused, token)
  {
    RefusedAppend(c.sender.refused, Sent(p, h), token);
  }

  lemma WaitRefuses(c: Conn, w: nat, token: nat)
    requires w in c.timers.waits
    ensures RefusedIn(RunWait(c, w).sender.refused, token) <==> RefusedIn(c.sender.refused, token)
  {
    var c1 := c.(timers := c.timers.(waits := c.timers.waits - {w}));
    SendOtherRefuses(c1, Packet(Heartbeat, []), HeartbeatSent, token);
  }

  lemma ConnectRefuses(c: Conn, ec: Option<int>, token: nat)
    ensures RefusedIn(ConnectDone(c, ec).sender.refused, token) <==> RefusedIn(c.sender.refused, token)
  {
    var c1 := c.(reader := c.reader.(connecting := false));
    SendOtherRefuses(c1, Packet(PacketType.Handshake, BytesOf(HANDSHAKE_JSON)), HandshakeSent, token);
  }

  lemma CallbackRefuses(c: Conn, h: ReceiveHandler, ec: Option<ErrorCode>, ps: seq<Packet>,
                        reply: HandshakeReply, inflate: Bytes -> Option<Bytes>, token: nat)
    ensures RefusedIn(OnReceived(c, h, ec, ps, reply, inflate).sender.refused, token) <==>
            RefusedIn(c.sender.refused, token)
  {
    if ec.None? && h.OnPackets? {
      ProcessPacketsKeepsSends(c, ps, inflate);
    } else if ec.None? && reply.Good? {
      SendOtherRefuses(c, Packet(HandshakeAck, []), AckSent(reply.interval, reply.dict), token);
    }
  }

  lemma ReceiveRefuses(c: Conn, s: Step, token: nat)
    requires Enabled(c, s) && s.ReceiveStep?
    ensures RefusedIn(Apply(c, s).sender.refused, token) <==> RefusedIn(c.sender.refused, token)
  {
    var h := c.reader.receiving.value;
    var c1 := Noted(c, s.result);
    match s.result
    case ReadFailed(code) =>
      CallbackRefuses(Quiet(c1, c1.reader.buffered), h, Some(System(code)), [], s.reply, s.inflate, token);
    case ReadBytes(chunk) =>
      var (done, rest) := ReadDone(c.reader.buffered, chunk);
      match done
      case Deliver(ps) => CallbackRefuses(Quiet(c1, rest), h, None, ps, s.reply, s.inflate, token);
      case Reject => CallbackRefuses(Quiet(c1, rest), h, Some(InvalidPacketType), [], s.reply, s.inflate, token);
      case _ =>
  }

  /** A step refuses a request's packet if and only if the guard holds. */
  lemma StepRefusesIff(c: Conn, s: Step, token: nat)
    requires Enabled(c, s)
    ensures RefusedIn(Apply(c, s).sender.refused, token) <==>
            RefusedIn(c.sender.refused, token) || TurnedAway(c, s, token)
  {
    match s
    case TaskStep => TaskRefuses(c, s, token);
    case WaitStep(w) => WaitRefuses(c, w, token);
    case ConnectStep(ec) => ConnectRefuses(c, ec, token);
    case ReceiveStep(_, _, _) => ReceiveRefuses(c, s, token);
    case _ =>
  }

  /** Step n of the run turns the request away. */
  ghost predicate TurnedAwayAt(steps: seq<Step>, token: nat, n: nat) {
    Taken(steps, n) && TurnedAway(Exec(steps[..n]).value, steps[n], token)
  }

  /** Over a run: a request's packet was refused if and only if some step turned it away. */
  lemma {:induction false} RefusedIff(steps: seq<Step>, token: nat)
    requires Exec(steps).Some?
    ensures RefusedIn(Exec(steps).value.sender.refused, token) <==> exists n: nat :: TurnedAwayAt(steps, token, n)
  {
    if steps != [] {
      var last := LastTaken(steps);
      var before := steps[..last];
      RefusedIff(before, token);
      StepRefusesIff(Exec(before).value, steps[last], token);
      forall n: nat | n < last ensures TurnedAwayAt(before, token, n) <==> TurnedAwayAt(steps, token, n) {
        assert before[..n] == steps[..n];
      }
      assert TurnedAwayAt(steps, token, last) <==> TurnedAway(Exec(before).value, steps[last], token);
      assert forall n: nat :: TurnedAwayAt(steps, token, n) ==> n <= last;
      assert forall n: nat :: TurnedAwayAt(before, token, n) ==> n < last;
    }
  }
}
