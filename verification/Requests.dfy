/** Where every request is. Each PostRequest call has a token; at any moment its handler is in
    exactly one place: a posted task, the send queue, a send in progress, the in-flight map, a
    refused packet, or it has been called. */
module Requests {
  import opened Prelude
  import opened Packets
  import opened Framing
  import opened Messages
  import opened Runtime
  import opened Protocol

  /** Posted and Queued name a task by its number, SendingAs a send by its index, Flying a request
      id, Answered and Dropped an entry of the answers and of the refused packets. Held is the callback
      being run; in a run that has ended it is the one that ended it. */
  datatype Place =
    | Posted(task: nat)
    | Queued(task: nat)
    | SendingAs(op: nat)
    | Flying(id: nat)
    | Answered(index: nat)
    | Dropped(index: nat)
    | Held

  type Placement = map<nat, Place>

  /** Everything that holds a handler says where that handler is ... */
  ghost predicate TasksPoint(ts: Tasks, place: Placement) {
    forall i :: 0 <= i < |ts.pending| ==>
      match ts.pending[i]
      case RunRequest(token, _, _, _) => token in place && place[token] == Posted(ts.ran + i)
      case SendNext(RequestSent(_, token, _)) => token in place && place[token] == Queued(ts.ran + i)
      case _ => true
  }

  ghost predicate OpsPoint(s: Sender, place: Placement) {
    forall op :: op in s.outstanding && op < |s.handed| && s.handed[op].handler.RequestSent? ==>
      var token := s.handed[op].handler.token;
      token in place && place[token] == SendingAs(op)
  }

  ghost predicate FlightsPoint(inFlight: map<nat, InFlight>, place: Placement) {
    forall id :: id in inFlight ==>
      inFlight[id].token in place && place[inFlight[id].token] == Flying(id)
  }

  ghost predicate AnswersPoint(answers: seq<Answer>, place: Placement) {
    forall k :: 0 <= k < |answers| ==> answers[k].token in place && place[answers[k].token] == Answered(k)
  }

  ghost predicate RefusedPoint(s: Sender, place: Placement) {
    forall k :: 0 <= k < |s.refused| && s.refused[k].handler.RequestSent? ==>
      var token := s.refused[k].handler.token;
      token in place && place[token] == Dropped(k)
  }

  /** ... and a handler's place holds it. */
  ghost predicate IsAt(c: Conn, token: nat, p: Place, held: set<nat>) {
    match p
    case Posted(n) =>
      c.tasks.ran <= n < c.tasks.ran + |c.tasks.pending| &&
      var t := c.tasks.pending[n - c.tasks.ran]; t.RunRequest? && t.token == token
    case Queued(n) =>
      c.tasks.ran <= n < c.tasks.ran + |c.tasks.pending| &&
      var t := c.tasks.pending[n - c.tasks.ran]; t.SendNext? && t.handler.RequestSent? && t.handler.token == token
    case SendingAs(op) =>
      op in c.sender.outstanding && op < |c.sender.handed| &&
      var h := c.sender.handed[op].handler; h.RequestSent? && h.token == token
    case Flying(id) => id in c.inFlight && c.inFlight[id].token == token
    case Answered(k) => k < |c.answers| && c.answers[k].token == token
    case Dropped(k) =>
      k < |c.sender.refused| &&
      var h := c.sender.refused[k].handler; h.RequestSent? && h.token == token
    case Held => token in held || c.halted.Some?
  }

  ghost predicate Placed(c: Conn, place: Placement, held: set<nat>) {
    && (forall token: nat :: token in place <==> token < c.posted)
    && TasksPoint(c.tasks, place)
    && OpsPoint(c.sender, place)
    && FlightsPoint(c.inFlight, place)
    && AnswersPoint(c.answers, place)
    && RefusedPoint(c.sender, place)
    && (forall token :: token in place ==> IsAt(c, token, place[token], held))
    && (forall token :: token in held ==> token in place && place[token] == Held)
  }

  // ---------------------------------------------------------------------------------------
  // Moving one handler
  // ---------------------------------------------------------------------------------------

  ghost predicate SameRequests(c: Conn, d: Conn) {
    && d.posted == c.posted
    && d.tasks == c.tasks
    && d.sender.handed == c.sender.handed
    && d.sender.outstanding == c.sender.outstanding
    && d.sender.refused == c.sender.refused
    && d.inFlight == c.inFlight
    && d.answers == c.answers
    && (c.halted.Some? ==> d.halted.Some?)
  }

  lemma SameKeepsPlaced(c: Conn, d: Conn, place: Placement, held: set<nat>)
    requires Placed(c, place, held) && SameRequests(c, d)
    ensures Placed(d, place, held)
  {
    forall token | token in place ensures IsAt(d, token, place[token], held) {
      assert IsAt(c, token, place[token], held);
    }
  }

  lemma PostPlaced(c: Conn, place: Placement, route: string, data: Bytes, timeout: nat) returns (place': Placement)
    requires Placed(c, place, {})
    ensures var t := RunRequest(c.posted, route, data, timeout);
            Placed(c.(posted := c.posted + 1, tasks := Post(c.tasks, t)), place', {})
  {
    var d := c.(posted := c.posted + 1, tasks := Post(c.tasks, RunRequest(c.posted, route, data, timeout)));
    place' := place[c.posted := Posted(c.tasks.ran + |c.tasks.pending|)];
    forall token | token in place' ensures IsAt(d, token, place'[token], {}) {
      assert token != c.posted ==> IsAt(c, token, place[token], {});
    }
  }

  /** The task in front is taken: a request's handler is then held. */
  lemma PopPlaced(c: Conn, place: Placement) returns (place': Placement, held: set<nat>)
    requires Placed(c, place, {}) && c.tasks.pending != []
    ensures Placed(c.(tasks := PopTask(c.tasks)), place', held)
    ensures held == match c.tasks.pending[0]
                    case RunRequest(token, _, _, _) => {token}
                    case SendNext(RequestSent(_, token, _)) => {token}
                    case _ => {}
  {
    match c.tasks.pending[0] {
      case RunRequest(token, _, _, _) =>
        place' := PopHeld(c, place, token);
        held := {token};
      case SendNext(RequestSent(_, token, _)) =>
        place' := PopHeld(c, place, token);
        held := {token};
      case _ =>
        place', held := place, {};
        PopOther(c, place);
    }
  }

  lemma PopHeld(c: Conn, place: Placement, token: nat) returns (place': Placement)
    requires Placed(c, place, {}) && c.tasks.pending != []
    requires match c.tasks.pending[0]
             case RunRequest(t, _, _, _) => t == token
             case SendNext(RequestSent(_, t, _)) => t == token
             case _ => false
    ensures Placed(c.(tasks := PopTask(c.tasks)), place', {token})
  {
    var d := c.(tasks := PopTask(c.tasks));
    place' := place[token := Held];
    forall t | t in place' ensures IsAt(d, t, place'[t], {token}) {
      assert IsAt(c, t, place[t], {});
    }
  }

  lemma PopOther(c: Conn, place: Placement)
    requires Placed(c, place, {}) && c.tasks.pending != []
    requires c.tasks.pending[0].SendNext? && !c.tasks.pending[0].handler.RequestSent?
    ensures Placed(c.(tasks := PopTask(c.tasks)), place, {})
  {
    var d := c.(tasks := PopTask(c.tasks));
    forall t | t in place ensures IsAt(d, t, place[t], {}) {
      assert IsAt(c, t, place[t], {});
    }
  }

  lemma RespondPlaced(c: Conn, place: Placement, token: nat, status: RequestStatus, data: Bytes)
    returns (place': Placement)
    requires Placed(c, place, {token})
    ensures Placed(Respond(c, token, status, data), place', {})
  {
    var d := Respond(c, token, status, data);
    place' := place[token := Answered(|c.answers|)];
    forall t | t in place' ensures IsAt(d, t, place'[t], {}) {
      assert IsAt(c, t, place[t], {token});
    }
  }

  /** Enqueueing the packet of the request held: it is then queued ... */
  lemma AcceptedPlaced(c: Conn, place: Placement, p: Packet, id: nat, token: nat, timeout: nat)
    returns (place': Placement)
    requires Placed(c, place, {token}) && |c.sender.queue| < MAX_QUEUED_PACKETS
    ensures Placed(SendPacket(c, p, RequestSent(id, token, timeout)), place', {})
  {
    var d := SendPacket(c, p, RequestSent(id, token, timeout));
    place' := place[token := Queued(c.tasks.ran + |c.tasks.pending|)];
    forall t | t in place' ensures IsAt(d, t, place'[t], {}) {
      assert IsAt(c, t, place[t], {token});
    }
  }

  /** ... or refused. */
  lemma RefusedPlaced(c: Conn, place: Placement, p: Packet, id: nat, token: nat, timeout: nat)
    returns (place': Placement)
    requires Placed(c, place, {token}) && |c.sender.queue| >= MAX_QUEUED_PACKETS
    ensures Placed(SendPacket(c, p, RequestSent(id, token, timeout)), place', {})
  {
    var d := SendPacket(c, p, RequestSent(id, token, timeout));
    place' := place[token := Dropped(|c.sender.refused|)];
    forall t | t in place' ensures IsAt(d, t, place'[t], {}) {
      assert IsAt(c, t, place[t], {token});
    }
  }

  lemma SendOtherPlaced(c: Conn, place: Placement, p: Packet, h: SendHandler)
    requires Placed(c, place, {}) && !h.RequestSent?
    ensures Placed(SendPacket(c, p, h), place, {})
  {
    if |c.sender.queue| < MAX_QUEUED_PACKETS {
      OtherAccepted(c, place, p, h);
    } else {
      OtherRefused(c, place, p, h);
    }
  }

  lemma OtherAccepted(c: Conn, place: Placement, p: Packet, h: SendHandler)
    requires Placed(c, place, {}) && !h.RequestSent? && |c.sender.queue| < MAX_QUEUED_PACKETS
    ensures Placed(SendPacket(c, p, h), place, {})
  {
    var d := SendPacket(c, p, h);
    forall t | t in place ensures IsAt(d, t, place[t], {}) {
      assert IsAt(c, t, place[t], {});
    }
  }

  lemma OtherRefused(c: Conn, place: Placement, p: Packet, h: SendHandler)
    requires Placed(c, place, {}) && !h.RequestSent? && |c.sender.queue| >= MAX_QUEUED_PACKETS
    ensures Placed(SendPacket(c, p, h), place, {})
  {
    var d := SendPacket(c, p, h);
    forall t | t in place ensures IsAt(d, t, place[t], {}) {
      assert IsAt(c, t, place[t], {});
    }
  }

  /** Handing the front packet to the socket with the callback that is held. */
  lemma BeginSendPlaced(c: Conn, place: Placement, h: SendHandler) returns (place': Placement)
    requires h.RequestSent? && Placed(c, place, {h.token})
    requires c.sender.queue != [] && forall i :: i in c.sender.outstanding ==> i < |c.sender.handed|
    ensures Placed(c.(sender := Sending(c.sender, h)), place', {})
  {
    var d := c.(sender := Sending(c.sender, h));
    place' := place[h.token := SendingAs(|c.sender.handed|)];
    forall t | t in place' ensures IsAt(d, t, place'[t], {}) {
      assert IsAt(c, t, place[t], {h.token});
    }
  }

  lemma BeginOtherSendPlaced(c: Conn, place: Placement, h: SendHandler)
    requires Placed(c, place, {}) && !h.RequestSent?
    requires c.sender.queue != [] && forall i :: i in c.sender.outstanding ==> i < |c.sender.handed|
    ensures Placed(c.(sender := Sending(c.sender, h)), place, {})
  {
    var d := c.(sender := Sending(c.sender, h));
    forall t | t in place ensures IsAt(d, t, place[t], {}) {
      assert IsAt(c, t, place[t], {});
    }
  }

  /** A send completes: its callback is then held. */
  lemma EndSendPlaced(c: Conn, place: Placement, op: nat, ok: bool) returns (place': Placement, held: set<nat>)
    requires Placed(c, place, {}) && op in c.sender.outstanding && op < |c.sender.handed|
    ensures Placed(c.(sender := Ended(c.sender, op, ok)), place', held)
    ensures var h := c.sender.handed[op].handler; held == if h.RequestSent? then {h.token} else {}
  {
    var d := c.(sender := Ended(c.sender, op, ok));
    var h := c.sender.handed[op].handler;
    place', held := place, {};
    if h.RequestSent? {
      place', held := place[h.token := Held], {h.token};
    }
    forall t | t in place' ensures IsAt(d, t, place'[t], held) {
      assert IsAt(c, t, place[t], {});
    }
  }

  /** The send of the request held succeeded: the request is then in flight. */
  lemma FlyPlaced(c: Conn, place: Placement, h: SendHandler) returns (place': Placement)
    requires h.RequestSent? && Placed(c, place, {h.token})
    ensures Placed(OnSent(c, h, None), place', {})
  {
    if h.id in c.inFlight {
      place' := EndedPlaced(c, place, h.token, DuplicateRequestId);
    } else {
      var t := AsyncWait(c.timers, RequestTimeoutWait(h.id), c.timers.now + h.timeout);
      place' := TakeOff(c, place, h.id, h.token, c.timers.next, t);
    }
  }

  lemma TakeOff(c: Conn, place: Placement, id: nat, token: nat, wait: nat, timers: Timers) returns (place': Placement)
    requires Placed(c, place, {token}) && id !in c.inFlight
    ensures Placed(c.(inFlight := c.inFlight[id := InFlight(token, wait)], timers := timers), place', {})
  {
    var d := c.(inFlight := c.inFlight[id := InFlight(token, wait)], timers := timers);
    place' := place[token := Flying(id)];
    forall t | t in place' ensures IsAt(d, t, place'[t], {}) {
      assert IsAt(c, t, place[t], {token});
    }
  }

  lemma FinishPlaced(c: Conn, place: Placement, id: nat, status: RequestStatus, data: Bytes) returns (place': Placement)
    requires Placed(c, place, {}) && id in c.inFlight
    ensures Placed(FinishRequest(c, id, status, data), place', {})
  {
    var d := FinishRequest(c, id, status, data);
    place' := place[c.inFlight[id].token := Answered(|c.answers|)];
    forall t | t in place' ensures IsAt(d, t, place'[t], {}) {
      assert IsAt(c, t, place[t], {});
    }
  }

  // ---------------------------------------------------------------------------------------
  // Every step
  // ---------------------------------------------------------------------------------------

  lemma RunRequestPlaced(c: Conn, place: Placement, token: nat, route: string, data: Bytes, timeout: nat)
    returns (place': Placement)
    requires Placed(c, place, {token}) && c.halted.None?
    ensures Placed(RunRequestTask(c, token, route, data, timeout), place', {})
  {
    if c.state.Inited? {
      place' := RespondPlaced(c, place, token, NotConnectedError, []);
    } else {
      var c1 := c.(reqId := (c.reqId + 1) % TWO_TO_64, issued := c.issued + 1);
      SameKeepsPlaced(c, c1, place, {token});
      match Messages.Encode(NewRequest(c.reqId, route, data), c.state.routeToCode) {
        case None => place' := EndedPlaced(c1, place, token, UnknownRoute);
        case Some(body) =>
          if |c.sender.queue| < MAX_QUEUED_PACKETS {
            place' := AcceptedPlaced(c1, place, Packet(Data, body), c.reqId, token, timeout);
          } else {
            place' := RefusedPlaced(c1, place, Packet(Data, body), c.reqId, token, timeout);
          }
      }
    }
  }

  /** The callback held ends the run. */
  lemma EndedPlaced(c: Conn, place: Placement, token: nat, why: Halt) returns (place': Placement)
    requires Placed(c, place, {token})
    ensures Placed(c.(halted := Some(why)), place', {})
  {
    var d := c.(halted := Some(why));
    place' := place;
    forall t | t in place' ensures IsAt(d, t, place'[t], {}) {
      assert IsAt(c, t, place[t], {token});
    }
  }

  lemma SendNextPlaced(c: Conn, place: Placement, h: SendHandler) returns (place': Placement)
    requires Placed(c, place, if h.RequestSent? then {h.token} else {}) && c.sender.queue != []
    requires forall i :: i in c.sender.outstanding ==> i < |c.sender.handed|
    ensures Placed(SendNextPacket(c, h), place', {})
  {
    place' := place;
    if h.RequestSent? {
      place' := BeginSendPlaced(c, place, h);
    } else {
      BeginOtherSendPlaced(c, place, h);
    }
    SameKeepsPlaced(c.(sender := Sending(c.sender, h)), SendNextPacket(c, h), place', {});
  }

  lemma RunTaskPlaced(c: Conn, place: Placement) returns (place': Placement)
    requires Placed(c, place, {}) && c.halted.None? && c.tasks.pending != []
    requires c.tasks.pending[0].SendNext? ==> c.sender.queue != []
    requires forall i :: i in c.sender.outstanding ==> i < |c.sender.handed|
    ensures Placed(RunTask(c), place', {})
  {
    var held;
    place', held := PopPlaced(c, place);
    var c1 := c.(tasks := PopTask(c.tasks));
    match c.tasks.pending[0] {
      case RunRequest(token, route, data, timeout) =>
        place' := RunRequestPlaced(c1, place', token, route, data, timeout);
      case SendNext(h) =>
        place' := SendNextPlaced(c1, place', h);
    }
  }

  lemma OnSentPlaced(c: Conn, place: Placement, h: SendHandler, ec: Option<int>) returns (place': Placement)
    requires c.halted.None? && Placed(c, place, if h.RequestSent? then {h.token} else {})
    ensures Placed(OnSent(c, h, ec), place', {})
  {
    place' := place;
    if !h.RequestSent? {
      SameKeepsPlaced(c, OnSent(c, h, ec), place, {});
    } else if ec.Some? {
      place' := RespondPlaced(c, place, h.token, InternalError, []);
    } else {
      place' := FlyPlaced(c, place, h);
    }
  }

  lemma SendDonePlaced(c: Conn, place: Placement, op: nat, ec: Option<int>) returns (place': Placement)
    requires Placed(c, place, {}) && c.halted.None? && op in c.sender.outstanding && op < |c.sender.handed|
    ensures Placed(SendDone(c, op, ec), place', {})
  {
    var held;
    place', held := EndSendPlaced(c, place, op, ec.None?);
    var c1 := c.(sender := Ended(c.sender, op, ec.None?));
    place' := OnSentPlaced(c1, place', c.sender.handed[op].handler, ec);
    SameKeepsPlaced(OnSent(c1, c.sender.handed[op].handler, ec), SendDone(c, op, ec), place', {});
  }

  lemma ProcessPacketPlaced(c: Conn, place: Placement, p: Packet, inflate: Bytes -> Option<Bytes>)
    returns (place': Placement)
    requires Placed(c, place, {})
    ensures Placed(ProcessPacket(c, p, inflate), place', {})
  {
    place' := place;
    if p.ptype == Data && c.state.Connected? {
      match Messages.Decode(p.body, c.state.codeToRoute, inflate) {
        case Ok(m) => place' := ProcessMessagePlaced(c, place, m);
        case _ => SameKeepsPlaced(c, ProcessPacket(c, p, inflate), place, {});
      }
    } else {
      SameKeepsPlaced(c, ProcessPacket(c, p, inflate), place, {});
    }
  }

  lemma ProcessMessagePlaced(c: Conn, place: Placement, m: Message) returns (place': Placement)
    requires Placed(c, place, {})
    ensures Placed(ProcessMessage(c, m), place', {})
  {
    place' := place;
    if m.mtype == Response {
      var c1 := c.(responses := c.responses + [m]);
      SameKeepsPlaced(c, c1, place, {});
      if m.id in c.inFlight {
        place' := FinishPlaced(c1, place, m.id, if m.error then ServerError else StatusOk, m.data);
      }
    }
  }

  lemma {:induction false} ProcessPacketsPlaced(c: Conn, place: Placement, ps: seq<Packet>,
                                                inflate: Bytes -> Option<Bytes>)
    returns (place': Placement)
    requires Placed(c, place, {})
    ensures Placed(ProcessPackets(c, ps, inflate), place', {})
  {
    place' := place;
    if ps != [] {
      var init := ps[..|ps| - 1];
      place' := ProcessPacketsPlaced(c, place, init, inflate);
      var c1 := ProcessPackets(c, init, inflate);
      if c1.halted.None? {
        place' := ProcessPacketPlaced(c1, place', ps[|ps| - 1], inflate);
      }
    }
  }

  lemma OnHandshakePlaced(c: Conn, place: Placement, ps: seq<Packet>, reply: HandshakeReply)
    requires Placed(c, place, {})
    ensures Placed(OnHandshakePackets(c, ps, reply), place, {})
  {
    if |ps| == 1 && ps[0].ptype == Handshake && reply.Good? {
      SendOtherPlaced(c, place, Packet(HandshakeAck, []), AckSent(reply.interval, reply.dict));
    } else {
      SameKeepsPlaced(c, OnHandshakePackets(c, ps, reply), place, {});
    }
  }

  lemma OnReceivedPlaced(c: Conn, place: Placement, h: ReceiveHandler, ec: Option<ErrorCode>, ps: seq<Packet>,
                         reply: HandshakeReply, inflate: Bytes -> Option<Bytes>)
    returns (place': Placement)
    requires Placed(c, place, {})
    ensures Placed(OnReceived(c, h, ec, ps, reply, inflate), place', {})
  {
    var d := OnReceived(c, h, ec, ps, reply, inflate);
    place' := place;
    if ec.Some? {
      SameKeepsPlaced(c, d, place, {});
    } else if h.OnHandshakeResponse? {
      OnHandshakePlaced(c, place, ps, reply);
    } else {
      place' := ProcessPacketsPlaced(c, place, ps, inflate);
      SameKeepsPlaced(ProcessPackets(c, ps, inflate), d, place', {});
    }
  }

  lemma DeliverPlaced(c: Conn, place: Placement, buffered: Bytes, h: ReceiveHandler, ec: Option<ErrorCode>,
                      ps: seq<Packet>, reply: HandshakeReply, inflate: Bytes -> Option<Bytes>)
    returns (place': Placement)
    requires Placed(c, place, {})
    ensures Placed(OnReceived(Quiet(c, buffered), h, ec, ps, reply, inflate), place', {})
  {
    SameKeepsPlaced(c, Quiet(c, buffered), place, {});
    place' := OnReceivedPlaced(Quiet(c, buffered), place, h, ec, ps, reply, inflate);
  }

  lemma ReceiveDonePlaced(c: Conn, place: Placement, r: ReadResult, reply: HandshakeReply,
                          inflate: Bytes -> Option<Bytes>)
    returns (place': Placement)
    requires Placed(c, place, {}) && c.reader.receiving.Some?
    ensures Placed(ReceiveDone(c, r, reply, inflate), place', {})
  {
    var h := c.reader.receiving.value;
    match r {
      case ReadFailed(code) =>
        place' := DeliverPlaced(c, place, c.reader.buffered, h, Some(System(code)), [], reply, inflate);
      case ReadBytes(chunk) =>
        var (done, rest) := ReadDone(c.reader.buffered, chunk);
        match done {
          case Deliver(ps) => place' := DeliverPlaced(c, place, rest, h, None, ps, reply, inflate);
          case Reject => place' := DeliverPlaced(c, place, rest, h, Some(InvalidPacketType), [], reply, inflate);
          case _ =>
            place' := place;
            SameKeepsPlaced(c, ReceiveDone(c, r, reply, inflate), place, {});
        }
    }
  }

  lemma RunWaitPlaced(c: Conn, place: Placement, w: nat) returns (place': Placement)
    requires Placed(c, place, {}) && w in c.timers.waits
    ensures Placed(RunWait(c, w), place', {})
  {
    var c1 := c.(timers := c.timers.(waits := c.timers.waits - {w}));
    var wait := c.timers.waits[w];
    SameKeepsPlaced(c, c1, place, {});
    place' := place;
    if wait.status.Aborted? || wait.kind.HeartbeatTimeoutWait? {
      SameKeepsPlaced(c1, RunWait(c, w), place, {});
    } else if wait.kind.TickWait? {
      TickPlaced(c1, place);
    } else if wait.kind.id in c.inFlight {
      place' := FinishPlaced(c1, place, wait.kind.id, Timeout, []);
    }
  }

  lemma TickPlaced(c: Conn, place: Placement)
    requires Placed(c, place, {})
    ensures Placed(HeartbeatTick(c), place, {})
  {
    if c.state.Connected? {
      var c1 := SendPacket(c, Packet(Heartbeat, []), HeartbeatSent);
      SendOtherPlaced(c, place, Packet(Heartbeat, []), HeartbeatSent);
      SameKeepsPlaced(c1, HeartbeatTick(c), place, {});
    }
  }

  lemma ConnectDonePlaced(c: Conn, place: Placement, ec: Option<int>)
    requires Placed(c, place, {})
    ensures Placed(ConnectDone(c, ec), place, {})
  {
    var c1 := c.(reader := c.reader.(connecting := false));
    SameKeepsPlaced(c, c1, place, {});
    if ec.Some? {
      SameKeepsPlaced(c1, ConnectDone(c, ec), place, {});
    } else {
      SendOtherPlaced(c1, place, Packet(Handshake, BytesOf(HANDSHAKE_JSON)), HandshakeSent);
    }
  }

  lemma StepPlaced(c: Conn, s: Step, place: Placement) returns (place': Placement)
    requires Placed(c, place, {}) && Enabled(c, s)
    requires s.TaskStep? && c.tasks.pending[0].SendNext? ==> c.sender.queue != []
    requires forall i :: i in c.sender.outstanding ==> i < |c.sender.handed|
    ensures Placed(Apply(c, s), place', {})
  {
    place' := place;
    match s {
      case PostRequest(route, data, timeout) => place' := PostPlaced(c, place, route, data, timeout);
      case TaskStep => place' := RunTaskPlaced(c, place);
      case ConnectStep(ec) => ConnectDonePlaced(c, place, ec);
      case SendStep(op, ec) => place' := SendDonePlaced(c, place, op, ec);
      case ReceiveStep(_, _, _) => place' := ReceivePlaced(c, s, place);
      case WaitStep(w) => place' := RunWaitPlaced(c, place, w);
      case _ => QuietPlaced(c, s, place);
    }
  }

  lemma QuietPlaced(c: Conn, s: Step, place: Placement)
    requires Placed(c, place, {}) && Enabled(c, s) && (s.Start? || s.Elapse? || s.Expire?)
    ensures Placed(Apply(c, s), place, {})
  {
    SameKeepsPlaced(c, Apply(c, s), place, {});
  }

  lemma ReceivePlaced(c: Conn, s: Step, place: Placement) returns (place': Placement)
    requires Placed(c, place, {}) && Enabled(c, s) && s.ReceiveStep?
    ensures Placed(Apply(c, s), place', {})
  {
    SameKeepsPlaced(c, Noted(c, s.result), place, {});
    place' := ReceiveDonePlaced(Noted(c, s.result), place, s.result, s.reply, s.inflate);
  }
}
