/** Which request a reply answers: request ids, the packets that carry them, and the responses that
    Ok and ServerError answers come from. */
module Replies {
  import opened Prelude
  import opened Packets
  import opened Framing
  import opened Messages
  import opened Runtime
  import opened Protocol
  import opened SendPipeline
  import Varint

  // ---------------------------------------------------------------------------------------
  // Packets and ids
  // ---------------------------------------------------------------------------------------

  /** `p` is the Data packet of a request with this id, under some dictionary. */
  ghost predicate CarriesRequest(p: Packet, id: nat) {
    && p.ptype == Data && id < TWO_TO_64
    && exists route: string, codes: map<string, int> ::
         Messages.Encode(NewRequest(id, route, []), codes) == Some(p.body)
  }

  /** The packet that belongs to a send callback. */
  ghost predicate Belongs(s: Sent) {
    match s.handler
    case HandshakeSent => s.packet == Packet(Handshake, BytesOf(HANDSHAKE_JSON))
    case AckSent(_, _) => s.packet == Packet(HandshakeAck, [])
    case HeartbeatSent => s.packet == Packet(Heartbeat, [])
    case RequestSent(id, _, _) => CarriesRequest(s.packet, id)
  }

  /** The id can be read off the wire. */
  lemma WireCarriesId(p: Packet, id: nat)
    requires CarriesRequest(p, id)
    ensures |p.body| >= 1
    ensures Varint.Decode(p.body, 1).Id? && Varint.Decode(p.body, 1).value == id
  {
    var route: string, codes: map<string, int> :|
      Messages.Encode(NewRequest(id, route, []), codes) == Some(p.body);
    var flag := [EncodeFlag(false)];
    var tail := EncodeCode(codes[route]);
    assert p.body == flag + Varint.Encode(id) + tail;
    Varint.RoundTrip(flag, id, tail);
  }

  /** Until the counter wraps, ids grow along the accepted packets and are below the next one. */
  ghost predicate IdsGrow(accepted: seq<Sent>, issued: nat) {
    && (forall i :: 0 <= i < |accepted| && accepted[i].handler.RequestSent? ==> accepted[i].handler.id <= issued)
    && (forall i, j ::
          0 <= i < j < |accepted| && accepted[i].handler.RequestSent? && accepted[j].handler.RequestSent? ==>
          accepted[i].handler.id < accepted[j].handler.id)
  }

  ghost predicate IdInv(c: Conn) {
    && c.reqId == (c.issued + 1) % TWO_TO_64
    && (c.issued < TWO_TO_64 ==> IdsGrow(c.sender.accepted, c.issued))
    && (forall i :: 0 <= i < |c.sender.accepted| ==> Belongs(c.sender.accepted[i]))
  }

  lemma SameIds(c: Conn, d: Conn)
    requires IdInv(c) && d.reqId == c.reqId && d.issued == c.issued && d.sender.accepted == c.sender.accepted
    ensures IdInv(d)
  {
  }

  lemma SendOtherIds(c: Conn, p: Packet, h: SendHandler)
    requires IdInv(c) && !h.RequestSent? && Belongs(Sent(p, h))
    ensures IdInv(SendPacket(c, p, h))
  {
  }

  /** Appending the packet of the next id. */
  lemma NextIdGrows(accepted: seq<Sent>, issued: nat, s: Sent)
    requires IdsGrow(accepted, issued) && s.handler.RequestSent? && s.handler.id == issued + 1
    ensures IdsGrow(accepted + [s], issued + 1) && IdsGrow(accepted, issued + 1)
  {
  }

  lemma SendRequestIds(c: Conn, p: Packet, token: nat, timeout: nat)
    requires IdInv(c) && CarriesRequest(p, c.reqId)
    ensures IdInv(SendPacket(c.(reqId := (c.reqId + 1) % TWO_TO_64, issued := c.issued + 1),
                             p, RequestSent(c.reqId, token, timeout)))
  {
    NextId(c.issued);
    if c.issued + 1 < TWO_TO_64 {
      NextIdGrows(c.sender.accepted, c.issued, Sent(p, RequestSent(c.reqId, token, timeout)));
    }
  }

  lemma RunRequestIds(c: Conn, token: nat, route: string, data: Bytes, timeout: nat)
    requires IdInv(c)
    ensures IdInv(RunRequestTask(c, token, route, data, timeout))
  {
    if c.state.Connected? {
      NextId(c.issued);
      var body := Messages.Encode(NewRequest(c.reqId, route, data), c.state.routeToCode);
      if body.Some? {
        assert NewRequest(c.reqId, route, data) == NewRequest(c.reqId, route, []);
        SendRequestIds(c, Packet(Data, body.value), token, timeout);
      }
    }
  }

  lemma NextId(issued: nat)
    ensures ((issued + 1) % TWO_TO_64 + 1) % TWO_TO_64 == (issued + 1 + 1) % TWO_TO_64
    ensures issued + 1 < TWO_TO_64 ==> (issued + 1) % TWO_TO_64 == issued + 1
  {
  }

  lemma {:induction false} ProcessPacketsIds(c: Conn, ps: seq<Packet>, inflate: Bytes -> Option<Bytes>)
    ensures var d := ProcessPackets(c, ps, inflate); d.reqId == c.reqId && d.issued == c.issued
    ensures var d := ProcessPackets(c, ps, inflate);
            d.halted == c.halted || d.halted == Some(UnexpectedPacket) || d.halted == Some(UndefinedDecode)
  {
    if ps != [] {
      ProcessPacketsIds(c, ps[..|ps| - 1], inflate);
    }
  }

  lemma OnReceivedIds(c: Conn, h: ReceiveHandler, ec: Option<ErrorCode>, ps: seq<Packet>,
                      reply: HandshakeReply, inflate: Bytes -> Option<Bytes>)
    requires IdInv(c)
    ensures IdInv(OnReceived(c, h, ec, ps, reply, inflate))
  {
    if ec.None? && h.OnPackets? {
      ProcessPacketsIds(c, ps, inflate);
      ProcessPacketsKeepsSends(c, ps, inflate);
    } else if ec.None? && |ps| == 1 && ps[0].ptype == Handshake && reply.Good? {
      SendOtherIds(c, Packet(HandshakeAck, []), AckSent(reply.interval, reply.dict));
    } else {
      SameIds(c, OnReceived(c, h, ec, ps, reply, inflate));
    }
  }

  lemma ReceiveDoneIds(c: Conn, r: ReadResult, reply: HandshakeReply, inflate: Bytes -> Option<Bytes>)
    requires IdInv(c) && c.reader.receiving.Some?
    ensures IdInv(ReceiveDone(c, r, reply, inflate))
  {
    var h := c.reader.receiving.value;
    match r
    case ReadFailed(code) => OnReceivedIds(Quiet(c, c.reader.buffered), h, Some(System(code)), [], reply, inflate);
    case ReadBytes(chunk) =>
      var (done, rest) := ReadDone(c.reader.buffered, chunk);
      match done
      case Deliver(ps) => OnReceivedIds(Quiet(c, rest), h, None, ps, reply, inflate);
      case Reject => OnReceivedIds(Quiet(c, rest), h, Some(InvalidPacketType), [], reply, inflate);
      case _ => SameIds(c, ReceiveDone(c, r, reply, inflate));
  }

  lemma RunTaskIds(c: Conn)
    requires IdInv(c) && c.tasks.pending != []
    ensures IdInv(RunTask(c))
  {
    var c1 := c.(tasks := PopTask(c.tasks));
    match c.tasks.pending[0]
    case RunRequest(token, route, data, timeout) => RunRequestIds(c1, token, route, data, timeout);
    case SendNext(h) => SameIds(c, RunTask(c));
  }

  lemma RunWaitIds(c: Conn, w: nat)
    requires IdInv(c) && w in c.timers.waits
    ensures IdInv(RunWait(c, w))
  {
    var c1 := c.(timers := c.timers.(waits := c.timers.waits - {w}));
    if c.timers.waits[w].kind.TickWait? {
      SendOtherIds(c1, Packet(Heartbeat, []), HeartbeatSent);
    } else {
      SameIds(c, RunWait(c, w));
    }
  }

  lemma ConnectDoneIds(c: Conn, ec: Option<int>)
    requires IdInv(c)
    ensures IdInv(ConnectDone(c, ec))
  {
    if ec.Some? {
      SameIds(c, ConnectDone(c, ec));
    } else {
      var c1 := c.(reader := c.reader.(connecting := false));
      SendOtherIds(c1, Packet(Handshake, BytesOf(HANDSHAKE_JSON)), HandshakeSent);
    }
  }

  lemma SendDoneIds(c: Conn, op: nat, ec: Option<int>)
    requires IdInv(c) && op < |c.sender.handed|
    ensures IdInv(SendDone(c, op, ec))
  {
    SameIds(c, SendDone(c, op, ec));
  }

  lemma StepIds(c: Conn, s: Step)
    requires IdInv(c) && Enabled(c, s)
    ensures IdInv(Apply(c, s))
  {
    match s
    case TaskStep => RunTaskIds(c);
    case ConnectStep(ec) => ConnectDoneIds(c, ec);
    case SendStep(op, ec) => SendDoneIds(c, op, ec);
    case ReceiveStep(r, reply, inflate) => ReceiveDoneIds(Noted(c, r), r, reply, inflate);
    case WaitStep(w) => RunWaitIds(c, w);
    case _ => SameIds(c, Apply(c, s));
  }

  // ---------------------------------------------------------------------------------------
  // Requests in flight and answers
  // ---------------------------------------------------------------------------------------

  /** The completed send `op` was that of the request with this id and token. */
  ghost predicate CameFrom(s: Sender, op: nat, id: nat, token: nat) {
    && op < |s.handed| && op !in s.outstanding
    && s.handed[op].handler.RequestSent? && s.handed[op].handler.id == id && s.handed[op].handler.token == token
  }

  ghost predicate FlightsSent(inFlight: map<nat, InFlight>, s: Sender) {
    forall id :: id in inFlight ==> exists op: nat :: CameFrom(s, op, id, inFlight[id].token)
  }

  /** `a` passes on the response `m` to the request that `sent` carried. */
  predicate ReplyTo(a: Answer, sent: Sent, m: Message) {
    && sent.handler.RequestSent? && sent.handler.token == a.token
    && m.mtype == Response && m.id == sent.handler.id
    && m.data == a.data && m.error == (a.status == ServerError)
  }

  ghost predicate Justified(a: Answer, handed: seq<Sent>, responses: seq<Message>) {
    exists op: nat, r: nat :: op < |handed| && r < |responses| && ReplyTo(a, handed[op], responses[r])
  }

  predicate FromServer(a: Answer) { a.status == StatusOk || a.status == ServerError }

  ghost predicate AnswersJustified(answers: seq<Answer>, handed: seq<Sent>, responses: seq<Message>) {
    forall k :: 0 <= k < |answers| && FromServer(answers[k]) ==> Justified(answers[k], handed, responses)
  }

  ghost predicate ReplyInv(c: Conn) {
    && FlightsSent(c.inFlight, c.sender)
    && AnswersJustified(c.answers, c.sender.handed, c.responses)
    && (c.halted == Some(DuplicateRequestId) ==> c.issued >= TWO_TO_64)
  }

  /** Nothing is forgotten, and no send that had completed starts again. */
  ghost predicate Grows(c: Conn, d: Conn) {
    && c.sender.handed <= d.sender.handed
    && (forall op :: op in d.sender.outstanding && op < |c.sender.handed| ==> op in c.sender.outstanding)
    && c.responses <= d.responses
    && (d.halted == Some(DuplicateRequestId) ==> c.halted == Some(DuplicateRequestId) && d.issued >= c.issued)
  }

  lemma JustifiedGrows(a: Answer, handed: seq<Sent>, responses: seq<Message>,
                       handed': seq<Sent>, responses': seq<Message>)
    requires Justified(a, handed, responses) && handed <= handed' && responses <= responses'
    ensures Justified(a, handed', responses')
  {
    var op: nat, r: nat :| op < |handed| && r < |responses| && ReplyTo(a, handed[op], responses[r]);
    assert handed'[op] == handed[op] && responses'[r] == responses[r];
  }

  lemma FlightsGrow(c: Conn, d: Conn)
    requires FlightsSent(c.inFlight, c.sender) && Grows(c, d)
    requires forall id :: id in d.inFlight ==> id in c.inFlight && d.inFlight[id] == c.inFlight[id]
    ensures FlightsSent(d.inFlight, d.sender)
  {
    forall id | id in d.inFlight ensures exists op: nat :: CameFrom(d.sender, op, id, d.inFlight[id].token) {
      var op: nat :| CameFrom(c.sender, op, id, c.inFlight[id].token);
      assert CameFrom(d.sender, op, id, d.inFlight[id].token);
    }
  }

  /** A step that puts nothing in flight and answers at most one request, not with a response. */
  lemma GrowKeepsReplies(c: Conn, d: Conn)
    requires ReplyInv(c) && Grows(c, d)
    requires forall id :: id in d.inFlight ==> id in c.inFlight && d.inFlight[id] == c.inFlight[id]
    requires d.answers == c.answers || exists a :: d.answers == c.answers + [a] && !FromServer(a)
    ensures ReplyInv(d)
  {
    FlightsGrow(c, d);
    forall k | 0 <= k < |d.answers| && FromServer(d.answers[k])
      ensures Justified(d.answers[k], d.sender.handed, d.responses)
    {
      assert d.answers[k] == c.answers[k];
      JustifiedGrows(c.answers[k], c.sender.handed, c.responses, d.sender.handed, d.responses);
    }
  }

  /** A step that leaves requests, responses and sends alone. */
  lemma SameReplies(c: Conn, d: Conn)
    requires ReplyInv(c) && d.answers == c.answers && d.inFlight == c.inFlight && d.responses == c.responses
    requires d.sender.handed == c.sender.handed && d.sender.outstanding == c.sender.outstanding
    requires d.issued == c.issued && (d.halted == Some(DuplicateRequestId) ==> c.halted == d.halted)
    ensures ReplyInv(d)
  {
    FlightsGrow(c, d.(halted := None));
  }

  /** A response answers the request in flight under its id. */
  lemma ProcessMessageReplies(c: Conn, m: Message)
    requires ReplyInv(c)
    ensures ReplyInv(ProcessMessage(c, m))
  {
    var d := ProcessMessage(c, m);
    if m.mtype == Response && m.id in c.inFlight {
      var a := d.answers[|c.answers|];
      var op: nat :| CameFrom(c.sender, op, m.id, c.inFlight[m.id].token);
      assert ReplyTo(a, d.sender.handed[op], d.responses[|c.responses|]);
      FlightsGrow(c, d);
      forall k | 0 <= k < |c.answers| && FromServer(c.answers[k])
        ensures Justified(c.answers[k], d.sender.handed, d.responses)
      {
        JustifiedGrows(c.answers[k], c.sender.handed, c.responses, d.sender.handed, d.responses);
      }
    } else {
      GrowKeepsReplies(c, d);
    }
  }

  lemma ProcessPacketReplies(c: Conn, p: Packet, inflate: Bytes -> Option<Bytes>)
    requires ReplyInv(c)
    ensures ReplyInv(ProcessPacket(c, p, inflate))
  {
    if p.ptype == Data && c.state.Connected? {
      match Messages.Decode(p.body, c.state.codeToRoute, inflate)
      case Ok(m) => ProcessMessageReplies(c, m);
      case _ => GrowKeepsReplies(c, ProcessPacket(c, p, inflate));
    } else {
      GrowKeepsReplies(c, ProcessPacket(c, p, inflate));
    }
  }

  lemma {:induction false} ProcessPacketsReplies(c: Conn, ps: seq<Packet>, inflate: Bytes -> Option<Bytes>)
    requires ReplyInv(c)
    ensures ReplyInv(ProcessPackets(c, ps, inflate))
  {
    if ps != [] {
      var init := ps[..|ps| - 1];
      ProcessPacketsReplies(c, init, inflate);
      ProcessPacketReplies(ProcessPackets(c, init, inflate), ps[|ps| - 1], inflate);
    }
  }

  lemma OnReceivedReplies(c: Conn, buffered: Bytes, h: ReceiveHandler, ec: Option<ErrorCode>, ps: seq<Packet>,
                          reply: HandshakeReply, inflate: Bytes -> Option<Bytes>)
    requires ReplyInv(c)
    ensures ReplyInv(OnReceived(Quiet(c, buffered), h, ec, ps, reply, inflate))
  {
    var c1 := Quiet(c, buffered);
    SameReplies(c, c1);
    if ec.None? && h.OnPackets? {
      OnPacketsReplies(c1, ps, reply, inflate);
    } else {
      NoPacketsReplies(c1, h, ec, ps, reply, inflate);
    }
  }

  lemma OnPacketsReplies(c: Conn, ps: seq<Packet>, reply: HandshakeReply, inflate: Bytes -> Option<Bytes>)
    requires ReplyInv(c)
    ensures ReplyInv(OnReceived(c, OnPackets, None, ps, reply, inflate))
  {
    ProcessPacketsReplies(c, ps, inflate);
    SameReplies(ProcessPackets(c, ps, inflate), OnReceived(c, OnPackets, None, ps, reply, inflate));
  }

  lemma NoPacketsReplies(c: Conn, h: ReceiveHandler, ec: Option<ErrorCode>, ps: seq<Packet>,
                         reply: HandshakeReply, inflate: Bytes -> Option<Bytes>)
    requires ReplyInv(c) && (ec.Some? || h.OnHandshakeResponse?)
    ensures ReplyInv(OnReceived(c, h, ec, ps, reply, inflate))
  {
    if ec.Some? {
      SameReplies(c, OnReceived(c, h, ec, ps, reply, inflate));
    } else {
      SameReplies(c, OnHandshakePackets(c, ps, reply));
    }
  }

  lemma ReceiveDoneReplies(c: Conn, r: ReadResult, reply: HandshakeReply, inflate: Bytes -> Option<Bytes>)
    requires ReplyInv(c) && c.reader.receiving.Some?
    ensures ReplyInv(ReceiveDone(c, r, reply, inflate))
  {
    var h := c.reader.receiving.value;
    match r
    case ReadFailed(code) => OnReceivedReplies(c, c.reader.buffered, h, Some(System(code)), [], reply, inflate);
    case ReadBytes(chunk) =>
      var (done, rest) := ReadDone(c.reader.buffered, chunk);
      match done
      case Deliver(ps) => OnReceivedReplies(c, rest, h, None, ps, reply, inflate);
      case Reject => OnReceivedReplies(c, rest, h, Some(InvalidPacketType), [], reply, inflate);
      case _ => GrowKeepsReplies(c, ReceiveDone(c, r, reply, inflate));
  }

  /** Two sends with the same request id mean that the id counter has wrapped. */
  lemma SameIdMeansWrapped(c: Conn, op: nat, op': nat)
    requires IdInv(c) && c.sender.handed <= c.sender.accepted
    requires op < |c.sender.handed| && op' < |c.sender.handed| && op != op'
    requires c.sender.handed[op].handler.RequestSent? && c.sender.handed[op'].handler.RequestSent?
    requires c.sender.handed[op].handler.id == c.sender.handed[op'].handler.id
    ensures c.issued >= TWO_TO_64
  {
    assert c.sender.accepted[op] == c.sender.handed[op] && c.sender.accepted[op'] == c.sender.handed[op'];
  }

  lemma FlyReplies(c: Conn, op: nat)
    requires ReplyInv(c) && IdInv(c) && c.sender.handed <= c.sender.accepted && c.halted.None?
    requires op in c.sender.outstanding && op < |c.sender.handed| && c.sender.handed[op].handler.RequestSent?
    ensures ReplyInv(SendDone(c, op, None))
  {
    var h := c.sender.handed[op].handler;
    var d := SendDone(c, op, None);
    if h.id in c.inFlight {
      var op': nat :| CameFrom(c.sender, op', h.id, c.inFlight[h.id].token);
      SameIdMeansWrapped(c, op, op');
      FlightsGrow(c, d.(halted := None));
    } else {
      FlightsGrow(c, d.(inFlight := c.inFlight));
      assert CameFrom(d.sender, op, h.id, h.token);
    }
  }

  lemma SendDoneReplies(c: Conn, op: nat, ec: Option<int>)
    requires ReplyInv(c) && IdInv(c) && c.sender.handed <= c.sender.accepted && c.halted.None?
    requires op in c.sender.outstanding && op < |c.sender.handed|
    ensures ReplyInv(SendDone(c, op, ec))
  {
    var h := c.sender.handed[op].handler;
    var d := SendDone(c, op, ec);
    if h.RequestSent? && ec.None? {
      FlyReplies(c, op);
    } else if h.RequestSent? {
      assert d.answers == c.answers + [Answer(h.token, InternalError, [])];
      GrowKeepsReplies(c, d);
    } else {
      OtherSendReplies(c, op, ec);
    }
  }

  lemma OtherSendReplies(c: Conn, op: nat, ec: Option<int>)
    requires ReplyInv(c) && op < |c.sender.handed| && !c.sender.handed[op].handler.RequestSent?
    ensures ReplyInv(SendDone(c, op, ec))
  {
    var d := SendDone(c, op, ec);
    assert d.answers == c.answers && d.inFlight == c.inFlight && d.responses == c.responses;
    GrowKeepsReplies(c, d);
  }

  lemma RunTaskReplies(c: Conn)
    requires ReplyInv(c) && c.halted.None? && c.tasks.pending != []
    requires forall i :: i in c.sender.outstanding ==> i < |c.sender.handed|
    ensures ReplyInv(RunTask(c))
  {
    var d := RunTask(c);
    if c.tasks.pending[0].RunRequest? && c.state.Inited? {
      assert d.answers == c.answers + [Answer(c.tasks.pending[0].token, NotConnectedError, [])];
    }
    GrowKeepsReplies(c, d);
  }

  lemma RunWaitReplies(c: Conn, w: nat)
    requires ReplyInv(c) && w in c.timers.waits
    ensures ReplyInv(RunWait(c, w))
  {
    var d := RunWait(c, w);
    var wait := c.timers.waits[w];
    if !wait.status.Aborted? && wait.kind.RequestTimeoutWait? && wait.kind.id in c.inFlight {
      assert d.answers == c.answers + [Answer(c.inFlight[wait.kind.id].token, Timeout, [])];
    }
    GrowKeepsReplies(c, d);
  }

  lemma StepReplies(c: Conn, s: Step)
    requires ReplyInv(c) && IdInv(c) && c.sender.handed <= c.sender.accepted && Enabled(c, s)
    requires forall i :: i in c.sender.outstanding ==> i < |c.sender.handed|
    ensures ReplyInv(Apply(c, s))
  {
    match s
    case TaskStep => RunTaskReplies(c);
    case SendStep(op, ec) => SendDoneReplies(c, op, ec);
    case ReceiveStep(_, _, _) => ReceiveReplies(c, s);
    case WaitStep(w) => RunWaitReplies(c, w);
    case ConnectStep(ec) => ConnectReplies(c, ec);
    case _ => SameReplies(c, Apply(c, s));
  }

  lemma ConnectReplies(c: Conn, ec: Option<int>)
    requires ReplyInv(c)
    ensures ReplyInv(ConnectDone(c, ec))
  {
    SameReplies(c, ConnectDone(c, ec));
  }

  lemma ReceiveReplies(c: Conn, s: Step)
    requires ReplyInv(c) && Enabled(c, s) && s.ReceiveStep?
    ensures ReplyInv(Apply(c, s))
  {
    SameReplies(c, Noted(c, s.result));
    ReceiveDoneReplies(Noted(c, s.result), s.result, s.reply, s.inflate);
  }
}
