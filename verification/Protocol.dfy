/** The connection as a transition system (connection.cpp, state.cpp and the two halves of
    tcp_packet_stream.cpp): one function per callback, each one atomic step of the worker thread. */
module Protocol {
  import opened Prelude
  import opened Packets
  import opened Framing
  import opened Messages
  import opened Runtime

  const MAX_QUEUED_PACKETS: nat := 50
  const HEARTBEAT_FACTOR: nat := 3
  const READ_BUFFER_SIZE: nat := 2048

  datatype ErrorCode =
    | System(code: int)
    | InvalidPacketType
    | TooManyPackets
    | WrongPacket
    | HeartbeatTimeout
    | InvalidHeartbeatJson
    | InvalidHandshakeCompression
    | InvalidMessage

  datatype Event =
    | ConnectedEvent
    | ConnectionFailedEvent(why: ErrorCode)
    | ConnectionErrorEvent(why: ErrorCode)
    | KickedEvent

  datatype RequestStatus = StatusOk | ServerError | Timeout | Reset | InternalError | NotConnectedError

  /** One call of a request's handler. */
  datatype Answer = Answer(token: nat, status: RequestStatus, data: Bytes)

  /** An entry of _inFlightRequests: the handler, and the pending wait of its timeout timer. */
  datatype InFlight = InFlight(token: nat, wait: nat)

  /** The variant in State. `tick` and `timeout` number the last wait started on each timer. */
  datatype State =
    | Inited
    | Connected(interval: nat, routeToCode: map<string, int>, codeToRoute: map<int, string>, tick: nat, timeout: nat)

  datatype Sent = Sent(packet: Packet, handler: SendHandler)

  /** The sending half of TcpPacketStream and its socket. The histories record every packet offered
      to SendPacket (accepted or refused) and every packet handed to the socket; a send in progress
      is known by its index in `handed`, and its write id is that index in 32 bits. */
  datatype Sender = Sender(
    queue: seq<Packet>,
    writeId: nat,
    writeBuffers: map<nat, Bytes>,
    outstanding: set<nat>,
    failed: set<nat>,
    accepted: seq<Sent>,
    refused: seq<Sent>,
    handed: seq<Sent>)

  /** The receiving half: the pending connect or receive, and the bytes held in the read buffer. The
      histories record all bytes read and all packets passed to a receive handler. */
  datatype Reader = Reader(
    connecting: bool,
    receiving: Option<ReceiveHandler>,
    buffered: Bytes,
    received: Bytes,
    delivered: seq<Packet>)

  /** Since when the connection has been established, the ticks so far, and the times at which a
      heartbeat of the server was processed. Kept after the connection is lost. */
  datatype Session = Session(since: nat, interval: nat, ticks: nat, heartbeats: seq<nat>)

  /** A failed assertion, an exception nothing catches, or an undefined read ends the run. */
  datatype Halt =
    | EmptySendQueue
    | WriteIdReused
    | DuplicateRequestId
    | EmptyBatch
    | ZeroByteRead
    | UnexpectedFrame
    | UnexpectedPacket
    | UnknownRoute
    | UndefinedDecode

  datatype Conn = Conn(
    reqId: nat,
    state: State,
    inFlight: map<nat, InFlight>,
    sender: Sender,
    reader: Reader,
    tasks: Tasks,
    timers: Timers,
    started: bool,
    posted: nat,
    issued: nat,
    answers: seq<Answer>,
    responses: seq<Message>,
    events: seq<Event>,
    session: Session,
    halted: Option<Halt>)

  const INIT: Conn :=
    Conn(1, Inited, map[], Sender([], 0, map[], {}, {}, [], [], []), Reader(false, None, [], [], []),
         Tasks([], 0), Timers(map[], 0, 0), false, 0, 0, [], [], [], Session(0, 0, 0, []), None)

  // ---------------------------------------------------------------------------------------
  // TcpPacketStream
  // ---------------------------------------------------------------------------------------

  function SendPacket(c: Conn, p: Packet, h: SendHandler): Conn {
    var s := c.sender;
    if |s.queue| < MAX_QUEUED_PACKETS then
      c.(sender := s.(queue := s.queue + [p], accepted := s.accepted + [Sent(p, h)]),
         tasks := Post(c.tasks, SendNext(h)))
    else
      c.(sender := s.(refused := s.refused + [Sent(p, h)]))
  }

  /** The send started by SendNextPacket, before the write set is updated. */
  function Sending(s: Sender, h: SendHandler): Sender
    requires s.queue != []
  {
    s.(queue := s.queue[1..],
       writeId := (s.writeId + 1) % TWO_TO_32,
       handed := s.handed + [Sent(s.queue[0], h)],
       outstanding := s.outstanding + {|s.handed|})
  }

  /** Takes the front packet, starts sending it and keeps its bytes under its write id. The
      assertion looks up the id after the increment. */
  function SendNextPacket(c: Conn, h: SendHandler): Conn {
    var s := c.sender;
    if s.queue == [] then c.(halted := Some(EmptySendQueue))
    else
      var sending := Sending(s, h);
      if sending.writeId in s.writeBuffers then c.(sender := sending, halted := Some(WriteIdReused))
      else c.(sender := sending.(writeBuffers := s.writeBuffers[s.writeId := Serialize(s.queue[0])]))
  }

  function ReceivePackets(c: Conn, h: ReceiveHandler): Conn {
    c.(reader := c.reader.(receiving := Some(h)))
  }

  // ---------------------------------------------------------------------------------------
  // State
  // ---------------------------------------------------------------------------------------

  /** Leaving Connected destroys both heartbeat timers. */
  function SetInited(c: Conn): Conn {
    match c.state
    case Inited => c
    case Connected(_, _, _, tick, timeout) =>
      c.(state := Inited, timers := Cancel(Cancel(c.timers, tick), timeout))
  }

  function SetConnected(c: Conn, interval: nat, dict: RouteDict): Conn {
    var t := SetInited(c).timers;
    var t1 := AsyncWait(t, TickWait, t.now + interval);
    var t2 := AsyncWait(t1, HeartbeatTimeoutWait, t.now + interval * HEARTBEAT_FACTOR);
    c.(state := Connected(interval, dict.routeToCode, Inverse(dict.order, dict.routeToCode), t.next, t1.next),
       timers := t2,
       session := Session(t.now, interval, 0, []))
  }

  /** Re-times the timeout without waiting on it again. */
  function ExtendHeartbeatTimeout(c: Conn): Conn {
    if c.state.Inited? then c
    else
      c.(timers := Cancel(c.timers, c.state.timeout),
         session := c.session.(heartbeats := c.session.heartbeats + [c.timers.now]))
  }

  function HeartbeatTick(c: Conn): Conn {
    if c.state.Inited? then c
    else
      var c1 := SendPacket(c, Packet(Heartbeat, []), HeartbeatSent);
      var t := Cancel(c.timers, c.state.tick);
      c1.(timers := AsyncWait(t, TickWait, t.now + c.state.interval),
          state := c.state.(tick := t.next),
          session := c.session.(ticks := c.session.ticks + 1))
  }

  // ---------------------------------------------------------------------------------------
  // Connection
  // ---------------------------------------------------------------------------------------

  function HandshakeFailed(c: Conn, why: ErrorCode): Conn {
    var c1 := SetInited(c);
    c1.(events := c1.events + [ConnectionFailedEvent(why)])
  }

  /** Disconnecting the socket leaves its pending operations to complete in their own time. */
  function ConnectionError(c: Conn, why: ErrorCode): Conn {
    if c.state.Inited? then c
    else
      var c1 := SetInited(c);
      c1.(events := c1.events + [ConnectionErrorEvent(why)])
  }

  function KickedFromServer(c: Conn): Conn {
    if c.state.Inited? then c
    else
      var c1 := SetInited(c);
      c1.(events := c1.events + [KickedEvent])
  }

  function Respond(c: Conn, token: nat, status: RequestStatus, data: Bytes): Conn {
    c.(answers := c.answers + [Answer(token, status, data)])
  }

  /** Calls the handler of an in-flight request and erases the entry, destroying its timer. */
  function FinishRequest(c: Conn, id: nat, status: RequestStatus, data: Bytes): Conn
    requires id in c.inFlight
  {
    var r := c.inFlight[id];
    Respond(c, r.token, status, data).(inFlight := c.inFlight - {id}, timers := Cancel(c.timers, r.wait))
  }

  /** The task posted by PostRequest. */
  function RunRequestTask(c: Conn, token: nat, route: string, data: Bytes, timeout: nat): Conn {
    if c.state.Inited? then Respond(c, token, NotConnectedError, [])
    else
      var c1 := c.(reqId := (c.reqId + 1) % TWO_TO_64, issued := c.issued + 1);
      match Messages.Encode(NewRequest(c.reqId, route, data), c.state.routeToCode)
      case None => c1.(halted := Some(UnknownRoute))
      case Some(body) => SendPacket(c1, Packet(Data, body), RequestSent(c.reqId, token, timeout))
  }

  const HANDSHAKE_JSON: string :=
    "{\"sys\": {"
    + "\"platform\": \"mac\", "
    + "\"libVersion\": "
    + "\"0.3.5-release\", "
    + "\"clientBuildNumber\": "
    + "\"20\", "
    + "\"clientVersion\": \"2.1\""
    + "}, \"user\": {}}"

  function BytesOf(text: string): Bytes {
    seq(|text|, i requires 0 <= i < |text| => text[i] as int % 256)
  }

  function SendHandshake(c: Conn): Conn {
    SendPacket(c, Packet(Handshake, BytesOf(HANDSHAKE_JSON)), HandshakeSent)
  }

  function StartReceivingPackets(c: Conn, interval: nat, dict: RouteDict): Conn {
    var c1 := SetConnected(c, interval, dict);
    ReceivePackets(c1.(events := c1.events + [ConnectedEvent]), OnPackets)
  }

  /** The callback of a completed send; `ec` is None on success. */
  function OnSent(c: Conn, h: SendHandler, ec: Option<int>): Conn {
    match h
    case HandshakeSent =>
      if ec.Some? then HandshakeFailed(c, System(ec.value)) else ReceivePackets(c, OnHandshakeResponse)
    case AckSent(interval, dict) =>
      if ec.Some? then c else StartReceivingPackets(c, interval, dict)
    case HeartbeatSent =>
      if ec.Some? then ConnectionError(c, System(ec.value)) else c
    case RequestSent(id, token, timeout) =>
      if ec.Some? then Respond(c, token, InternalError, [])
      else if id in c.inFlight then c.(halted := Some(DuplicateRequestId))
      else c.(inFlight := c.inFlight[id := InFlight(token, c.timers.next)],
              timers := AsyncWait(c.timers, RequestTimeoutWait(id), c.timers.now + timeout))
  }

  /** What decompressing and parsing the handshake response gives; both are outside this model. */
  datatype HandshakeReply = BadCompression | BadJson | Good(interval: nat, dict: RouteDict)

  function OnHandshakePackets(c: Conn, packets: seq<Packet>, reply: HandshakeReply): Conn {
    if packets == [] then c.(halted := Some(EmptyBatch))
    else if |packets| > 1 then HandshakeFailed(c, TooManyPackets)
    else if packets[0].ptype != Handshake then HandshakeFailed(c, WrongPacket)
    else
      match reply
      case BadCompression => ConnectionError(c, InvalidHandshakeCompression)
      case BadJson => ConnectionError(c, InvalidHeartbeatJson)
      case Good(interval, dict) => SendPacket(c, Packet(HandshakeAck, []), AckSent(interval, dict))
  }

  function ProcessMessage(c: Conn, m: Message): Conn {
    if m.mtype != Response then c
    else
      var c1 := c.(responses := c.responses + [m]);
      if m.id !in c.inFlight then c1
      else FinishRequest(c1, m.id, if m.error then ServerError else StatusOk, m.data)
  }

  function ProcessRequestTimeout(c: Conn, id: nat): Conn {
    if id in c.inFlight then FinishRequest(c, id, Timeout, []) else c
  }

  function ProcessPacket(c: Conn, p: Packet, inflate: Bytes -> Option<Bytes>): Conn {
    match p.ptype
    case Heartbeat => ExtendHeartbeatTimeout(c)
    case Kick => KickedFromServer(c)
    case Data =>
      if c.state.Inited? then ConnectionError(c, WrongPacket)
      else (
        match Messages.Decode(p.body, c.state.codeToRoute, inflate)
        case Malformed => ConnectionError(c, InvalidMessage)
        case Undefined => c.(halted := Some(UndefinedDecode))
        case Ok(m) => ProcessMessage(c, m)
      )
    case _ => c.(halted := Some(UnexpectedPacket))
  }

  function ProcessPackets(c: Conn, ps: seq<Packet>, inflate: Bytes -> Option<Bytes>): Conn {
    if ps == [] then c
    else
      var c1 := ProcessPackets(c, ps[..|ps| - 1], inflate);
      if c1.halted.Some? then c1 else ProcessPacket(c1, ps[|ps| - 1], inflate)
  }

  /** The callback of a completed ReceivePackets. */
  function OnReceived(c: Conn, h: ReceiveHandler, ec: Option<ErrorCode>, ps: seq<Packet>,
                      reply: HandshakeReply, inflate: Bytes -> Option<Bytes>): Conn {
    match h
    case OnHandshakeResponse =>
      if ec.Some? then HandshakeFailed(c, ec.value) else OnHandshakePackets(c, ps, reply)
    case OnPackets =>
      if ec.Some? then ConnectionError(c, ec.value)
      else
        var c1 := ProcessPackets(c, ps, inflate);
        if c1.halted.Some? then c1 else ReceivePackets(c1, OnPackets)
  }

  // ---------------------------------------------------------------------------------------
  // Completions
  // ---------------------------------------------------------------------------------------

  function RunTask(c: Conn): Conn
    requires c.tasks.pending != []
  {
    var c1 := c.(tasks := PopTask(c.tasks));
    match c.tasks.pending[0]
    case RunRequest(token, route, data, timeout) => RunRequestTask(c1, token, route, data, timeout)
    case SendNext(h) => SendNextPacket(c1, h)
  }

  function ConnectDone(c: Conn, ec: Option<int>): Conn {
    var c1 := c.(reader := c.reader.(connecting := false));
    if ec.Some? then HandshakeFailed(c1, System(ec.value)) else SendHandshake(c1)
  }

  /** The send `op` is no longer in progress. A failed one keeps its bytes in the write set. */
  function Ended(s: Sender, op: nat, ok: bool): Sender {
    s.(outstanding := s.outstanding - {op}, failed := if ok then s.failed else s.failed + {op})
  }

  function SendDone(c: Conn, op: nat, ec: Option<int>): Conn
    requires op < |c.sender.handed|
  {
    var c1 := OnSent(c.(sender := Ended(c.sender, op, ec.None?)), c.sender.handed[op].handler, ec);
    if ec.Some? || c1.halted.Some? then c1
    else c1.(sender := c1.sender.(writeBuffers := c1.sender.writeBuffers - {op % TWO_TO_32}))
  }

  datatype ReadResult = ReadFailed(code: int) | ReadBytes(chunk: Bytes)

  /** The histories after a read. */
  function Recorded(s: Reader, r: ReadResult): Reader {
    match r
    case ReadFailed(_) => s
    case ReadBytes(chunk) =>
      var done := ReadDone(s.buffered, chunk).0;
      s.(received := s.received + chunk, delivered := s.delivered + if done.Deliver? then done.packets else [])
  }

  function Noted(c: Conn, r: ReadResult): Conn {
    c.(reader := Recorded(c.reader, r))
  }

  function ReceiveDone(c: Conn, r: ReadResult, reply: HandshakeReply, inflate: Bytes -> Option<Bytes>): Conn
    requires c.reader.receiving.Some?
  {
    var h := c.reader.receiving.value;
    match r
    case ReadFailed(code) => OnReceived(Quiet(c, c.reader.buffered), h, Some(System(code)), [], reply, inflate)
    case ReadBytes(chunk) =>
      var (done, rest) := ReadDone(c.reader.buffered, chunk);
      match done
      case ReadOn => c.(reader := c.reader.(buffered := rest))
      case Deliver(ps) => OnReceived(Quiet(c, rest), h, None, ps, reply, inflate)
      case Reject => OnReceived(Quiet(c, rest), h, Some(InvalidPacketType), [], reply, inflate)
      case EmptyRead => Quiet(c, rest).(halted := Some(ZeroByteRead))
      case UnwantedPacket => Quiet(c, rest).(halted := Some(UnexpectedFrame))
  }

  /** No receive pending, and these bytes in the buffer. */
  function Quiet(c: Conn, buffered: Bytes): Conn {
    c.(reader := c.reader.(receiving := None, buffered := buffered))
  }

  function RunWait(c: Conn, w: nat): Conn
    requires w in c.timers.waits
  {
    var c1 := c.(timers := c.timers.(waits := c.timers.waits - {w}));
    var wait := c.timers.waits[w];
    if wait.status.Aborted? then c1
    else
      match wait.kind
      case TickWait => HeartbeatTick(c1)
      case HeartbeatTimeoutWait => ConnectionError(c1, HeartbeatTimeout)
      case RequestTimeoutWait(id) => ProcessRequestTimeout(c1, id)
  }

  // ---------------------------------------------------------------------------------------
  // Runs
  // ---------------------------------------------------------------------------------------

  /** Everything that can happen next: a call by the client, the next posted task, a completion of
      a pending operation with any outcome, the clock, a timer, or a finished wait's callback. */
  datatype Step =
    | Start
    | PostRequest(route: string, data: Bytes, timeout: nat)
    | TaskStep
    | ConnectStep(ec: Option<int>)
    | SendStep(op: nat, ec: Option<int>)
    | ReceiveStep(result: ReadResult, reply: HandshakeReply, inflate: Bytes -> Option<Bytes>)
    | Elapse(time: nat)
    | Expire(wait: nat)
    | WaitStep(wait: nat)

  predicate Enabled(c: Conn, s: Step) {
    && c.halted.None?
    && match s
       case Start => !c.started
       case PostRequest(_, _, _) => true
       case TaskStep => c.tasks.pending != []
       case ConnectStep(_) => c.reader.connecting
       case SendStep(op, _) => op in c.sender.outstanding && op < |c.sender.handed|
       case ReceiveStep(r, _, _) => c.reader.receiving.Some? && ReadFits(c.reader, r)
       case Elapse(_) => true
       case Expire(w) =>
         w in c.timers.waits && c.timers.waits[w].status.Waiting? && c.timers.waits[w].status.deadline <= c.timers.now
       case WaitStep(w) => w in c.timers.waits && !c.timers.waits[w].status.Waiting?
  }

  /** A read returns at most the free space, and no bytes only when there is none. */
  predicate ReadFits(s: Reader, r: ReadResult) {
    r.ReadBytes? ==>
      && |s.buffered| + |r.chunk| <= READ_BUFFER_SIZE
      && (r.chunk == [] ==> |s.buffered| == READ_BUFFER_SIZE)
  }

  function ExpireWait(t: Timers, w: nat): Timers
    requires w in t.waits
  {
    t.(waits := t.waits[w := t.waits[w].(status := Expired(t.now))])
  }

  function Apply(c: Conn, s: Step): Conn
    requires Enabled(c, s)
  {
    match s
    case Start => c.(started := true, reader := c.reader.(connecting := true))
    case PostRequest(route, data, timeout) =>
      c.(posted := c.posted + 1, tasks := Post(c.tasks, RunRequest(c.posted, route, data, timeout)))
    case TaskStep => RunTask(c)
    case ConnectStep(ec) => ConnectDone(c, ec)
    case SendStep(op, ec) => SendDone(c, op, ec)
    case ReceiveStep(r, reply, inflate) => ReceiveDone(Noted(c, r), r, reply, inflate)
    case Elapse(time) => c.(timers := c.timers.(now := c.timers.now + time))
    case Expire(w) => c.(timers := ExpireWait(c.timers, w))
    case WaitStep(w) => RunWait(c, w)
  }

  /** The state after a run, or None if some step of it was not possible. */
  function Exec(steps: seq<Step>): Option<Conn> {
    if steps == [] then Some(INIT)
    else
      match Exec(steps[..|steps| - 1])
      case None => None
      case Some(c) =>
        var last := steps[|steps| - 1];
        if Enabled(c, last) then Some(Apply(c, last)) else None
  }
}
