/** The connection as the program runs it: one object whose callbacks update its fields, its packet
    stream and the io_context. Every callback is proved to do what its function in Protocol says. */
module Connections {
  import opened Prelude
  import opened Packets
  import opened Framing
  import opened Messages
  import opened Runtime
  import P = Protocol
  import opened PacketStreams
  import opened Runs

  /** NewData(message, routeDict): the body of the Data packet, or the exception. */
  method NewDataBody(m: Message, routeToCode: map<string, int>) returns (body: Option<Bytes>)
    ensures body == Messages.Encode(m, routeToCode)
  {
    body := Messages.SerializeInto(m, [], routeToCode);
    if body.Some? {
      assert body.value == Messages.Encode(m, routeToCode).value;
    }
  }

  class Connection {
    const io: IoContext
    const stream: TcpPacketStream

    var reqId: nat
    var state: P.State
    var inFlight: map<nat, P.InFlight>

    // What the client can observe: the handlers called and the events broadcast.
    var started: bool
    var posted: nat
    var answers: seq<P.Answer>
    var events: seq<P.Event>

    // Histories that only statements refer to.
    ghost var issued: nat
    ghost var responses: seq<Message>
    ghost var session: P.Session

    // Set by a failed assertion, an uncaught exception or an undefined read.
    var halted: Option<P.Halt>

    ghost predicate Valid()
      reads this, stream
    {
      stream.io == io && stream.Valid() && stream.readBuffer.Length == P.READ_BUFFER_SIZE
    }

    ghost function Model(): P.Conn
      requires Valid()
      reads this, stream, stream.readBuffer, io
    {
      P.Conn(reqId, state, inFlight, stream.SenderView(), stream.ReaderView(), io.TaskView(), io.TimerView(),
             started, posted, issued, answers, responses, events, session, halted)
    }

    constructor ()
      ensures Valid() && Model() == P.INIT && fresh(io) && fresh(stream) && fresh(stream.readBuffer)
    {
      var context := new IoContext();
      io := context;
      stream := new TcpPacketStream(context, P.READ_BUFFER_SIZE);
      reqId, state, inFlight := 1, P.Inited, map[];
      started, posted, issued := false, 0, 0;
      answers, responses, events := [], [], [];
      session, halted := P.Session(0, 0, 0, []), None;
    }

    /** Hands a packet to the stream. */
    method Send(p: Packet, h: SendHandler)
      requires Valid()
      modifies stream, io
      ensures Valid() && Model() == P.SendPacket(old(Model()), p, h)
    {
      stream.Send(p, h);
    }

    // ------------------------------------------------------------------------------------
    // State
    // ------------------------------------------------------------------------------------

    method SetInited()
      requires Valid()
      modifies this`state, io
      ensures Valid() && Model() == P.SetInited(old(Model()))
    {
      if state.Connected? {
        var tick, timeout := state.tick, state.timeout;
        state := P.Inited;
        io.CancelWait(tick);
        io.CancelWait(timeout);
      }
    }

    method SetConnected(interval: nat, dict: RouteDict)
      requires Valid()
      modifies this`state, this`session, io
      ensures Valid() && Model() == P.SetConnected(old(Model()), interval, dict)
    {
      SetInited();
      var codeToRoute := BuildCodeToRoute(dict.order, dict.routeToCode);
      var tick := io.StartWait(TickWait, io.now + interval);
      var timeout := io.StartWait(HeartbeatTimeoutWait, io.now + interval * P.HEARTBEAT_FACTOR);
      state := P.Connected(interval, dict.routeToCode, codeToRoute, tick, timeout);
      session := P.Session(io.now, interval, 0, []);
    }

    method ExtendHeartbeatTimeout()
      requires Valid()
      modifies this`session, io
      ensures Valid() && Model() == P.ExtendHeartbeatTimeout(old(Model()))
    {
      if state.Connected? {
        io.CancelWait(state.timeout);
        session := session.(heartbeats := session.heartbeats + [io.now]);
      }
    }

    method HeartbeatTick()
      requires Valid()
      modifies this`state, this`session, stream, io
      ensures Valid() && Model() == P.HeartbeatTick(old(Model()))
    {
      if state.Connected? {
        Send(Packet(Heartbeat, []), HeartbeatSent);
        io.CancelWait(state.tick);
        var tick := io.StartWait(TickWait, io.now + state.interval);
        state := state.(tick := tick);
        session := session.(ticks := session.ticks + 1);
      }
    }

    // ------------------------------------------------------------------------------------
    // Outcomes
    // ------------------------------------------------------------------------------------

    method HandshakeFailed(why: P.ErrorCode)
      requires Valid()
      modifies this`state, this`events, io
      ensures Valid() && Model() == P.HandshakeFailed(old(Model()), why)
    {
      SetInited();
      events := events + [P.ConnectionFailedEvent(why)];
    }

    method ConnectionError(why: P.ErrorCode)
      requires Valid()
      modifies this`state, this`events, io
      ensures Valid() && Model() == P.ConnectionError(old(Model()), why)
    {
      if state.Connected? {
        SetInited();
        events := events + [P.ConnectionErrorEvent(why)];
      }
    }

    method KickedFromServer()
      requires Valid()
      modifies this`state, this`events, io
      ensures Valid() && Model() == P.KickedFromServer(old(Model()))
    {
      if state.Connected? {
        SetInited();
        events := events + [P.KickedEvent];
      }
    }

    method Respond(token: nat, status: P.RequestStatus, data: Bytes)
      requires Valid()
      modifies this`answers
      ensures Valid() && Model() == P.Respond(old(Model()), token, status, data)
    {
      answers := answers + [P.Answer(token, status, data)];
    }

    method FinishRequest(id: nat, status: P.RequestStatus, data: Bytes)
      requires Valid() && id in inFlight
      modifies this`answers, this`inFlight, io
      ensures Valid() && Model() == P.FinishRequest(old(Model()), id, status, data)
    {
      var request := inFlight[id];
      Respond(request.token, status, data);
      inFlight := inFlight - {id};
      io.CancelWait(request.wait);
    }

    // ------------------------------------------------------------------------------------
    // Calls by the client
    // ------------------------------------------------------------------------------------

    method PostRequest(route: string, data: Bytes, timeout: nat)
      requires Valid() && halted.None?
      modifies this`posted, io
      ensures Valid() && Model() == P.Apply(old(Model()), P.PostRequest(route, data, timeout))
    {
      io.PostTask(RunRequest(posted, route, data, timeout));
      posted := posted + 1;
    }

    method Start()
      requires Valid() && halted.None? && !started
      modifies this`started, stream`connecting
      ensures Valid() && Model() == P.Apply(old(Model()), P.Start)
    {
      started := true;
      stream.connecting := true;
    }

    // ------------------------------------------------------------------------------------
    // Handshake
    // ------------------------------------------------------------------------------------

    method StartReceivingPackets(interval: nat, dict: RouteDict)
      requires Valid()
      modifies this`state, this`session, this`events, stream`receiving, io
      ensures Valid() && Model() == P.StartReceivingPackets(old(Model()), interval, dict)
    {
      SetConnected(interval, dict);
      events := events + [P.ConnectedEvent];
      stream.receiving := Some(OnPackets);
    }

    method OnConnected(ec: Option<int>)
      requires Valid()
      modifies this`state, this`events, stream, io
      ensures Valid() && Model() == P.ConnectDone(old(Model()), ec)
    {
      stream.connecting := false;
      if ec.Some? {
        HandshakeFailed(P.System(ec.value));
      } else {
        Send(Packet(Handshake, P.BytesOf(P.HANDSHAKE_JSON)), HandshakeSent);
      }
    }

    method OnHandshakePackets(packets: seq<Packet>, reply: P.HandshakeReply)
      requires Valid()
      modifies this`state, this`events, this`halted, stream, io
      ensures Valid() && Model() == P.OnHandshakePackets(old(Model()), packets, reply)
    {
      if |packets| == 0 {
        halted := Some(P.EmptyBatch);
      } else if |packets| > 1 {
        HandshakeFailed(P.TooManyPackets);
      } else if packets[0].ptype != Handshake {
        HandshakeFailed(P.WrongPacket);
      } else {
        match reply {
          case BadCompression => ConnectionError(P.InvalidHandshakeCompression);
          case BadJson => ConnectionError(P.InvalidHeartbeatJson);
          case Good(interval, dict) => Send(Packet(HandshakeAck, []), AckSent(interval, dict));
        }
      }
    }

    // ------------------------------------------------------------------------------------
    // Requests
    // ------------------------------------------------------------------------------------

    /** The task posted by PostRequest. */
    method RunRequestTask(token: nat, route: string, data: Bytes, timeout: nat)
      requires Valid()
      modifies this`reqId, this`issued, this`answers, this`halted, stream, io
      ensures Valid() && Model() == P.RunRequestTask(old(Model()), token, route, data, timeout)
    {
      if !state.Connected? {
        Respond(token, P.NotConnectedError, []);
        return;
      }
      var id := reqId;
      var msg := NewRequest(id, route, data);
      reqId := (reqId + 1) % TWO_TO_64;
      issued := issued + 1;
      var body := NewDataBody(msg, state.routeToCode);
      if body.None? {
        halted := Some(P.UnknownRoute);
        return;
      }
      Send(Packet(Data, body.value), RequestSent(id, token, timeout));
    }

    method RunTask()
      requires Valid() && io.pending != []
      modifies this`reqId, this`issued, this`answers, this`halted, stream, io
      ensures Valid() && Model() == P.RunTask(old(Model()))
    {
      var task := io.PopFront();
      match task {
        case RunRequest(token, route, data, timeout) => RunRequestTask(token, route, data, timeout);
        case SendNext(h) =>
          var failure := stream.SendFront(h);
          if failure.Some? {
            halted := failure;
          }
      }
    }

    method OnSent(h: SendHandler, ec: Option<int>)
      requires Valid()
      modifies this, stream`receiving, io
      ensures Valid() && Model() == P.OnSent(old(Model()), h, ec)
    {
      match h {
        case HandshakeSent =>
          if ec.Some? {
            HandshakeFailed(P.System(ec.value));
          } else {
            stream.receiving := Some(OnHandshakeResponse);
          }
        case AckSent(interval, dict) =>
          if ec.None? {
            StartReceivingPackets(interval, dict);
          }
        case HeartbeatSent =>
          if ec.Some? {
            ConnectionError(P.System(ec.value));
          }
        case RequestSent(id, token, timeout) => OnRequestSent(id, token, timeout, ec);
      }
    }

    method OnRequestSent(id: nat, token: nat, timeout: nat, ec: Option<int>)
      requires Valid()
      modifies this`answers, this`halted, this`inFlight, io
      ensures Valid() && Model() == P.OnSent(old(Model()), RequestSent(id, token, timeout), ec)
    {
      if ec.Some? {
        Respond(token, P.InternalError, []);
      } else if id in inFlight {
        halted := Some(P.DuplicateRequestId);
      } else {
        var w := io.StartWait(RequestTimeoutWait(id), io.now + timeout);
        inFlight := inFlight[id := P.InFlight(token, w)];
      }
    }

    method OnSendDone(op: nat, ec: Option<int>)
      requires Valid() && op < |stream.handed|
      modifies this, stream, io
      ensures Valid() && Model() == P.SendDone(old(Model()), op, ec)
    {
      var h := stream.handed[op].handler;
      stream.outstanding := stream.outstanding - {op};
      if ec.Some? {
        stream.failed := stream.failed + {op};
        OnSent(h, ec);
        return;
      }
      OnSent(h, ec);
      if halted.None? {
        stream.writeBuffers := stream.writeBuffers - {op % TWO_TO_32};
      }
    }

    // ------------------------------------------------------------------------------------
    // Packets of the server
    // ------------------------------------------------------------------------------------

    method ProcessMessage(m: Message)
      requires Valid()
      modifies this`responses, this`answers, this`inFlight, io
      ensures Valid() && Model() == P.ProcessMessage(old(Model()), m)
    {
      match m.mtype {
        case Response =>
          responses := responses + [m];
          if m.id in inFlight {
            FinishRequest(m.id, if m.error then P.ServerError else P.StatusOk, m.data);
          }
        case Push =>
        case Request =>
        case Notify =>
      }
    }

    method ProcessRequestTimeout(id: nat)
      requires Valid()
      modifies this`answers, this`inFlight, io
      ensures Valid() && Model() == P.ProcessRequestTimeout(old(Model()), id)
    {
      if id in inFlight {
        FinishRequest(id, P.Timeout, []);
      }
    }

    method ProcessData(body: Bytes, inflate: Bytes -> Option<Bytes>)
      requires Valid()
      modifies this, io
      ensures Valid() && Model() == P.ProcessPacket(old(Model()), Packet(Data, body), inflate)
    {
      if !state.Connected? {
        ConnectionError(P.WrongPacket);
        return;
      }
      var maybeMsg := Deserialize(body, state.codeToRoute, inflate);
      match maybeMsg {
        case Malformed => ConnectionError(P.InvalidMessage);
        case Undefined => halted := Some(P.UndefinedDecode);
        case Ok(m) => ProcessMessage(m);
      }
    }

    method ProcessPacket(p: Packet, inflate: Bytes -> Option<Bytes>)
      requires Valid()
      modifies this, io
      ensures Valid() && Model() == P.ProcessPacket(old(Model()), p, inflate)
    {
      match p.ptype {
        case Heartbeat => ExtendHeartbeatTimeout();
        case Data => ProcessData(p.body, inflate);
        case Kick => KickedFromServer();
        case _ => halted := Some(P.UnexpectedPacket);
      }
    }

    method ProcessPackets(packets: seq<Packet>, inflate: Bytes -> Option<Bytes>)
      requires Valid() && halted.None?
      modifies this, io
      ensures Valid() && Model() == P.ProcessPackets(old(Model()), packets, inflate)
    {
      for i := 0 to |packets|
        invariant Valid() && Model() == P.ProcessPackets(old(Model()), packets[..i], inflate)
      {
        assert packets[..i + 1][..i] == packets[..i];
        if halted.None? {
          ProcessPacket(packets[i], inflate);
        }
      }
      assert packets[..|packets|] == packets;
    }

    method OnReceived(h: ReceiveHandler, ec: Option<P.ErrorCode>, packets: seq<Packet>,
                      reply: P.HandshakeReply, inflate: Bytes -> Option<Bytes>)
      requires Valid() && halted.None?
      modifies this, stream, io
      ensures Valid() && Model() == P.OnReceived(old(Model()), h, ec, packets, reply, inflate)
    {
      match h {
        case OnHandshakeResponse =>
          if ec.Some? {
            HandshakeFailed(ec.value);
          } else {
            OnHandshakePackets(packets, reply);
          }
        case OnPackets =>
          if ec.Some? {
            ConnectionError(ec.value);
          } else {
            ProcessPackets(packets, inflate);
            if halted.None? {
              stream.receiving := Some(OnPackets);
            }
          }
      }
    }

    /** The receive is over and its callback runs. */
    method Complete(ec: Option<P.ErrorCode>, packets: seq<Packet>, reply: P.HandshakeReply,
                    inflate: Bytes -> Option<Bytes>)
      requires Valid() && halted.None? && stream.receiving.Some?
      modifies this, stream, io
      ensures Valid() && var c := old(Model());
              var h := c.reader.receiving.value;
              Model() == P.OnReceived(P.Quiet(c, c.reader.buffered), h, ec, packets, reply, inflate)
    {
      var h := stream.receiving.value;
      stream.receiving := None;
      OnReceived(h, ec, packets, reply, inflate);
    }

    /** The socket wrote `chunk` and the buffer was parsed; the callback is still to run. */
    method Read(chunk: Bytes) returns (done: Completion)
      requires Valid() && stream.readBufferHead + |chunk| <= P.READ_BUFFER_SIZE
      modifies stream, stream.readBuffer
      ensures Valid() && var c := old(Model());
              && done == ReadDone(c.reader.buffered, chunk).0
              && Model() == c.(reader := AfterParse(c.reader, chunk))
    {
      done := stream.CompleteRead(chunk);
    }

    /** What follows a read: another one, the callback, or a failed assertion. */
    method AfterRead(done: Completion, reply: P.HandshakeReply, inflate: Bytes -> Option<Bytes>)
      requires Valid() && halted.None? && stream.receiving.Some?
      modifies this, stream, io
      ensures Valid() && Model() == Afterwards(old(Model()), done, reply, inflate)
    {
      match done {
        case ReadOn =>
        case Deliver(packets) => Complete(None, packets, reply, inflate);
        case Reject => Complete(Some(P.InvalidPacketType), [], reply, inflate);
        case EmptyRead =>
          stream.receiving := None;
          halted := Some(P.ZeroByteRead);
        case UnwantedPacket =>
          stream.receiving := None;
          halted := Some(P.UnexpectedFrame);
      }
    }

    /** The completion of a receive. */
    method OnReceiveDone(r: P.ReadResult, reply: P.HandshakeReply, inflate: Bytes -> Option<Bytes>)
      requires Valid() && halted.None? && stream.receiving.Some?
      requires r.ReadBytes? ==> stream.readBufferHead + |r.chunk| <= P.READ_BUFFER_SIZE
      modifies this, stream, stream.readBuffer, io
      ensures Valid() && Model() == P.ReceiveDone(P.Noted(old(Model()), r), r, reply, inflate)
    {
      match r {
        case ReadFailed(code) => Complete(Some(P.System(code)), [], reply, inflate);
        case ReadBytes(chunk) =>
          var done := Read(chunk);
          AfterRead(done, reply, inflate);
          ReadThenRest(old(Model()), chunk, reply, inflate);
      }
    }

    /** A finished wait runs its callback. */
    method OnWaitDone(w: nat)
      requires Valid() && w in io.waits
      modifies this, stream, io
      ensures Valid() && Model() == P.RunWait(old(Model()), w)
    {
      var wait := io.FinishWait(w);
      if wait.status.Aborted? {
        return;
      }
      match wait.kind {
        case TickWait => HeartbeatTick();
        case HeartbeatTimeoutWait => ConnectionError(P.HeartbeatTimeout);
        case RequestTimeoutWait(id) => ProcessRequestTimeout(id);
      }
    }

    // ------------------------------------------------------------------------------------
    // Runs
    // ------------------------------------------------------------------------------------

    /** One step of the worker thread, the clock or the client, on the objects. */
    method Perform(s: P.Step)
      requires Valid() && P.Enabled(Model(), s)
      modifies this, stream, stream.readBuffer, io
      ensures Valid() && Model() == P.Apply(old(Model()), s)
    {
      match s {
        case Start => Start();
        case PostRequest(route, data, timeout) => PostRequest(route, data, timeout);
        case TaskStep => RunTask();
        case ConnectStep(ec) => OnConnected(ec);
        case SendStep(op, ec) => OnSendDone(op, ec);
        case ReceiveStep(r, reply, inflate) => OnReceiveDone(r, reply, inflate);
        case Elapse(time) => io.now := io.now + time;
        case Expire(w) => io.waits := io.waits[w := io.waits[w].(status := Expired(io.now))];
        case WaitStep(w) => OnWaitDone(w);
      }
    }

    /** A whole run on the objects ends in the state that the transition system gives it. */
    method Run(steps: seq<P.Step>)
      requires Valid() && Model() == P.INIT && P.Exec(steps).Some?
      modifies this, stream, stream.readBuffer, io
      ensures Valid() && P.Exec(steps) == Some(Model())
    {
      var i := 0;
      while i < |steps|
        invariant i <= |steps| && Valid() && P.Exec(steps[..i]) == Some(Model())
      {
        PrefixRuns(steps, i + 1);
        assert steps[..i + 1][..i] == steps[..i];
        Perform(steps[i]);
        i := i + 1;
      }
      assert steps[..i] == steps;
    }
  }

  /** The reader once the bytes read have been parsed. */
  function AfterParse(s: P.Reader, chunk: Bytes): P.Reader {
    P.Recorded(s, P.ReadBytes(chunk)).(buffered := ReadDone(s.buffered, chunk).1)
  }

  function Afterwards(c: P.Conn, done: Completion, reply: P.HandshakeReply, inflate: Bytes -> Option<Bytes>): P.Conn
    requires c.reader.receiving.Some?
  {
    var quiet := P.Quiet(c, c.reader.buffered);
    var h := c.reader.receiving.value;
    match done
    case ReadOn => c
    case Deliver(packets) => P.OnReceived(quiet, h, None, packets, reply, inflate)
    case Reject => P.OnReceived(quiet, h, Some(P.InvalidPacketType), [], reply, inflate)
    case EmptyRead => quiet.(halted := Some(P.ZeroByteRead))
    case UnwantedPacket => quiet.(halted := Some(P.UnexpectedFrame))
  }

  /** Parsing and then running the callback is the completion of the receive. */
  lemma ReadThenRest(c: P.Conn, chunk: Bytes, reply: P.HandshakeReply, inflate: Bytes -> Option<Bytes>)
    requires c.reader.receiving.Some?
    ensures Afterwards(c.(reader := AfterParse(c.reader, chunk)), ReadDone(c.reader.buffered, chunk).0, reply, inflate)
            == P.ReceiveDone(P.Noted(c, P.ReadBytes(chunk)), P.ReadBytes(chunk), reply, inflate)
  {
    var r := P.ReadBytes(chunk);
    var (done, rest) := ReadDone(c.reader.buffered, chunk);
    var c1 := c.(reader := AfterParse(c.reader, chunk));
    assert P.Quiet(c1, c1.reader.buffered) == P.Quiet(P.Noted(c, r), rest);
  }
}
