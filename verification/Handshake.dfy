/** The handshake chain and what follows it, in every run with one Start: which stage the connection
    is in fixes what can be pending, what has been put on the wire and which events were raised. */
module Handshake {
  import opened Prelude
  import opened Packets
  import opened Framing
  import opened Messages
  import opened Runtime
  import opened Protocol
  import opened SendPipeline

  datatype Stage =
    | Idle
    | Connecting
    | HelloQueued
    | HelloSending
    | AwaitingReply
    | AckQueued
    | AckSending
    | Up
    | Down
    | Dead

  /** Callbacks that only exist once the connection is established. */
  predicate Late(h: SendHandler) { h.HeartbeatSent? || h.RequestSent? }

  /** A handshake, its acknowledgement, then only data and heartbeats. */
  ghost predicate WireOrder(handed: seq<Sent>) {
    forall i :: 0 <= i < |handed| ==>
      if i == 0 then handed[i].handler.HandshakeSent?
      else if i == 1 then handed[i].handler.AckSent?
      else Late(handed[i].handler)
  }

  /** Nothing has been established or broadcast yet; exactly these callbacks are queued, this many
      packets have been handed over, these sends are in progress and this receive is pending. */
  ghost predicate Before(c: Conn, queued: seq<SendHandler>, sent: nat, ops: set<nat>,
                         receiving: Option<ReceiveHandler>) {
    && c.state.Inited? && c.events == [] && c.session == INIT.session
    && Handlers(c.tasks.pending) == queued
    && |c.sender.handed| == sent && WireOrder(c.sender.handed)
    && c.sender.outstanding == ops && c.sender.failed == {} && c.sender.refused == []
    && c.reader.receiving == receiving
  }

  /** The connection has been established: the handshake and its acknowledgement were sent. */
  ghost predicate After(c: Conn) {
    && c.started && !c.reader.connecting
    && c.reader.receiving != Some(OnHandshakeResponse)
    && (forall h :: h in Handlers(c.tasks.pending) ==> Late(h))
    && |c.sender.handed| >= 2 && WireOrder(c.sender.handed)
    && (forall i :: i in c.sender.outstanding || i in c.sender.failed ==> i >= 2)
  }

  ghost predicate InStage(c: Conn, stage: Stage) {
    match stage
    case Idle => !c.started && !c.reader.connecting && Before(c, [], 0, {}, None)
    case Connecting => c.started && c.reader.connecting && Before(c, [], 0, {}, None)
    case HelloQueued => c.started && !c.reader.connecting && Before(c, [HandshakeSent], 0, {}, None)
    case HelloSending => c.started && !c.reader.connecting && Before(c, [], 1, {0}, None)
    case AwaitingReply => c.started && !c.reader.connecting && Before(c, [], 1, {}, Some(OnHandshakeResponse))
    case AckQueued =>
      var hs := Handlers(c.tasks.pending);
      c.started && !c.reader.connecting && |hs| == 1 && hs[0].AckSent? && Before(c, hs, 1, {}, None)
    case AckSending => c.started && !c.reader.connecting && Before(c, [], 2, {1}, None)
    case Up => After(c) && c.state.Connected? && c.events == [ConnectedEvent]
    case Down =>
      && After(c) && c.state.Inited?
      && |c.events| == 2 && c.events[0] == ConnectedEvent
      && (c.events[1].ConnectionErrorEvent? || c.events[1].KickedEvent?)
    case Dead =>
      && c.started && !c.reader.connecting && c.reader.receiving == None
      && c.state.Inited? && c.session == INIT.session
      && (c.events == [] || (|c.events| == 1 && c.events[0].ConnectionFailedEvent?))
      && Handlers(c.tasks.pending) == []
      && |c.sender.handed| <= 2 && WireOrder(c.sender.handed)
      && c.sender.outstanding == {} && c.sender.refused == []
  }

  // ---------------------------------------------------------------------------------------
  // Once established
  // ---------------------------------------------------------------------------------------

  ghost predicate Established(c: Conn, stage: Stage) {
    (stage == Up || stage == Down) && InStage(c, stage)
  }

  /** Sends, tasks, start and connect are as before, and no handshake receive is started. */
  ghost predicate SameAfter(c: Conn, d: Conn) {
    && d.sender.handed == c.sender.handed && d.sender.outstanding == c.sender.outstanding
    && d.sender.failed == c.sender.failed
    && d.tasks == c.tasks && d.started == c.started && d.reader.connecting == c.reader.connecting
    && (d.reader.receiving == c.reader.receiving || d.reader.receiving != Some(OnHandshakeResponse))
  }

  /** An error or a kick takes an established connection down, once. */
  lemma GoDown(c: Conn, stage: Stage, why: ErrorCode) returns (stage': Stage)
    requires Established(c, stage)
    ensures Established(ConnectionError(c, why), stage') && Established(KickedFromServer(c), stage')
  {
    stage' := Down;
  }

  lemma LateHandlers(tasks: seq<Task>, h: SendHandler)
    requires Late(h) && forall g :: g in Handlers(tasks) ==> Late(g)
    ensures forall g :: g in Handlers(tasks + [SendNext(h)]) ==> Late(g)
  {
    HandlersAppend(tasks, [SendNext(h)]);
    assert Handlers([SendNext(h)]) == [h];
  }

  lemma SendLate(c: Conn, stage: Stage, p: Packet, h: SendHandler)
    requires Established(c, stage) && Late(h)
    ensures Established(SendPacket(c, p, h), stage)
  {
    LateHandlers(c.tasks.pending, h);
  }

  lemma TickAfter(c: Conn, stage: Stage)
    requires Established(c, stage)
    ensures Established(HeartbeatTick(c), stage)
  {
    SendLate(c, stage, Packet(Heartbeat, []), HeartbeatSent);
  }

  /** A callback that touches neither the state nor the events. */
  lemma SameKeepsStage(c: Conn, d: Conn, stage: Stage)
    requires Established(c, stage) && SameAfter(c, d)
    requires d.state.Connected? == c.state.Connected? && d.events == c.events
    ensures Established(d, stage)
  {
  }

  lemma ProcessPacketAfter(c: Conn, stage: Stage, p: Packet, inflate: Bytes -> Option<Bytes>) returns (stage': Stage)
    requires Established(c, stage)
    ensures Established(ProcessPacket(c, p, inflate), stage')
  {
    stage' := stage;
    if p.ptype == Kick {
      stage' := GoDown(c, stage, WrongPacket);
    } else if && p.ptype == Data && c.state.Connected?
              && Messages.Decode(p.body, c.state.codeToRoute, inflate).Malformed? {
      stage' := GoDown(c, stage, InvalidMessage);
    } else {
      SameKeepsStage(c, ProcessPacket(c, p, inflate), stage);
    }
  }

  lemma {:induction false} ProcessPacketsAfter(c: Conn, stage: Stage, ps: seq<Packet>, inflate: Bytes -> Option<Bytes>)
    returns (stage': Stage)
    requires Established(c, stage)
    ensures Established(ProcessPackets(c, ps, inflate), stage')
  {
    stage' := stage;
    if ps != [] {
      var init := ps[..|ps| - 1];
      stage' := ProcessPacketsAfter(c, stage, init, inflate);
      var c1 := ProcessPackets(c, init, inflate);
      if c1.halted.None? {
        stage' := ProcessPacketAfter(c1, stage', ps[|ps| - 1], inflate);
      }
    }
  }

  lemma OnReceivedAfter(c: Conn, stage: Stage, ec: Option<ErrorCode>, ps: seq<Packet>,
                        reply: HandshakeReply, inflate: Bytes -> Option<Bytes>)
    returns (stage': Stage)
    requires Established(c, stage)
    ensures Established(OnReceived(c, OnPackets, ec, ps, reply, inflate), stage')
  {
    if ec.Some? {
      stage' := GoDown(c, stage, ec.value);
    } else {
      stage' := ProcessPacketsAfter(c, stage, ps, inflate);
    }
  }

  lemma OnSentAfter(c: Conn, stage: Stage, h: SendHandler, ec: Option<int>) returns (stage': Stage)
    requires Established(c, stage) && Late(h)
    ensures Established(OnSent(c, h, ec), stage')
  {
    stage' := stage;
    if h.HeartbeatSent? && ec.Some? {
      stage' := GoDown(c, stage, System(ec.value));
    }
  }

  lemma SendDoneAfter(c: Conn, stage: Stage, op: nat, ec: Option<int>) returns (stage': Stage)
    requires Established(c, stage) && op in c.sender.outstanding && op < |c.sender.handed|
    ensures Established(SendDone(c, op, ec), stage')
  {
    var c1 := c.(sender := Ended(c.sender, op, ec.None?));
    stage' := OnSentAfter(c1, stage, c.sender.handed[op].handler, ec);
  }

  lemma RunWaitAfter(c: Conn, stage: Stage, w: nat) returns (stage': Stage)
    requires Established(c, stage) && w in c.timers.waits
    ensures Established(RunWait(c, w), stage')
  {
    var c1 := c.(timers := c.timers.(waits := c.timers.waits - {w}));
    var wait := c.timers.waits[w];
    stage' := stage;
    if wait.kind.HeartbeatTimeoutWait? && !wait.status.Aborted? {
      stage' := GoDown(c1, stage, HeartbeatTimeout);
    } else if wait.kind.TickWait? {
      TickAfter(c1, stage);
    }
  }

  lemma RunRequestAfter(c: Conn, stage: Stage, token: nat, route: string, data: Bytes, timeout: nat)
    requires Established(c, stage)
    ensures Established(RunRequestTask(c, token, route, data, timeout), stage)
  {
    if c.state.Connected? {
      var c1 := c.(reqId := (c.reqId + 1) % TWO_TO_64, issued := c.issued + 1);
      var body := Messages.Encode(NewRequest(c.reqId, route, data), c.state.routeToCode);
      if body.Some? {
        SendLate(c1, stage, Packet(Data, body.value), RequestSent(c.reqId, token, timeout));
      }
    }
  }

  lemma SendNextAfter(c: Conn, stage: Stage, h: SendHandler)
    requires Established(c, stage) && Late(h)
    ensures Established(SendNextPacket(c, h), stage)
  {
    if c.sender.queue != [] {
      assert WireOrder(Sending(c.sender, h).handed);
    }
  }

  lemma RunTaskAfter(c: Conn, stage: Stage)
    requires Established(c, stage) && c.tasks.pending != []
    ensures Established(RunTask(c), stage)
  {
    var c1 := c.(tasks := PopTask(c.tasks));
    var hs := Handlers(c.tasks.pending);
    match c.tasks.pending[0]
    case RunRequest(token, route, data, timeout) =>
      assert Handlers(c1.tasks.pending) == hs;
      RunRequestAfter(c1, stage, token, route, data, timeout);
    case SendNext(h) =>
      assert hs[0] == h && Handlers(c1.tasks.pending) == hs[1..];
      assert Established(c1, stage);
      SendNextAfter(c1, stage, h);
  }

  lemma PostKeepsStage(c: Conn, stage: Stage, route: string, data: Bytes, timeout: nat)
    requires InStage(c, stage)
    ensures var t := RunRequest(c.posted, route, data, timeout);
            InStage(c.(posted := c.posted + 1, tasks := Post(c.tasks, t)), stage)
  {
    var t := RunRequest(c.posted, route, data, timeout);
    HandlersAppend(c.tasks.pending, [t]);
    assert Handlers([t]) == [];
    assert Handlers(Post(c.tasks, t).pending) == Handlers(c.tasks.pending);
  }

  lemma StepAfter(c: Conn, stage: Stage, s: Step) returns (stage': Stage)
    requires Established(c, stage) && Enabled(c, s)
    ensures Established(Apply(c, s), stage')
  {
    stage' := stage;
    match s {
      case PostRequest(route, data, timeout) => PostKeepsStage(c, stage, route, data, timeout);
      case TaskStep => RunTaskAfter(c, stage);
      case SendStep(op, ec) => stage' := SendDoneAfter(c, stage, op, ec);
      case ReceiveStep(r, reply, inflate) => stage' := ReceiveAfter(Noted(c, r), stage, r, reply, inflate);
      case WaitStep(w) => stage' := RunWaitAfter(c, stage, w);
      case _ =>
    }
  }

  lemma ReceiveAfter(c: Conn, stage: Stage, r: ReadResult, reply: HandshakeReply, inflate: Bytes -> Option<Bytes>)
    returns (stage': Stage)
    requires Established(c, stage) && c.reader.receiving.Some?
    ensures Established(ReceiveDone(c, r, reply, inflate), stage')
  {
    assert c.reader.receiving.value == OnPackets;
    match r {
      case ReadFailed(code) =>
        stage' := OnReceivedAfter(Quiet(c, c.reader.buffered), stage, Some(System(code)), [], reply, inflate);
      case ReadBytes(chunk) =>
        var (done, rest) := ReadDone(c.reader.buffered, chunk);
        match done {
          case Deliver(ps) => stage' := OnReceivedAfter(Quiet(c, rest), stage, None, ps, reply, inflate);
          case Reject => stage' := OnReceivedAfter(Quiet(c, rest), stage, Some(InvalidPacketType), [], reply, inflate);
          case _ => stage' := stage;
        }
    }
  }

  // ---------------------------------------------------------------------------------------
  // On the way there
  // ---------------------------------------------------------------------------------------

  /** Before the connection is established a tick, a heartbeat timeout or a request timeout changes
      nothing but the timers and the answers. */
  lemma RunWaitBefore(c: Conn, stage: Stage, w: nat)
    requires InStage(c, stage) && stage != Up && stage != Down && w in c.timers.waits
    ensures InStage(RunWait(c, w), stage)
  {
    var d := RunWait(c, w);
    assert d.sender == c.sender && d.reader == c.reader && d.tasks == c.tasks && d.state == c.state;
    assert d.events == c.events && d.session == c.session && d.started == c.started;
  }

  lemma RunTaskBefore(c: Conn, stage: Stage) returns (stage': Stage)
    requires InStage(c, stage) && stage != Up && stage != Down && c.tasks.pending != []
    requires SendInv(c)
    ensures InStage(RunTask(c), stage')
    ensures stage' == stage || stage' == HelloSending || stage' == AckSending
  {
    var hs := Handlers(c.tasks.pending);
    var rest := Handlers(c.tasks.pending[1..]);
    match c.tasks.pending[0] {
      case RunRequest(token, route, data, timeout) =>
        assert rest == hs;
        stage' := stage;
      case SendNext(h) =>
        assert hs == [h] + rest;
        stage' := if stage == HelloQueued then HelloSending else AckSending;
        SendNextBefore(c, stage, h);
    }
  }

  lemma SendNextBefore(c: Conn, stage: Stage, h: SendHandler)
    requires InStage(c, stage) && (stage == HelloQueued || stage == AckQueued)
    requires Handlers(c.tasks.pending) == [h] && SendInv(c)
    requires c.tasks.pending != [] && c.tasks.pending[0] == SendNext(h) && Handlers(c.tasks.pending[1..]) == []
    ensures InStage(RunTask(c), if stage == HelloQueued then HelloSending else AckSending)
  {
  }

  lemma ConnectBefore(c: Conn, ec: Option<int>) returns (stage': Stage)
    requires InStage(c, Connecting) && SendInv(c)
    ensures InStage(ConnectDone(c, ec), stage')
    ensures stage' == if ec.Some? then Dead else HelloQueued
  {
    if ec.Some? {
      stage' := Dead;
    } else {
      stage' := HelloQueued;
      HandlersAppend(c.tasks.pending, [SendNext(HandshakeSent)]);
      assert Handlers([SendNext(HandshakeSent)]) == [HandshakeSent];
    }
  }

  lemma SendDoneBefore(c: Conn, stage: Stage, op: nat, ec: Option<int>) returns (stage': Stage)
    requires InStage(c, stage) && stage != Up && stage != Down && op in c.sender.outstanding && op < |c.sender.handed|
    ensures InStage(SendDone(c, op, ec), stage')
  {
    var h := c.sender.handed[op].handler;
    if stage == HelloSending {
      stage' := if ec.Some? then Dead else AwaitingReply;
    } else {
      stage' := if ec.Some? then Dead else Up;
    }
  }

  lemma ReplyBefore(c: Conn, ps: seq<Packet>, reply: HandshakeReply) returns (stage': Stage)
    requires c.started && !c.reader.connecting && Before(c, [], 1, {}, None) && SendInv(c)
    ensures InStage(OnHandshakePackets(c, ps, reply), stage')
    ensures |ps| == 1 && ps[0].ptype == PacketType.Handshake && reply.Good? ==> stage' == AckQueued
  {
    if |ps| == 1 && ps[0].ptype == PacketType.Handshake && reply.Good? {
      stage' := AckQueued;
      var h := AckSent(reply.interval, reply.dict);
      HandlersAppend(c.tasks.pending, [SendNext(h)]);
      assert Handlers([SendNext(h)]) == [h];
    } else {
      stage' := Dead;
    }
  }

  lemma ReceiveBefore(c: Conn, r: ReadResult, reply: HandshakeReply, inflate: Bytes -> Option<Bytes>)
    returns (stage': Stage)
    requires InStage(c, AwaitingReply) && SendInv(c)
    ensures InStage(ReceiveDone(c, r, reply, inflate), stage')
  {
    if r.ReadBytes? && ReadDone(c.reader.buffered, r.chunk).0.Deliver? {
      var (done, rest) := ReadDone(c.reader.buffered, r.chunk);
      stage' := ReplyBefore(Quiet(c, rest), done.packets, reply);
    } else {
      stage' := NoReplyBefore(c, r, reply, inflate);
    }
  }

  lemma NoReplyBefore(c: Conn, r: ReadResult, reply: HandshakeReply, inflate: Bytes -> Option<Bytes>)
    returns (stage': Stage)
    requires InStage(c, AwaitingReply)
    requires r.ReadBytes? ==> !ReadDone(c.reader.buffered, r.chunk).0.Deliver?
    ensures InStage(ReceiveDone(c, r, reply, inflate), stage')
  {
    stage' := if r.ReadBytes? && ReadDone(c.reader.buffered, r.chunk).0.ReadOn? then AwaitingReply else Dead;
  }

  lemma ReceivedBefore(c: Conn, stage: Stage, s: Step) returns (stage': Stage)
    requires InStage(c, stage) && stage != Up && stage != Down && SendInv(c) && Enabled(c, s) && s.ReceiveStep?
    ensures InStage(Apply(c, s), stage')
  {
    assert InStage(Noted(c, s.result), AwaitingReply);
    stage' := ReceiveBefore(Noted(c, s.result), s.result, s.reply, s.inflate);
  }

  lemma StepBefore(c: Conn, stage: Stage, s: Step) returns (stage': Stage)
    requires InStage(c, stage) && stage != Up && stage != Down && SendInv(c) && Enabled(c, s)
    ensures InStage(Apply(c, s), stage')
  {
    stage' := stage;
    match s {
      case Start => stage' := Connecting;
      case PostRequest(route, data, timeout) => PostKeepsStage(c, stage, route, data, timeout);
      case TaskStep => stage' := RunTaskBefore(c, stage);
      case ConnectStep(ec) => stage' := ConnectBefore(c, ec);
      case SendStep(op, ec) => stage' := SendDoneBefore(c, stage, op, ec);
      case ReceiveStep(_, _, _) => stage' := ReceivedBefore(c, stage, s);
      case WaitStep(w) => RunWaitBefore(c, stage, w);
      case _ =>
    }
  }

  lemma StepStage(c: Conn, stage: Stage, s: Step) returns (stage': Stage)
    requires InStage(c, stage) && SendInv(c) && Enabled(c, s)
    ensures InStage(Apply(c, s), stage')
  {
    if stage == Up || stage == Down {
      stage' := StepAfter(c, stage, s);
    } else {
      stage' := StepBefore(c, stage, s);
    }
  }
}
