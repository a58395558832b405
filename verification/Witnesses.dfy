/** Runs that exist: the connection can be established, and each of the failures that the theorems
    describe does happen. */
module Witnesses {
  import opened Prelude
  import opened Packets
  import opened Framing
  import opened Messages
  import opened Runtime
  import opened Protocol
  import opened Runs
  import opened Refusals
  import opened Handshake
  import opened Silence
  import opened Theorems
  import Heartbeats

  // ---------------------------------------------------------------------------------------
  // Establishing a connection
  // ---------------------------------------------------------------------------------------

  /** A state on the way to an established connection, spelled out; the buffer is empty. */
  ghost predicate OnTheWay(c: Conn, connecting: bool, receiving: Option<ReceiveHandler>, pending: seq<Task>,
                           sent: nat, ops: set<nat>) {
    && c.halted.None? && c.state.Inited? && c.events == [] && c.tasks.pending == pending
    && c.reader.connecting == connecting && c.reader.receiving == receiving && c.reader.buffered == []
    && |c.sender.queue| == |pending|
    && |c.sender.handed| == sent && c.sender.writeId == sent && c.sender.outstanding == ops
    && (forall i :: i in c.sender.writeBuffers ==> i < sent)
  }

  /** A connection that has just been established, with nothing queued and nothing read. */
  ghost predicate Fresh(c: Conn, interval: nat, dict: RouteDict) {
    && c.halted.None? && c.state.Connected? && c.state.interval == interval
    && c.state.routeToCode == dict.routeToCode && c.state.codeToRoute == Inverse(dict.order, dict.routeToCode)
    && c.tasks.pending == [] && c.sender.queue == []
    && c.reader.receiving == Some(OnPackets) && c.reader.buffered == []
    && c.session == Session(c.timers.now, interval, 0, [])
    && c.state.timeout in c.timers.waits && c.state.tick in c.timers.waits
    && c.timers.waits[c.state.timeout] == Wait(HeartbeatTimeoutWait, Waiting(c.timers.now + interval * 3))
    && c.timers.waits[c.state.tick] == Wait(TickWait, Waiting(c.timers.now + interval))
  }

  lemma HandOver(steps: seq<Step>, h: SendHandler, sent: nat) returns (steps': seq<Step>)
    requires Exec(steps).Some? && sent < 2
    requires OnTheWay(Exec(steps).value, false, None, [SendNext(h)], sent, {})
    ensures Exec(steps').Some?
    ensures var c := Exec(steps').value;
            OnTheWay(c, false, None, [], sent + 1, {sent}) && c.sender.handed[sent].handler == h
  {
    SendingFresh(Exec(steps).value.sender, h, sent);
    steps' := Extend(steps, TaskStep);
  }

  lemma SendingFresh(s: Sender, h: SendHandler, sent: nat)
    requires |s.queue| == 1 && |s.handed| == s.writeId == sent < 2 && s.outstanding == {}
    requires forall i :: i in s.writeBuffers ==> i < sent
    ensures var t := Sending(s, h);
            && t.writeId !in s.writeBuffers && t.writeId == sent + 1 && t.outstanding == {sent} && t.queue == []
            && |t.handed| == sent + 1 && t.handed[sent].handler == h
            && var buffers := s.writeBuffers[s.writeId := Serialize(s.queue[0])];
            forall i :: i in buffers ==> i < sent + 1
  {
  }

  lemma Greet() returns (steps: seq<Step>)
    ensures Exec(steps).Some? && Exec(steps).value.started
    ensures OnTheWay(Exec(steps).value, false, None, [SendNext(HandshakeSent)], 0, {})
  {
    assert OnTheWay(INIT, false, None, [], 0, {});
    steps := Extend([], Start);
    assert OnTheWay(Exec(steps).value, true, None, [], 0, {});
    steps := Extend(steps, ConnectStep(None));
  }

  /** The handshake was sent and its response is awaited. */
  lemma Greeted() returns (steps: seq<Step>)
    ensures Exec(steps).Some?
    ensures OnTheWay(Exec(steps).value, false, Some(OnHandshakeResponse), [], 1, {})
  {
    steps := Greet();
    steps := HandOver(steps, HandshakeSent, 0);
    steps := Extend(steps, SendStep(0, None));
  }

  /** An empty packet on its own is delivered. */
  lemma LonePacket(t: PacketType) returns (frame: Bytes)
    requires t != HandshakeAck
    ensures |frame| == HEADER_SIZE && ReadDone([], frame) == (Deliver([Packet(t, [])]), [])
  {
    var p := Packet(t, []);
    frame := Serialize(p);
    FrameRoundTripIff(p);
    assert [] + frame == frame;
  }

  lemma Acknowledge(steps: seq<Step>, frame: Bytes, interval: nat, dict: RouteDict, inflate: Bytes -> Option<Bytes>)
    returns (steps': seq<Step>)
    requires Exec(steps).Some?
    requires OnTheWay(Exec(steps).value, false, Some(OnHandshakeResponse), [], 1, {})
    requires |frame| == HEADER_SIZE && ReadDone([], frame) == (Deliver([Packet(PacketType.Handshake, [])]), [])
    ensures Exec(steps').Some?
    ensures OnTheWay(Exec(steps').value, false, None, [SendNext(AckSent(interval, dict))], 1, {})
  {
    steps' := Extend(steps, ReceiveStep(ReadBytes(frame), Good(interval, dict), inflate));
  }

  lemma AckSucceeds(c: Conn, interval: nat, dict: RouteDict)
    requires OnTheWay(c, false, None, [], 2, {1}) && c.sender.handed[1].handler == AckSent(interval, dict)
    ensures Enabled(c, SendStep(1, None)) && Fresh(Apply(c, SendStep(1, None)), interval, dict)
  {
  }

  /** The handshake can succeed, with any interval and any dictionary: there is a run that
      establishes the connection. */
  lemma CanEstablish(interval: nat, dict: RouteDict, inflate: Bytes -> Option<Bytes>) returns (steps: seq<Step>)
    ensures Exec(steps).Some? && Fresh(Exec(steps).value, interval, dict)
  {
    steps := Greeted();
    var frame := LonePacket(PacketType.Handshake);
    steps := Acknowledge(steps, frame, interval, dict, inflate);
    steps := HandOver(steps, AckSent(interval, dict), 1);
    AckSucceeds(Exec(steps).value, interval, dict);
    steps := Extend(steps, SendStep(1, None));
  }

  // ---------------------------------------------------------------------------------------
  // A handshake that fails silently
  // ---------------------------------------------------------------------------------------

  /** A run in which the handshake response is not valid JSON: it is over and nothing was announced. */
  lemma CanFailSilently(inflate: Bytes -> Option<Bytes>) returns (steps: seq<Step>)
    ensures Exec(steps).Some? && Exec(steps).value.halted.None?
    ensures GaveUp(Exec(steps).value) && Exec(steps).value.events == []
  {
    steps := Greeted();
    var frame := LonePacket(PacketType.Handshake);
    var s := ReceiveStep(ReadBytes(frame), BadJson, inflate);
    var stage := RunStage(steps);
    RunSends(steps);
    SilentEnds(Exec(steps).value, stage, s);
    StaysUp(Exec(steps).value, s);
    steps := Extend(steps, s);
    GaveUpIff(Exec(steps).value, Dead);
  }

  lemma StaysUp(c: Conn, s: Step)
    requires Enabled(c, s) && FailsSilently(c, s)
    ensures Apply(c, s).halted.None?
  {
  }

  // ---------------------------------------------------------------------------------------
  // A connection whose silence is never noticed
  // ---------------------------------------------------------------------------------------

  lemma OneHeartbeat(c: Conn, frame: Bytes, reply: HandshakeReply, inflate: Bytes -> Option<Bytes>)
    requires c.halted.None? && c.state.Connected? && c.reader.receiving == Some(OnPackets) && c.reader.buffered == []
    requires |frame| == HEADER_SIZE && ReadDone([], frame) == (Deliver([Packet(Heartbeat, [])]), [])
    requires c.state.timeout in c.timers.waits && c.timers.waits[c.state.timeout].status.Waiting?
    ensures var s := ReceiveStep(ReadBytes(frame), reply, inflate);
            && Enabled(c, s)
            && var d := Apply(c, s);
            && d.halted.None? && d.state == c.state && d.session.heartbeats != []
            && c.state.timeout in d.timers.waits && d.timers.waits[c.state.timeout].status.Aborted?
  {
    var c1 := Quiet(Noted(c, ReadBytes(frame)), []);
    var p := Packet(Heartbeat, []);
    assert [p][..0] == [];
    assert ProcessPackets(c1, [p], inflate) == ExtendHeartbeatTimeout(c1);
  }

  /** A run in which one heartbeat of the server was processed in time. The connection is established,
      and however long the server is silent, no continuation reports it. */
  lemma CanMissSilence(interval: nat, dict: RouteDict, inflate: Bytes -> Option<Bytes>) returns (steps: seq<Step>)
    ensures Exec(steps).Some? && Exec(steps).value.halted.None? && Exec(steps).value.state.Connected?
    ensures forall more :: Exec(steps + more).Some? ==> TIMEOUT_EVENT !in Exec(steps + more).value.events
  {
    steps := CanEstablish(interval, dict, inflate);
    var frame := LonePacket(Heartbeat);
    OneHeartbeat(Exec(steps).value, frame, BadJson, inflate);
    steps := Extend(steps, ReceiveStep(ReadBytes(frame), BadJson, inflate));
    TimeoutPossibleIff(steps);
  }

  // ---------------------------------------------------------------------------------------
  // Heartbeats on time
  // ---------------------------------------------------------------------------------------

  /** The next tick is one interval away, after this many intervals and as many heartbeats. */
  ghost predicate Beating(c: Conn, interval: nat, since: nat, n: nat) {
    && c.halted.None? && c.state.Connected? && c.state.interval == interval
    && c.state.tick in c.timers.waits
    && c.timers.waits[c.state.tick] == Wait(TickWait, Waiting(c.timers.now + interval))
    && c.timers.now == since + n * interval && Heartbeats.Offered(c.sender) == n
  }

  /** An interval passes and the tick runs. */
  lemma NextBeat(c: Conn, interval: nat, since: nat, n: nat)
    requires Beating(c, interval, since, n)
    ensures Enabled(c, Elapse(interval))
    ensures var c1 := Apply(c, Elapse(interval));
            && Enabled(c1, Expire(c.state.tick))
            && var c2 := Apply(c1, Expire(c.state.tick));
            && Enabled(c2, WaitStep(c.state.tick))
            && Beating(Apply(c2, WaitStep(c.state.tick)), interval, since, n + 1)
  {
    var c1 := Apply(c, Elapse(interval));
    var c2 := Apply(c1, Expire(c.state.tick));
    Heartbeats.StepOffers(c2, WaitStep(c.state.tick));
    var t := Cancel(c2.timers.(waits := c2.timers.waits - {c.state.tick}), c.state.tick);
    var d := Apply(c2, WaitStep(c.state.tick));
    assert d.timers == AsyncWait(t, TickWait, c2.timers.now + interval) && d.state.tick == c2.timers.next;
    assert (n + 1) * interval == n * interval + interval;
  }

  lemma {:induction false} Beats(steps: seq<Step>, interval: nat, n: nat) returns (steps': seq<Step>)
    requires Exec(steps).Some? && Beating(Exec(steps).value, interval, Exec(steps).value.timers.now, 0)
    ensures Exec(steps').Some? && Beating(Exec(steps').value, interval, Exec(steps).value.timers.now, n)
  {
    steps' := steps;
    if n > 0 {
      steps' := Beats(steps, interval, n - 1);
      var tick := Exec(steps').value.state.tick;
      NextBeat(Exec(steps').value, interval, Exec(steps).value.timers.now, n - 1);
      steps' := Extend(steps', Elapse(interval));
      steps' := Extend(steps', Expire(tick));
      steps' := Extend(steps', WaitStep(tick));
    }
  }

  /** For every n a run in which exactly n intervals have passed since the connection was established
      and exactly n heartbeats have been offered. */
  lemma CanBeatOnTime(interval: nat, dict: RouteDict, n: nat, inflate: Bytes -> Option<Bytes>)
    returns (steps: seq<Step>, since: nat)
    ensures Exec(steps).Some? && Beating(Exec(steps).value, interval, since, n)
  {
    steps := CanEstablish(interval, dict, inflate);
    since := Exec(steps).value.timers.now;
    RunHeartbeats(steps);
    assert 0 * interval == 0;
    steps := Beats(steps, interval, n);
  }

  // ---------------------------------------------------------------------------------------
  // A read loop that gets stuck
  // ---------------------------------------------------------------------------------------

  /** The header of a Data packet of 2^24 - 1 bytes. */
  lemma HeaderAlone(c: Conn, reply: HandshakeReply, inflate: Bytes -> Option<Bytes>) returns (s: Step)
    requires c.halted.None? && c.reader.receiving.Some? && c.reader.buffered == []
    ensures Enabled(c, s)
    ensures var d := Apply(c, s);
            && d.halted.None? && d.reader.receiving.Some? && |d.reader.buffered| == HEADER_SIZE
            && HeaderLength(d.reader.buffered) == TWO_TO_24 - 1
  {
    var header: Bytes := [4, 255, 255, 255];
    assert [] + header == header && HeaderLength(header) == TWO_TO_24 - 1;
    assert NextFrame(header) == Incomplete;
    s := ReceiveStep(ReadBytes(header), reply, inflate);
  }

  /** A run that ends because the read buffer is too small for a frame. */
  lemma CanGetStuck(interval: nat, dict: RouteDict, inflate: Bytes -> Option<Bytes>) returns (steps: seq<Step>)
    ensures Exec(steps).Some? && Exec(steps).value.halted == Some(ZeroByteRead)
  {
    steps := CanEstablish(interval, dict, inflate);
    var s := HeaderAlone(Exec(steps).value, BadJson, inflate);
    steps := Extend(steps, s);
    var more := OversizeGetsStuck(steps, BadJson, inflate);
    steps := steps + more;
  }

  // ---------------------------------------------------------------------------------------
  // A request that is dropped
  // ---------------------------------------------------------------------------------------

  /** This many requests for the route wait to be run, with nothing but sends behind them, and this
      many packets are queued. */
  ghost predicate Loaded(c: Conn, route: string, waiting: nat, queued: nat) {
    && c.halted.None? && c.state.Connected? && route in c.state.routeToCode
    && |c.sender.queue| == queued && |c.tasks.pending| == waiting + queued
    && (forall i :: 0 <= i < waiting ==> c.tasks.pending[i].RunRequest? && c.tasks.pending[i].route == route)
  }

  lemma {:induction false} PostMany(steps: seq<Step>, route: string, n: nat) returns (steps': seq<Step>)
    requires Exec(steps).Some? && Loaded(Exec(steps).value, route, 0, 0)
    ensures Exec(steps').Some? && Loaded(Exec(steps').value, route, n, 0)
  {
    steps' := steps;
    if n > 0 {
      steps' := PostMany(steps, route, n - 1);
      steps' := Extend(steps', PostRequest(route, [], 0));
    }
  }

  /** One of them is run while there is room in the queue. */
  lemma RunOne(c: Conn, route: string, waiting: nat, queued: nat)
    requires Loaded(c, route, waiting, queued) && waiting > 0 && queued < MAX_QUEUED_PACKETS
    ensures Enabled(c, TaskStep) && Loaded(Apply(c, TaskStep), route, waiting - 1, queued + 1)
  {
    assert Messages.Encode(NewRequest(c.reqId, route, c.tasks.pending[0].data), c.state.routeToCode).Some?;
    var d := Apply(c, TaskStep);
    assert |d.tasks.pending| == |c.tasks.pending|;
    assert forall i :: 0 <= i < |c.tasks.pending| - 1 ==> d.tasks.pending[i] == c.tasks.pending[i + 1];
  }

  lemma {:induction false} RunMany(steps: seq<Step>, route: string, waiting: nat, n: nat) returns (steps': seq<Step>)
    requires Exec(steps).Some? && Loaded(Exec(steps).value, route, waiting, 0)
    requires n <= waiting && n <= MAX_QUEUED_PACKETS
    ensures Exec(steps').Some? && Loaded(Exec(steps').value, route, waiting - n, n)
  {
    steps' := steps;
    if n > 0 {
      steps' := RunMany(steps, route, waiting, n - 1);
      RunOne(Exec(steps').value, route, waiting - (n - 1), n - 1);
      steps' := Extend(steps', TaskStep);
    }
  }

  /** A run in which fifty-one requests are posted and run before any packet is handed over: the last
      one is refused. */
  lemma CanRefuse(interval: nat, dict: RouteDict, route: string, inflate: Bytes -> Option<Bytes>)
    returns (steps: seq<Step>, token: nat)
    requires route in dict.routeToCode
    ensures Exec(steps).Some? && Exec(steps).value.halted.None?
    ensures RefusedIn(Exec(steps).value.sender.refused, token)
  {
    steps := CanEstablish(interval, dict, inflate);
    steps := PostMany(steps, route, MAX_QUEUED_PACKETS + 1);
    steps := RunMany(steps, route, MAX_QUEUED_PACKETS + 1, MAX_QUEUED_PACKETS);
    var c := Exec(steps).value;
    token := c.tasks.pending[0].token;
    LastIsRefused(c, route, token);
    steps := Extend(steps, TaskStep);
  }

  lemma LastIsRefused(c: Conn, route: string, token: nat)
    requires Loaded(c, route, 1, MAX_QUEUED_PACKETS) && c.tasks.pending[0].token == token
    ensures Enabled(c, TaskStep) && Apply(c, TaskStep).halted.None?
    ensures RefusedIn(Apply(c, TaskStep).sender.refused, token)
  {
    StepRefusesIff(c, TaskStep, token);
  }
}
