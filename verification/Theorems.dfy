/** What holds after every run of the connection with one Start. */
module Theorems {
  import opened Prelude
  import opened Packets
  import opened Framing
  import opened Messages
  import opened Runtime
  import opened Protocol
  import opened Runs
  import opened Refusals
  import opened SendPipeline
  import opened Requests
  import opened Replies
  import opened Handshake
  import Timeouts
  import Heartbeats
  import opened Attention
  import opened Silence
  import opened Reading
  import opened Halts
  import opened Batches
  import opened Causes
  import opened Deadlines
  import opened Offers
  import opened Sessions
  import opened Ownership
  import Varint

  /** The conjunction that every step keeps. */
  ghost predicate Inv(c: Conn, place: Placement, stage: Stage) {
    && SendInv(c) && Placed(c, place, {}) && InStage(c, stage)
    && Timeouts.TimerInv(c) && Heartbeats.HeartbeatInv(c)
    && Ticking(c.timers, c.state, c.session) && Listening(c)
    && IdInv(c) && ReplyInv(c) && ReadInv(c) && Conserved(c.reader)
    && SessionInv(c) && OwnInv(c) && ShareInv(c)
    && c.halted != Some(EmptyBatch)
  }

  lemma InitSends()
    ensures SendInv(INIT) && IdInv(INIT) && ReplyInv(INIT)
  {
  }

  lemma InitTimers()
    ensures Timeouts.TimerInv(INIT) && Heartbeats.HeartbeatInv(INIT)
  {
  }

  lemma InitAttended()
    ensures Ticking(INIT.timers, INIT.state, INIT.session) && Listening(INIT)
  {
  }

  lemma InitOwners()
    ensures SessionInv(INIT) && OwnInv(INIT) && ShareInv(INIT)
  {
  }

  lemma InitReads()
    ensures ReadInv(INIT) && Conserved(INIT.reader)
  {
    assert NextFrame([]) == Incomplete;
  }

  lemma InitPlaced()
    ensures Placed(INIT, map[], {})
  {
  }

  lemma InitStage()
    ensures InStage(INIT, Idle)
  {
  }

  lemma InitInv()
    ensures Inv(INIT, map[], Idle)
  {
    InitSends();
    InitTimers();
    InitAttended();
    InitReads();
    InitOwners();
    InitPlaced();
    InitStage();
  }

  /** The acknowledgement's send completes in the stage in which nothing has been announced. */
  lemma AckCompletesFresh(c: Conn, stage: Stage, op: nat)
    requires InStage(c, stage) && op in c.sender.outstanding && op < |c.sender.handed|
    requires c.sender.handed[op].handler.AckSent?
    ensures c.state.Inited? && c.session == INIT.session && c.events == []
  {
  }

  lemma StepNeverEmptyBatch(c: Conn, s: Step)
    requires Enabled(c, s)
    ensures Apply(c, s).halted != Some(EmptyBatch)
  {
    StepHaltsIff(c, s, EmptyBatch);
  }

  lemma StepInv(c: Conn, s: Step, place: Placement, stage: Stage) returns (place': Placement, stage': Stage)
    requires Inv(c, place, stage) && Enabled(c, s)
    ensures Inv(Apply(c, s), place', stage')
  {
    SendPipeline.StepKeepsInv(c, s);
    place' := StepPlaced(c, s, place);
    stage' := StepStage(c, stage, s);
    StepTimers(c, s, stage);
    StepIds(c, s);
    StepReplies(c, s);
    StepReads(c, stage, s);
    StepConserves(c, s);
    StepOwners(c, s, stage);
    StepNeverEmptyBatch(c, s);
  }

  lemma StepOwners(c: Conn, s: Step, stage: Stage)
    requires InStage(c, stage) && SendInv(c) && IdInv(c) && Timeouts.TimerInv(c) && Enabled(c, s)
    requires SessionInv(c) && OwnInv(c) && ShareInv(c)
    ensures SessionInv(Apply(c, s)) && OwnInv(Apply(c, s)) && ShareInv(Apply(c, s))
  {
    if Establishes(c, s) {
      AckIsSecond(c, stage, s);
    }
    StepSession(c, stage, s);
    StepOwned(c, s);
    StepShared(c, s);
  }

  lemma StepTimers(c: Conn, s: Step, stage: Stage)
    requires InStage(c, stage) && Enabled(c, s) && Timeouts.TimerInv(c) && Heartbeats.HeartbeatInv(c)
    requires Ticking(c.timers, c.state, c.session) && Listening(c)
    ensures var d := Apply(c, s);
            && Timeouts.TimerInv(d) && Heartbeats.HeartbeatInv(d)
            && Ticking(d.timers, d.state, d.session) && Listening(d)
  {
    if s.SendStep? && c.sender.handed[s.op].handler.AckSent? {
      AckCompletesFresh(c, stage, s.op);
    }
    Timeouts.StepKeeps(c, s);
    Heartbeats.StepKeeps(c, s);
    StepAttended(c, stage, s);
    StepListens(c, stage, s);
  }

  lemma {:induction false} RunInv(steps: seq<Step>) returns (place: Placement, stage: Stage)
    requires Exec(steps).Some?
    ensures Inv(Exec(steps).value, place, stage)
  {
    if steps == [] {
      InitInv();
      place, stage := map[], Idle;
    } else {
      var init := steps[..|steps| - 1];
      place, stage := RunInv(init);
      place, stage := StepInv(Exec(init).value, steps[|steps| - 1], place, stage);
    }
  }

  // Its parts, for the theorems below.

  lemma RunSends(steps: seq<Step>)
    requires Exec(steps).Some?
    ensures SendInv(Exec(steps).value)
  {
    var place, stage := RunInv(steps);
  }

  lemma RunPlaced(steps: seq<Step>) returns (place: Placement)
    requires Exec(steps).Some?
    ensures Placed(Exec(steps).value, place, {})
  {
    var stage;
    place, stage := RunInv(steps);
  }

  lemma RunStage(steps: seq<Step>) returns (stage: Stage)
    requires Exec(steps).Some?
    ensures InStage(Exec(steps).value, stage)
  {
    var place;
    place, stage := RunInv(steps);
  }

  lemma RunTimers(steps: seq<Step>)
    requires Exec(steps).Some?
    ensures Timeouts.TimerInv(Exec(steps).value)
  {
    var place, stage := RunInv(steps);
  }

  lemma RunHeartbeats(steps: seq<Step>)
    requires Exec(steps).Some?
    ensures Heartbeats.HeartbeatInv(Exec(steps).value)
  {
    var place, stage := RunInv(steps);
  }

  lemma RunAttended(steps: seq<Step>)
    requires Exec(steps).Some?
    ensures Attended(Exec(steps).value) && Listening(Exec(steps).value)
  {
    var place, stage := RunInv(steps);
  }

  lemma RunOwners(steps: seq<Step>)
    requires Exec(steps).Some?
    ensures SessionInv(Exec(steps).value) && OwnInv(Exec(steps).value) && ShareInv(Exec(steps).value)
  {
    var place, stage := RunInv(steps);
  }

  lemma RunReads(steps: seq<Step>)
    requires Exec(steps).Some?
    ensures ReadInv(Exec(steps).value) && Conserved(Exec(steps).value.reader)
  {
    var place, stage := RunInv(steps);
  }

  lemma RunReplies(steps: seq<Step>)
    requires Exec(steps).Some?
    ensures IdInv(Exec(steps).value) && ReplyInv(Exec(steps).value)
  {
    var place, stage := RunInv(steps);
  }

  // ---------------------------------------------------------------------------------------
  // Requests
  // ---------------------------------------------------------------------------------------

  /** No request handler is called twice, and only handlers of posted requests are called. */
  lemma HandlersCalledAtMostOnce(steps: seq<Step>)
    requires Exec(steps).Some?
    ensures var c := Exec(steps).value;
            && (forall i, j :: 0 <= i < j < |c.answers| ==> c.answers[i].token != c.answers[j].token)
            && (forall i :: 0 <= i < |c.answers| ==> c.answers[i].token < c.posted)
  {
    var place := RunPlaced(steps);
  }

  datatype Whereabouts = AsTask | InQueue | InSend | InFlight | WasAnswered | WasRefused

  ghost predicate IsHeld(c: Conn, token: nat, w: Whereabouts) {
    match w
    case AsTask =>
      exists i :: 0 <= i < |c.tasks.pending| && c.tasks.pending[i].RunRequest? && c.tasks.pending[i].token == token
    case InQueue =>
      exists i :: 0 <= i < |c.tasks.pending| && c.tasks.pending[i].SendNext? && c.tasks.pending[i].handler.RequestSent?
                  && c.tasks.pending[i].handler.token == token
    case InSend =>
      exists op :: op in c.sender.outstanding && op < |c.sender.handed| && c.sender.handed[op].handler.RequestSent?
                   && c.sender.handed[op].handler.token == token
    case InFlight => exists id :: id in c.inFlight && c.inFlight[id].token == token
    case WasAnswered => exists k :: 0 <= k < |c.answers| && c.answers[k].token == token
    case WasRefused => RefusedIn(c.sender.refused, token)
  }

  function PlaceKind(p: Place): Option<Whereabouts> {
    match p
    case Posted(_) => Some(AsTask)
    case Queued(_) => Some(InQueue)
    case SendingAs(_) => Some(InSend)
    case Flying(_) => Some(Whereabouts.InFlight)
    case Answered(_) => Some(WasAnswered)
    case Dropped(_) => Some(WasRefused)
    case Held => None
  }

  lemma HeldWherePlaced(c: Conn, place: Placement, token: nat, w: Whereabouts)
    requires Placed(c, place, {}) && token < c.posted
    ensures IsHeld(c, token, w) ==> PlaceKind(place[token]) == Some(w)
    ensures PlaceKind(place[token]) == Some(w) ==> IsHeld(c, token, w)
  {
    assert IsAt(c, token, place[token], {});
  }

  /** Conservation of requests: while the run goes on, the handler of every posted request is in
      exactly one of the six places. */
  lemma RequestsConserved(steps: seq<Step>, token: nat)
    requires Exec(steps).Some? && Exec(steps).value.halted.None? && token < Exec(steps).value.posted
    ensures var c := Exec(steps).value;
            exists w :: IsHeld(c, token, w) && forall w' :: IsHeld(c, token, w') ==> w' == w
  {
    var c := Exec(steps).value;
    var place := RunPlaced(steps);
    assert IsAt(c, token, place[token], {});
    var w := PlaceKind(place[token]).value;
    HeldWherePlaced(c, place, token, w);
    forall w' | IsHeld(c, token, w') ensures w' == w {
      HeldWherePlaced(c, place, token, w');
    }
  }

  /** A request in flight is never forgotten: its own timeout wait is pending and not aborted. */
  lemma InFlightHasTimer(steps: seq<Step>, id: nat)
    requires Exec(steps).Some? && id in Exec(steps).value.inFlight
    ensures var c := Exec(steps).value;
            exists w :: w in c.timers.waits && c.timers.waits[w].kind == RequestTimeoutWait(id)
                        && !c.timers.waits[w].status.Aborted?
  {
    RunTimers(steps);
    var c := Exec(steps).value;
    assert c.inFlight[id].wait in c.timers.waits;
  }

  /** Nothing is pending: no task, socket operation or timer. */
  predicate Quiescent(c: Conn) {
    && c.halted.None?
    && c.tasks.pending == []
    && !c.reader.connecting && c.reader.receiving.None? && c.sender.outstanding == {}
    && c.timers.waits == map[]
  }

  /** Exactly once: whenever a run comes to rest, nothing is in flight, and each posted request's
      handler has been called exactly once, unless its packet was refused, in which case it has not
      been called; and that is so exactly if its task ran while connected, with a route of the
      dictionary, when fifty packets were queued. */
  lemma QuiescenceMeansExactlyOnce(steps: seq<Step>)
    requires Exec(steps).Some? && Quiescent(Exec(steps).value)
    ensures var c := Exec(steps).value;
            && c.inFlight == map[]
            && (forall token: nat :: token < c.posted ==>
                  && (IsHeld(c, token, WasAnswered) <==> !IsHeld(c, token, WasRefused))
                  && (IsHeld(c, token, WasAnswered) <==> !exists n: nat :: TurnedAwayAt(steps, token, n)))
            && (forall i, j :: 0 <= i < j < |c.answers| ==> c.answers[i].token != c.answers[j].token)
  {
    var c := Exec(steps).value;
    var place := RunPlaced(steps);
    RunTimers(steps);
    HandlersCalledAtMostOnce(steps);
    assert forall id :: id in c.inFlight ==> c.inFlight[id].wait in c.timers.waits;
    forall token: nat | token < c.posted
      ensures IsHeld(c, token, WasAnswered) <==> !IsHeld(c, token, WasRefused)
      ensures IsHeld(c, token, WasAnswered) <==> !exists n: nat :: TurnedAwayAt(steps, token, n)
    {
      RefusedIff(steps, token);
      RequestsConserved(steps, token);
      HeldWherePlaced(c, place, token, WasAnswered);
      HeldWherePlaced(c, place, token, WasRefused);
      assert IsAt(c, token, place[token], {});
    }
  }

  /** Correct matching: an Ok or ServerError answer passes on a response received for the id that
      the request's own packet carried on the wire, with its data and its error flag. */
  lemma RepliesMatchRequests(steps: seq<Step>, k: nat)
    requires Exec(steps).Some? && k < |Exec(steps).value.answers| && FromServer(Exec(steps).value.answers[k])
    ensures var c := Exec(steps).value;
            exists op: nat, r: nat ::
              && op < |c.sender.handed| && r < |c.responses|
              && ReplyTo(c.answers[k], c.sender.handed[op], c.responses[r])
              && c.sender.handed[op].packet.ptype == Data
              && |c.sender.handed[op].packet.body| >= 1
              && Varint.Decode(c.sender.handed[op].packet.body, 1).Id?
              && Varint.Decode(c.sender.handed[op].packet.body, 1).value == c.responses[r].id
  {
    var c := Exec(steps).value;
    RunReplies(steps);
    RunSends(steps);
    assert Justified(c.answers[k], c.sender.handed, c.responses);
    var op: nat, r: nat :|
      op < |c.sender.handed| && r < |c.responses| && ReplyTo(c.answers[k], c.sender.handed[op], c.responses[r]);
    assert c.sender.handed[op] == c.sender.accepted[op];
    assert Belongs(c.sender.accepted[op]);
    WireCarriesId(c.sender.handed[op].packet, c.sender.handed[op].handler.id);
  }

  /** Before the 64-bit id counter wraps, no two answers pass on responses for the same id. */
  lemma ResponsesAnswerOneRequest(steps: seq<Step>, i: nat, j: nat, op: nat, op': nat, m: Message, m': Message)
    requires Exec(steps).Some? && Exec(steps).value.issued < TWO_TO_64
    requires var c := Exec(steps).value;
             && i < j < |c.answers| && op < |c.sender.handed| && op' < |c.sender.handed|
             && ReplyTo(c.answers[i], c.sender.handed[op], m) && ReplyTo(c.answers[j], c.sender.handed[op'], m')
    ensures m.id != m'.id
  {
    var c := Exec(steps).value;
    RunReplies(steps);
    RunSends(steps);
    HandlersCalledAtMostOnce(steps);
    if m.id == m'.id {
      SameIdMeansWrapped(c, op, op');
    }
  }

  /** Before the counter wraps, the id of an answered request is not in flight again, so a late
      response for it answers nobody and its timeout, already queued or not, changes nothing. */
  lemma LateRepliesAreIgnored(steps: seq<Step>, op: nat, m: Message)
    requires Exec(steps).Some? && Exec(steps).value.issued < TWO_TO_64
    requires var c := Exec(steps).value;
             && op < |c.sender.handed| && c.sender.handed[op].handler.RequestSent?
             && IsHeld(c, c.sender.handed[op].handler.token, WasAnswered)
             && m.id == c.sender.handed[op].handler.id
    ensures var c := Exec(steps).value;
            && m.id !in c.inFlight
            && ProcessMessage(c, m) == c.(responses := ProcessMessage(c, m).responses)
            && ProcessRequestTimeout(c, m.id) == c
  {
    var c := Exec(steps).value;
    RunReplies(steps);
    RunSends(steps);
    var place := RunPlaced(steps);
    if m.id in c.inFlight {
      var op': nat :| CameFrom(c.sender, op', m.id, c.inFlight[m.id].token);
      if op' != op {
        SameIdMeansWrapped(c, op, op');
      }
      AnsweredIsNotFlying(c, place, m.id);
    }
  }

  lemma AnsweredIsNotFlying(c: Conn, place: Placement, id: nat)
    requires Placed(c, place, {}) && id in c.inFlight
    ensures !IsHeld(c, c.inFlight[id].token, WasAnswered)
  {
  }

  // ---------------------------------------------------------------------------------------
  // The wire and the events
  // ---------------------------------------------------------------------------------------

  /** Outbound order: a handshake, its acknowledgement, then any mix of data and heartbeats; and
      none of those before the acknowledgement's send has succeeded. */
  lemma OutboundOrder(steps: seq<Step>)
    requires Exec(steps).Some?
    ensures var c := Exec(steps).value;
            var handed := c.sender.handed;
            && (|handed| >= 1 ==> handed[0].packet.ptype == PacketType.Handshake)
            && (|handed| >= 2 ==> handed[1].packet.ptype == HandshakeAck)
            && (forall i :: 2 <= i < |handed| ==> handed[i].packet.ptype == Data || handed[i].packet.ptype == Heartbeat)
            && (|c.sender.accepted| > 2 ==>
                  |handed| >= 2 && 1 !in c.sender.outstanding && 1 !in c.sender.failed)
  {
    var c := Exec(steps).value;
    var stage := RunStage(steps);
    RunSends(steps);
    RunReplies(steps);
    HandedBelong(c);
    assert |c.sender.accepted| == |c.sender.handed| + |c.sender.queue|;
  }

  lemma HandedBelong(c: Conn)
    requires SendInv(c) && IdInv(c)
    ensures forall i :: 0 <= i < |c.sender.handed| ==> Belongs(c.sender.handed[i])
  {
    assert forall i :: 0 <= i < |c.sender.handed| ==> c.sender.accepted[i] == c.sender.handed[i];
  }

  /** The events of a run: none, a failure, a connection, or a connection lost once. */
  predicate EventTrace(events: seq<Event>) {
    || events == []
    || (|events| == 1 && (events[0].ConnectionFailedEvent? || events[0] == ConnectedEvent))
    || (|events| == 2 && events[0] == ConnectedEvent && (events[1].ConnectionErrorEvent? || events[1] == KickedEvent))
  }

  lemma EventsOfEveryRun(steps: seq<Step>)
    requires Exec(steps).Some?
    ensures var c := Exec(steps).value;
            && EventTrace(c.events)
            && (c.state.Connected? <==> c.events == [ConnectedEvent])
  {
    var stage := RunStage(steps);
  }

  /** The handshake is still under way: something of it is pending. */
  ghost predicate HandshakePending(c: Conn) {
    || c.reader.connecting
    || c.reader.receiving == Some(OnHandshakeResponse)
    || (exists h :: h in Handlers(c.tasks.pending) && !Late(h))
    || (exists op :: op in c.sender.outstanding && op < |c.sender.handed| && !Late(c.sender.handed[op].handler))
  }

  /** The handshake was started and is over, without a connection. */
  ghost predicate GaveUp(c: Conn) {
    c.started && !HandshakePending(c) && ConnectedEvent !in c.events
  }

  lemma GaveUpIff(c: Conn, stage: Stage)
    requires InStage(c, stage)
    ensures GaveUp(c) <==> stage == Dead
  {
    if stage == Up || stage == Down {
      assert c.events[0] in c.events;
    } else if stage == HelloQueued || stage == AckQueued || stage == HelloSending || stage == AckSending {
      SendingIsPending(c, stage);
    }
  }

  lemma SendingIsPending(c: Conn, stage: Stage)
    requires InStage(c, stage)
    requires stage == HelloQueued || stage == AckQueued || stage == HelloSending || stage == AckSending
    ensures HandshakePending(c)
  {
    if stage == HelloQueued || stage == AckQueued {
      var h := Handlers(c.tasks.pending)[0];
      assert h in Handlers(c.tasks.pending) && !Late(h);
    } else {
      var op := if stage == HelloSending then 0 else 1;
      assert op in c.sender.outstanding && !Late(c.sender.handed[op].handler);
    }
  }

  /** A handshake response that cannot be used, or an acknowledgement that cannot be sent. */
  predicate FailsSilently(c: Conn, s: Step)
    requires Enabled(c, s)
  {
    || (s.SendStep? && s.ec.Some? && c.sender.handed[s.op].handler.AckSent?)
    || (&& s.ReceiveStep? && c.reader.receiving == Some(OnHandshakeResponse) && s.result.ReadBytes?
        && var done := ReadDone(c.reader.buffered, s.result.chunk).0;
        done.Deliver? && |done.packets| == 1 && done.packets[0].ptype == PacketType.Handshake && !s.reply.Good?)
  }

  /** The reply ends the handshake unless more of it is to come or it can be used. */
  lemma ReplyAnnouncedIff(c: Conn, s: Step)
    requires InStage(c, AwaitingReply) && SendInv(c) && Enabled(c, s) && s.ReceiveStep?
    requires Apply(c, s).halted.None? && InStage(Apply(c, s), Dead)
    ensures Apply(c, s).events == [] <==> FailsSilently(c, s)
  {
    if s.result.ReadBytes? {
      var (done, rest) := ReadDone(c.reader.buffered, s.result.chunk);
      if done.Deliver? {
        var stage := ReplyBefore(Quiet(Noted(c, s.result), rest), done.packets, s.reply);
      }
    }
  }

  /** A step that ends the handshake without success announces it, unless it is one of those: the
      error reported then is dropped because the connection is not established. */
  lemma EndAnnouncedIff(c: Conn, stage: Stage, s: Step)
    requires InStage(c, stage) && stage != Up && stage != Down && stage != Dead
    requires SendInv(c) && Enabled(c, s)
    requires Apply(c, s).halted.None? && InStage(Apply(c, s), Dead)
    ensures Apply(c, s).events == [] <==> FailsSilently(c, s)
  {
    match s
    case PostRequest(route, data, timeout) => PostKeepsStage(c, stage, route, data, timeout);
    case TaskStep => TaskGoesOn(c, stage);
    case WaitStep(w) => RunWaitBefore(c, stage, w);
    case ConnectStep(ec) => ConnectAnnounced(c, ec);
    case ReceiveStep(_, _, _) => ReplyAnnouncedIff(c, s);
    case SendStep(_, _) => SendAnnouncedIff(c, stage, s);
    case _ =>
  }

  lemma SendAnnouncedIff(c: Conn, stage: Stage, s: Step)
    requires InStage(c, stage) && stage != Up && stage != Down && Enabled(c, s) && s.SendStep?
    requires InStage(Apply(c, s), Dead)
    ensures Apply(c, s).events == [] <==> FailsSilently(c, s)
  {
    assert stage == HelloSending || stage == AckSending;
  }

  lemma TaskGoesOn(c: Conn, stage: Stage)
    requires InStage(c, stage) && stage != Up && stage != Down && stage != Dead && SendInv(c) && c.tasks.pending != []
    ensures !InStage(RunTask(c), Dead)
  {
    var stage' := RunTaskBefore(c, stage);
  }

  lemma ConnectAnnounced(c: Conn, ec: Option<int>)
    requires InStage(c, Connecting) && SendInv(c) && InStage(ConnectDone(c, ec), Dead)
    ensures ConnectDone(c, ec).events != []
  {
    var stage' := ConnectBefore(c, ec);
  }

  /** Such a step ends the handshake. */
  lemma SilentEnds(c: Conn, stage: Stage, s: Step)
    requires InStage(c, stage) && SendInv(c) && Enabled(c, s) && FailsSilently(c, s)
    ensures stage != Dead && InStage(Apply(c, s), Dead) && Apply(c, s).events == []
  {
    if s.ReceiveStep? {
      assert stage == AwaitingReply;
      UnusableEnds(c, s);
    } else {
      assert stage == AckSending;
    }
  }

  lemma UnusableEnds(c: Conn, s: Step)
    requires InStage(c, AwaitingReply) && Enabled(c, s) && FailsSilently(c, s) && s.ReceiveStep?
    ensures InStage(Apply(c, s), Dead) && Apply(c, s).events == []
  {
    var rest := ReadDone(c.reader.buffered, s.result.chunk).1;
    assert Apply(c, s) == Quiet(Noted(c, s.result), rest);
  }

  /** A handshake that is over stays over, with nothing more announced. */
  lemma DeadStays(c: Conn, s: Step)
    requires InStage(c, Dead) && SendInv(c) && Enabled(c, s)
    ensures InStage(Apply(c, s), Dead) && Apply(c, s).events == c.events
  {
    match s
    case PostRequest(route, data, timeout) => PostKeepsStage(c, Dead, route, data, timeout);
    case TaskStep =>
      assert c.tasks.pending[0].RunRequest?;
      assert Handlers(c.tasks.pending[1..]) == Handlers(c.tasks.pending);
    case WaitStep(w) => RunWaitBefore(c, Dead, w);
    case _ =>
  }

  ghost predicate FailsSilentlyAt(steps: seq<Step>, n: nat) {
    Taken(steps, n) && FailsSilently(Exec(steps[..n]).value, steps[n])
  }

  lemma {:induction false} SilentIsFinal(steps: seq<Step>, n: nat)
    requires Exec(steps).Some? && FailsSilentlyAt(steps, n)
    ensures InStage(Exec(steps).value, Dead) && Exec(steps).value.events == []
  {
    var last := LastTaken(steps);
    var before := steps[..last];
    RunSends(before);
    if n == last {
      var stage := RunStage(before);
      SilentEnds(Exec(before).value, stage, steps[last]);
    } else {
      assert before[..n] == steps[..n];
      SilentIsFinal(before, n);
      DeadStays(Exec(before).value, steps[last]);
    }
  }

  /** A handshake that is over without a connection was announced as failed, unless a step of the
      run failed silently. */
  lemma {:induction false} HandshakeFailureAnnouncedIff(steps: seq<Step>)
    requires Exec(steps).Some? && Exec(steps).value.halted.None? && GaveUp(Exec(steps).value)
    ensures Exec(steps).value.events == [] <==> exists n: nat :: FailsSilentlyAt(steps, n)
  {
    var c := Exec(steps).value;
    if n: nat :| FailsSilentlyAt(steps, n) {
      SilentIsFinal(steps, n);
    } else {
      var last := LastTaken(steps);
      var before := steps[..last];
      var stage := RunStage(before);
      var stage' := RunStage(steps);
      RunSends(before);
      GaveUpIff(c, stage');
      if stage == Dead {
        GaveUpIff(Exec(before).value, stage);
        DeadStays(Exec(before).value, steps[last]);
        forall n: nat ensures !FailsSilentlyAt(before, n) {
          assert FailsSilentlyAt(before, n) ==> before[..n] == steps[..n] && FailsSilentlyAt(steps, n);
        }
        HandshakeFailureAnnouncedIff(before);
      } else if stage == Up || stage == Down {
        EstablishedIsNotDead(Exec(before).value, stage, steps[last]);
      } else {
        assert !FailsSilentlyAt(steps, last);
        EndAnnouncedIff(Exec(before).value, stage, steps[last]);
      }
    }
  }

  lemma EstablishedIsNotDead(c: Conn, stage: Stage, s: Step)
    requires Established(c, stage) && Enabled(c, s)
    ensures !InStage(Apply(c, s), Dead)
  {
    var stage' := StepAfter(c, stage, s);
  }

  // ---------------------------------------------------------------------------------------
  // Causes
  // ---------------------------------------------------------------------------------------

  /** Step n gave answer k, and had grounds to. */
  ghost predicate AnsweredAt(steps: seq<Step>, k: nat, a: Answer, n: nat) {
    && Taken(steps, n)
    && var c := Exec(steps[..n]).value;
    && |c.answers| <= k < |Apply(c, steps[n]).answers| && Apply(c, steps[n]).answers[k] == a
    && AnswerCause(c, steps[n], a)
  }

  /** Step n broadcast event k, and had grounds to. */
  ghost predicate BroadcastAt(steps: seq<Step>, k: nat, e: Event, n: nat) {
    && Taken(steps, n)
    && var c := Exec(steps[..n]).value;
    && |c.events| == k < |Apply(c, steps[n]).events| && Apply(c, steps[n]).events[k] == e
    && EventCause(c, steps[n], e)
  }

  lemma LastStep(steps: seq<Step>) returns (n: nat)
    requires steps != [] && Exec(steps).Some?
    ensures n == |steps| - 1 && Taken(steps, n) && Exec(steps).value == Apply(Exec(steps[..n]).value, steps[n])
    ensures Grounded(Exec(steps[..n]).value, steps[n])
  {
    n := LastTaken(steps);
    var stage := RunStage(steps[..n]);
    StepGrounded(Exec(steps[..n]).value, steps[n]);
  }

  /** Every handler call of every run has its cause: the request was not connected when its task ran,
      its packet could not be sent, its timer expired while it was in flight, or a response for it
      arrived while it was in flight. No handler is given Reset. */
  lemma {:induction false} EveryAnswerHasACause(steps: seq<Step>, k: nat) returns (n: nat)
    requires Exec(steps).Some? && k < |Exec(steps).value.answers|
    ensures AnsweredAt(steps, k, Exec(steps).value.answers[k], n)
    ensures !Exec(steps).value.answers[k].status.Reset?
  {
    n := LastStep(steps);
    var before := steps[..n];
    if k < |Exec(before).value.answers| {
      n := EveryAnswerHasACause(before, k);
      assert before[..n] == steps[..n];
    } else {
      assert NewAnswer(Exec(before).value, Exec(steps).value, Exec(steps).value.answers[k]);
    }
  }

  /** Step n of the run has the cause for this answer. */
  ghost predicate AnswerDueAt(steps: seq<Step>, a: Answer, n: nat) {
    Taken(steps, n) && AnswerCause(Exec(steps[..n]).value, steps[n], a)
  }

  /** The converse as well: after every run, a handler has been given this answer if and only if some
      step of the run had the cause for it. In particular the first response for a request in flight
      is passed on to it. */
  lemma {:induction false} AnsweredIff(steps: seq<Step>, a: Answer)
    requires Exec(steps).Some?
    ensures a in Exec(steps).value.answers <==> exists n: nat :: AnswerDueAt(steps, a, n)
  {
    if steps != [] {
      var last := LastStep(steps);
      var before := steps[..last];
      AnsweredIff(before, a);
      forall n: nat | n < last ensures AnswerDueAt(before, a, n) <==> AnswerDueAt(steps, a, n) {
        assert before[..n] == steps[..n];
      }
      AnswerIsOldOrNew(Exec(before).value, Exec(steps).value, a);
      assert AnswerDueAt(steps, a, last) <==> NewAnswer(Exec(before).value, Exec(steps).value, a);
      assert forall n: nat :: AnswerDueAt(steps, a, n) ==> n <= last;
      assert forall n: nat :: AnswerDueAt(before, a, n) ==> n < last;
    }
  }

  lemma AnswerIsOldOrNew(c: Conn, d: Conn, a: Answer)
    requires c.answers <= d.answers
    ensures a in d.answers <==> a in c.answers || NewAnswer(c, d, a)
  {
    assert d.answers == c.answers + d.answers[|c.answers|..];
  }

  /** The same for every event: each one of every run has its cause. */
  lemma {:induction false} EveryEventHasACause(steps: seq<Step>, k: nat) returns (n: nat)
    requires Exec(steps).Some? && k < |Exec(steps).value.events|
    ensures BroadcastAt(steps, k, Exec(steps).value.events[k], n)
  {
    n := LastStep(steps);
    var before := steps[..n];
    if k < |Exec(before).value.events| {
      n := EveryEventHasACause(before, k);
      assert before[..n] == steps[..n];
    } else {
      assert NewEvent(Exec(before).value, Exec(steps).value, Exec(steps).value.events[k]);
    }
  }

  /** Step n of the run has the cause for this event. */
  ghost predicate EventDueAt(steps: seq<Step>, e: Event, n: nat) {
    Taken(steps, n) && EventCause(Exec(steps[..n]).value, steps[n], e)
  }

  /** After every run, an event has been broadcast if and only if some step had the cause for it. */
  lemma {:induction false} BroadcastIff(steps: seq<Step>, e: Event)
    requires Exec(steps).Some?
    ensures e in Exec(steps).value.events <==> exists n: nat :: EventDueAt(steps, e, n)
  {
    if steps != [] {
      var last := LastStep(steps);
      var before := steps[..last];
      BroadcastIff(before, e);
      forall n: nat | n < last ensures EventDueAt(before, e, n) <==> EventDueAt(steps, e, n) {
        assert before[..n] == steps[..n];
      }
      EventIsOldOrNew(Exec(before).value, Exec(steps).value, e);
      assert EventDueAt(steps, e, last) <==> NewEvent(Exec(before).value, Exec(steps).value, e);
      assert forall n: nat :: EventDueAt(steps, e, n) ==> n <= last;
      assert forall n: nat :: EventDueAt(before, e, n) ==> n < last;
    }
  }

  lemma EventIsOldOrNew(c: Conn, d: Conn, e: Event)
    requires c.events <= d.events
    ensures e in d.events <==> e in c.events || NewEvent(c, d, e)
  {
    assert d.events == c.events + d.events[|c.events|..];
  }

  ghost predicate LaunchedAt(steps: seq<Step>, id: nat, n: nat) {
    Taken(steps, n) && Launches(Exec(steps[..n]).value, steps[n], id)
  }

  ghost predicate LandedAt(steps: seq<Step>, id: nat, n: nat) {
    Taken(steps, n) && Lands(Exec(steps[..n]).value, steps[n], id)
  }

  /** Step n launched the request with this id, and none since has landed it. */
  ghost predicate FliesSince(steps: seq<Step>, id: nat, n: nat) {
    LaunchedAt(steps, id, n) && forall m: nat :: n < m < |steps| ==> !LandedAt(steps, id, m)
  }

  lemma SameInRun(steps: seq<Step>, last: nat, id: nat, n: nat)
    requires n < last < |steps|
    ensures LaunchedAt(steps[..last], id, n) == LaunchedAt(steps, id, n)
    ensures LandedAt(steps[..last], id, n) == LandedAt(steps, id, n)
  {
    assert steps[..last][..n] == steps[..n];
  }

  /** A request is in flight exactly from the success of its send until its timeout runs or a
      response for it is processed. */
  lemma {:induction false} InFlightIff(steps: seq<Step>, id: nat)
    requires Exec(steps).Some?
    ensures id in Exec(steps).value.inFlight <==> exists n: nat :: FliesSince(steps, id, n)
  {
    if steps != [] {
      var last := LastTaken(steps);
      var before, s := steps[..last], steps[last];
      var c := Exec(before).value;
      InFlightIff(before, id);
      StepFlights(c, s);
      assert LandedAt(steps, id, last) <==> Lands(c, s, id);
      assert LaunchedAt(steps, id, last) <==> Launches(c, s, id);
      forall n: nat | n < last
        ensures FliesSince(steps, id, n) <==> FliesSince(before, id, n) && !LandedAt(steps, id, last)
      {
        FliesOn(steps, id, n, last);
      }
      assert FliesSince(steps, id, last) <==> LaunchedAt(steps, id, last);
      assert forall n: nat :: FliesSince(steps, id, n) ==> n <= last;
      assert forall n: nat :: FliesSince(before, id, n) ==> n < last;
    }
  }

  lemma FliesOn(steps: seq<Step>, id: nat, n: nat, last: nat)
    requires n < last == |steps| - 1
    ensures FliesSince(steps, id, n) <==> FliesSince(steps[..last], id, n) && !LandedAt(steps, id, last)
  {
    forall m: nat | m < last
      ensures LaunchedAt(steps[..last], id, m) == LaunchedAt(steps, id, m)
      ensures LandedAt(steps[..last], id, m) == LandedAt(steps, id, m)
    {
      SameInRun(steps, last, id, m);
    }
  }

  // ---------------------------------------------------------------------------------------
  // Heartbeats
  // ---------------------------------------------------------------------------------------

  /** An expired wait expired in a step of the run, at the time it says. */
  lemma {:induction false} ExpiredWhen(steps: seq<Step>, w: nat) returns (m: nat)
    requires Exec(steps).Some? && w in Exec(steps).value.timers.waits
    requires Exec(steps).value.timers.waits[w].status.Expired?
    ensures Taken(steps, m) && steps[m] == Expire(w)
    ensures Exec(steps[..m]).value.timers.now == Exec(steps).value.timers.waits[w].status.at
  {
    m := LastTaken(steps);
    var before := steps[..m];
    Timeouts.StepExpires(Exec(before).value, steps[m], w);
    var c := Exec(before).value;
    if w in c.timers.waits && c.timers.waits[w] == Exec(steps).value.timers.waits[w] {
      m := ExpiredWhen(before, w);
      assert before[..m] == steps[..m];
    }
  }

  /** A heartbeat timeout is raised, by step n, only if the timeout wait had expired, in step m, at a
      time at least three intervals after the connection was established, with no heartbeat of the
      server processed before that time. */
  lemma HeartbeatTimeoutIsJustified(steps: seq<Step>) returns (m: nat, n: nat, w: nat)
    requires Exec(steps).Some? && TIMEOUT_EVENT in Exec(steps).value.events
    ensures m < n && Taken(steps, m) && steps[m] == Expire(w) && Taken(steps, n) && steps[n] == WaitStep(w)
    ensures var at := Exec(steps[..m]).value.timers.now;
            var c := Exec(steps[..n]).value;
            && c.state.Connected? && c.timers.waits[w] == Wait(HeartbeatTimeoutWait, Expired(at))
            && Heartbeats.Overdue(c.session, at, c.timers.now)
    ensures var c := Exec(steps).value;
            exists at :: Heartbeats.Overdue(c.session, at, c.timers.now)
  {
    RunHeartbeats(steps);
    var events := Exec(steps).value.events;
    var k: nat :| k < |events| && events[k] == TIMEOUT_EVENT;
    n := EveryEventHasACause(steps, k);
    w := steps[n].wait;
    RunHeartbeats(steps[..n]);
    m := ExpiredWhen(steps[..n], w);
    assert steps[..n][..m] == steps[..m];
  }

  /** An established connection is never unattended: a receive is pending, the next tick will come,
      and until a heartbeat of the server is processed so will the heartbeat timeout. So a run that
      has come to rest is not connected. */
  lemma EstablishedIsAttended(steps: seq<Step>)
    requires Exec(steps).Some? && Exec(steps).value.halted.None?
    ensures var c := Exec(steps).value;
            && (c.state.Connected? ==>
                  && c.reader.receiving == Some(OnPackets)
                  && Live(c.timers, c.state.tick) && c.timers.waits[c.state.tick].kind.TickWait?
                  && (c.session.heartbeats == [] ==> TimeoutLive(c.timers, c.state.timeout)))
            && (Quiescent(c) ==> c.state.Inited?)
  {
    RunAttended(steps);
  }

  /** A timeout that is still being waited for means that no heartbeat has been processed. */
  lemma WaitingTimeoutMeansNoHeartbeat(steps: seq<Step>, w: nat)
    requires Exec(steps).Some? && Exec(steps).value.state.Connected?
    requires TimeoutLive(Exec(steps).value.timers, w) && Exec(steps).value.timers.waits[w].status.Waiting?
    ensures Exec(steps).value.session.heartbeats == []
  {
    RunHeartbeats(steps);
  }

  lemma {:induction false} StaysDeaf(steps: seq<Step>, more: seq<Step>)
    requires Exec(steps).Some? && Deaf(Exec(steps).value)
    ensures Exec(steps + more).Some? ==> Deaf(Exec(steps + more).value)
  {
    if more == [] {
      assert steps + more == steps;
    } else if Exec(steps + more).Some? {
      var last := |more| - 1;
      var all := steps + more;
      assert all[..|all| - 1] == steps + more[..last] && all[|all| - 1] == more[last];
      StaysDeaf(steps, more[..last]);
      var stage := RunStage(steps + more[..last]);
      StepStaysDeaf(Exec(steps + more[..last]).value, stage, more[last]);
    }
  }

  /** A live timeout wait leads to a timeout if nothing else happens. */
  lemma TimeoutRuns(steps: seq<Step>, w: nat) returns (more: seq<Step>)
    requires Exec(steps).Some? && Exec(steps).value.halted.None? && Exec(steps).value.state.Connected?
    requires TimeoutLive(Exec(steps).value.timers, w)
    ensures Exec(steps + more).Some? && TIMEOUT_EVENT in Exec(steps + more).value.events
  {
    var c := Exec(steps).value;
    more := [];
    assert steps + [] == steps;
    if c.timers.waits[w].status.Waiting? {
      var time := c.timers.waits[w].status.deadline;
      ExecAppend(steps, [], Elapse(time));
      ExecAppend(steps, [] + [Elapse(time)], Expire(w));
      more := [] + [Elapse(time)] + [Expire(w)];
    }
    ExecAppend(steps, more, WaitStep(w));
    more := more + [WaitStep(w)];
    var d := Exec(steps + more).value;
    assert d.events[|d.events| - 1] == TIMEOUT_EVENT;
  }

  /** While connected, some continuation of the run raises a heartbeat timeout if and only if no
      heartbeat of the server has been processed, or the timeout had already expired when the first
      one was and its callback has not run yet. */
  lemma TimeoutPossibleIff(steps: seq<Step>)
    requires Exec(steps).Some? && Exec(steps).value.halted.None? && Exec(steps).value.state.Connected?
    ensures var c := Exec(steps).value;
            (exists more :: Exec(steps + more).Some? && TIMEOUT_EVENT in Exec(steps + more).value.events) <==>
            || c.session.heartbeats == []
            || (c.state.timeout in c.timers.waits && c.timers.waits[c.state.timeout].status.Expired?)
  {
    var c := Exec(steps).value;
    LiveTimeoutIff(steps);
    if w :| TimeoutLive(c.timers, w) {
      var more := TimeoutRuns(steps, w);
    } else {
      EventsOfEveryRun(steps);
      assert c.events == [ConnectedEvent] && c.events[0] in c.events;
      assert Deaf(c);
      forall more | Exec(steps + more).Some? ensures TIMEOUT_EVENT !in Exec(steps + more).value.events {
        StaysDeaf(steps, more);
      }
    }
  }

  /** The same condition in terms of the waits. */
  lemma LiveTimeoutIff(steps: seq<Step>)
    requires Exec(steps).Some? && Exec(steps).value.state.Connected?
    ensures var c := Exec(steps).value;
            (exists w :: TimeoutLive(c.timers, w)) <==>
            || c.session.heartbeats == []
            || (c.state.timeout in c.timers.waits && c.timers.waits[c.state.timeout].status.Expired?)
  {
    var c := Exec(steps).value;
    RunAttended(steps);
    RunHeartbeats(steps);
    var w := c.state.timeout;
    if c.session.heartbeats == [] || (w in c.timers.waits && c.timers.waits[w].status.Expired?) {
      assert TimeoutLive(c.timers, w);
    }
  }

  lemma UnannouncedSession(steps: seq<Step>)
    requires Exec(steps).Some?
    ensures ConnectedEvent !in Exec(steps).value.events ==> Exec(steps).value.session.ticks == 0
  {
    var stage := RunStage(steps);
    var c := Exec(steps).value;
    assert stage == Up || stage == Down ==> c.events[0] in c.events;
  }

  /** The steps of a run in which an expired tick ran while connected. */
  ghost function TicksRun(steps: seq<Step>): nat {
    if steps == [] then 0
    else
      var init, s := steps[..|steps| - 1], steps[|steps| - 1];
      TicksRun(init) +
      if Exec(init).Some? && Enabled(Exec(init).value, s) && Heartbeats.TickRuns(Exec(init).value, s) then 1 else 0
  }

  lemma {:induction false} OneBeatPerTick(steps: seq<Step>)
    requires Exec(steps).Some?
    ensures Heartbeats.Offered(Exec(steps).value.sender) == TicksRun(steps)
  {
    if steps != [] {
      var last := LastTaken(steps);
      OneBeatPerTick(steps[..last]);
      Heartbeats.StepOffers(Exec(steps[..last]).value, steps[last]);
    }
  }

  /** One heartbeat packet is offered per tick that runs while connected and no other, and n of them
      take at least n intervals from the time the connection was established. */
  lemma HeartbeatsArePaced(steps: seq<Step>)
    requires Exec(steps).Some?
    ensures var c := Exec(steps).value;
            var beats := Heartbeats.Offered(c.sender);
            && beats == TicksRun(steps) == c.session.ticks
            && (ConnectedEvent !in c.events ==> beats == 0)
            && c.session.since + beats * c.session.interval <= c.timers.now
  {
    OneBeatPerTick(steps);
    RunHeartbeats(steps);
    UnannouncedSession(steps);
  }

  /** A connection that was lost, or never established, is not established again. */
  lemma {:induction false} LostForGood(steps: seq<Step>, more: seq<Step>)
    requires Exec(steps).Some? && Exec(steps).value.state.Inited? && Exec(steps).value.events != []
    requires Exec(steps + more).Some?
    ensures Exec(steps).value.events <= Exec(steps + more).value.events
    ensures Exec(steps + more).value.state.Inited?
    decreases |more|
  {
    if more == [] {
      assert steps + more == steps;
    } else {
      var before, s := LastOfMore(steps, more);
      LostForGood(steps, before);
      var stage := RunStage(steps + before);
      StepGrounded(Exec(steps + before).value, s);
      EventsOfEveryRun(steps);
      EventsOfEveryRun(steps + more);
    }
  }

  /** No heartbeat is sent outside Connected: once the connection is lost, or the handshake has
      failed, no continuation of the run offers another one. */
  lemma {:induction false} NoBeatsOnceLost(steps: seq<Step>, more: seq<Step>)
    requires Exec(steps).Some? && Exec(steps).value.state.Inited? && Exec(steps).value.events != []
    requires Exec(steps + more).Some?
    ensures Heartbeats.Offered(Exec(steps + more).value.sender) == Heartbeats.Offered(Exec(steps).value.sender)
    decreases |more|
  {
    if more == [] {
      assert steps + more == steps;
    } else {
      var before, s := LastOfMore(steps, more);
      NoBeatsOnceLost(steps, before);
      LostForGood(steps, before);
      Heartbeats.StepOffers(Exec(steps + before).value, s);
    }
  }

  /** Step n of the run processed a heartbeat of the server while connected. */
  ghost predicate HearsAt(steps: seq<Step>, n: nat) {
    Taken(steps, n) && Hears(Exec(steps[..n]).value, steps[n])
  }

  /** The heartbeats counted are those that were processed: there are none if and only if no step of
      the run processed a heartbeat packet while connected. */
  lemma {:induction false} HeardIff(steps: seq<Step>)
    requires Exec(steps).Some?
    ensures Exec(steps).value.session.heartbeats != [] <==> exists n: nat :: HearsAt(steps, n)
  {
    if steps != [] {
      var last := LastTaken(steps);
      var before := steps[..last];
      HeardIff(before);
      LastHears(steps, last);
      SameHeard(steps, last);
      assert forall n: nat :: HearsAt(steps, n) ==> n <= last;
      assert forall n: nat :: HearsAt(before, n) ==> n < last;
    }
  }

  lemma SameHeard(steps: seq<Step>, last: nat)
    requires last < |steps|
    ensures forall n: nat :: n < last ==> (HearsAt(steps[..last], n) <==> HearsAt(steps, n))
  {
    forall n: nat | n < last ensures HearsAt(steps[..last], n) <==> HearsAt(steps, n) {
      assert steps[..last][..n] == steps[..n];
    }
  }

  lemma LastHears(steps: seq<Step>, last: nat)
    requires Exec(steps).Some? && last == |steps| - 1 && Taken(steps, last)
    ensures Exec(steps).value.session.heartbeats != [] <==>
            Exec(steps[..last]).value.session.heartbeats != [] || HearsAt(steps, last)
  {
    var before := steps[..last];
    var c, s := Exec(before).value, steps[last];
    var stage := RunStage(before);
    RunSends(before);
    if Establishes(c, s) {
      AckIsSecond(c, stage, s);
    }
    StepHears(c, s);
  }

  // ---------------------------------------------------------------------------------------
  // The send pipeline and the assertions
  // ---------------------------------------------------------------------------------------

  /** Send pairing: as many posted sends as queued packets, never more than fifty, and packets are
      handed to the socket in acceptance order, each with the callback it was accepted with. */
  lemma SendsArePaired(steps: seq<Step>)
    requires Exec(steps).Some?
    ensures var c := Exec(steps).value;
            && |c.sender.queue| == |Handlers(c.tasks.pending)| <= 50
            && c.sender.accepted == c.sender.handed + Zip(c.sender.queue, Handlers(c.tasks.pending))
  {
    RunSends(steps);
  }

  /** Write-buffer accounting, until the 32-bit id wraps. */
  lemma WriteBuffersAreExact(steps: seq<Step>)
    requires Exec(steps).Some? && Exec(steps).value.halted.None?
    requires |Exec(steps).value.sender.handed| < TWO_TO_32
    ensures var s := Exec(steps).value.sender;
            && s.writeId == |s.handed|
            && s.writeBuffers.Keys == s.outstanding + s.failed
            && (forall i :: i in s.writeBuffers ==>
                  i < s.writeId && s.writeBuffers[i] == Serialize(s.handed[i].packet))
  {
    RunSends(steps);
    ExactBeforeWrap(Exec(steps).value.sender);
  }

  /** Byte conservation and chunk independence over runs: whatever was read and however it was cut
      up, the packets delivered so far, serialized, followed by the bytes held, are all bytes read;
      and while a receive is pending, both are what one parse of all of them gives. */
  lemma BytesConserved(steps: seq<Step>)
    requires Exec(steps).Some?
    ensures var c := Exec(steps).value;
            && SerializeAll(c.reader.delivered) + c.reader.buffered == c.reader.received
            && ParseAll(c.reader.received) == ParseAll(c.reader.buffered).Prepend(c.reader.delivered)
            && (c.halted.None? && c.reader.receiving.Some? ==>
                  ParseAll(c.reader.received) == Parsed(c.reader.delivered, c.reader.buffered))
  {
    var r := Exec(steps).value.reader;
    RunReads(steps);
    ParseFrames(r.delivered, r.buffered);
    assert r.delivered + [] == r.delivered;
  }

  /** Read progress: while a receive is pending the buffer holds one incomplete frame, and it has no
      room left only if that frame is larger than the whole buffer. So the assertion that a receive
      returns bytes fails only on such a frame; and a receive that returns runs into it exactly if
      the buffer is full. */
  lemma NoRoomMeansOversizeFrame(steps: seq<Step>)
    requires Exec(steps).Some?
    ensures var c := Exec(steps).value;
            && |c.reader.buffered| <= 2048
            && (c.halted.None? && c.reader.receiving.Some? ==>
                  && NextFrame(c.reader.buffered) == Incomplete
                  && (|c.reader.buffered| == 2048 ==> Oversize(c.reader.buffered)))
            && (c.halted == Some(ZeroByteRead) ==> Oversize(c.reader.buffered))
    ensures forall s :: Enabled(Exec(steps).value, s) && s.ReceiveStep? && s.result.ReadBytes? ==>
              (Apply(Exec(steps).value, s).halted == Some(ZeroByteRead) <==>
               |Exec(steps).value.reader.buffered| == 2048)
  {
    RunReads(steps);
    var c := Exec(steps).value;
    if c.halted.None? && c.reader.receiving.Some? && |c.reader.buffered| == 2048 {
      FullMeansOversize(c.reader.buffered);
    }
    forall s | Enabled(c, s) && s.ReceiveStep? && s.result.ReadBytes?
      ensures Apply(c, s).halted == Some(ZeroByteRead) <==> |c.reader.buffered| == 2048
    {
      StepHaltsIff(c, s, ZeroByteRead);
    }
  }

  lemma {:induction false} ReadsOn(steps: seq<Step>, more: seq<Step>)
    requires Exec(steps).Some? && Exec(steps + more).Some?
    ensures Exec(steps).value.reader.received <= Exec(steps + more).value.reader.received
    decreases |more|
  {
    if more == [] {
      assert steps + more == steps;
    } else {
      var before, s := LastOfMore(steps, more);
      ReadsOn(steps, before);
      StepReadsOn(Exec(steps + before).value, s);
    }
  }

  /** The run goes on to a receive with no room, before another packet is delivered. */
  ghost predicate GetsStuck(steps: seq<Step>, more: seq<Step>) {
    && Exec(steps).Some? && Exec(steps + more).Some?
    && Exec(steps + more).value.halted == Some(ZeroByteRead)
    && Exec(steps + more).value.reader.delivered == Exec(steps).value.reader.delivered
  }

  lemma StuckIsOversize(steps: seq<Step>, more: seq<Step>)
    requires GetsStuck(steps, more) && |Exec(steps).value.reader.buffered| >= HEADER_SIZE
    ensures 4 + HeaderLength(Exec(steps).value.reader.buffered) > 2048
  {
    var r, t := Exec(steps).value.reader, Exec(steps + more).value.reader;
    RunReads(steps);
    RunReads(steps + more);
    ReadsOn(steps, more);
    SamePrefix(SerializeAll(r.delivered), r.buffered, t.buffered);
    assert HeaderLength(t.buffered) == HeaderLength(r.buffered);
  }

  lemma SamePrefix(a: Bytes, b: Bytes, c: Bytes)
    requires a + b <= a + c
    ensures b <= c
  {
    assert (a + b)[|a|..] == b && (a + c)[|a|..] == c;
    assert a + b == (a + c)[..|a + b|];
    assert b == c[..|b|];
  }

  lemma OversizeGetsStuck(steps: seq<Step>, reply: HandshakeReply, inflate: Bytes -> Option<Bytes>)
    returns (more: seq<Step>)
    requires Exec(steps).Some? && Exec(steps).value.halted.None? && Exec(steps).value.reader.receiving.Some?
    requires |Exec(steps).value.reader.buffered| >= HEADER_SIZE
    requires 4 + HeaderLength(Exec(steps).value.reader.buffered) > 2048
    ensures GetsStuck(steps, more)
  {
    var c := Exec(steps).value;
    RunReads(steps);
    var more': seq<Step> := [];
    assert steps + more' == steps;
    var room := 2048 - |c.reader.buffered|;
    if room > 0 {
      var chunk: Bytes := seq(room, _ => 0);
      FillUp(c, chunk, reply, inflate);
      ExecAppend(steps, more', ReceiveStep(ReadBytes(chunk), reply, inflate));
      more' := more' + [ReceiveStep(ReadBytes(chunk), reply, inflate)];
    }
    var s := ReceiveStep(ReadBytes([]), reply, inflate);
    NothingReturned(Exec(steps + more').value, s);
    ExecAppend(steps, more', s);
    more := more' + [s];
  }

  lemma NothingReturned(c: Conn, s: Step)
    requires c.halted.None? && c.reader.receiving.Some? && |c.reader.buffered| == 2048
    requires s.ReceiveStep? && s.result == ReadBytes([])
    ensures Enabled(c, s) && Apply(c, s).halted == Some(ZeroByteRead)
    ensures Apply(c, s).reader.delivered == c.reader.delivered
  {
    assert c.reader.delivered + [] == c.reader.delivered;
  }

  /** A read of more bytes of a frame that does not fit. */
  lemma FillUp(c: Conn, chunk: Bytes, reply: HandshakeReply, inflate: Bytes -> Option<Bytes>)
    requires c.halted.None? && c.reader.receiving.Some? && NextFrame(c.reader.buffered) == Incomplete
    requires |c.reader.buffered| >= HEADER_SIZE && |c.reader.buffered| + |chunk| == 2048 && chunk != []
    requires 4 + HeaderLength(c.reader.buffered) > 2048
    ensures var s := ReceiveStep(ReadBytes(chunk), reply, inflate);
            && Enabled(c, s)
            && var d := Apply(c, s);
            && d.halted.None? && d.reader.receiving.Some? && d.reader.buffered == c.reader.buffered + chunk
            && d.reader.delivered == c.reader.delivered
  {
    var all := c.reader.buffered + chunk;
    assert HeaderLength(all) == HeaderLength(c.reader.buffered);
    assert NextFrame(all) == Incomplete;
    assert c.reader.delivered + [] == c.reader.delivered;
  }

  /** When the read loop can get stuck on a frame whose header has arrived: exactly if the length the
      header announces does not fit the buffer. */
  lemma StuckIff(steps: seq<Step>)
    requires Exec(steps).Some? && Exec(steps).value.halted.None? && Exec(steps).value.reader.receiving.Some?
    requires |Exec(steps).value.reader.buffered| >= HEADER_SIZE
    ensures (exists more :: GetsStuck(steps, more)) <==>
            4 + HeaderLength(Exec(steps).value.reader.buffered) > 2048
  {
    if 4 + HeaderLength(Exec(steps).value.reader.buffered) > 2048 {
      var more := OversizeGetsStuck(steps, BadJson, _ => None);
    }
    forall more | GetsStuck(steps, more)
      ensures 4 + HeaderLength(Exec(steps).value.reader.buffered) > 2048
    {
      StuckIsOversize(steps, more);
    }
  }

  /** What ends a run: exactly the cause in its last step. */
  lemma RunEndsIff(steps: seq<Step>, s: Step, h: Halt)
    requires Exec(steps).Some? && Enabled(Exec(steps).value, s)
    ensures Exec(steps + [s]).Some?
    ensures Exec(steps + [s]).value.halted == Some(h) <==> HaltCause(Exec(steps).value, s, h)
  {
    var all := Extend(steps, s);
    StepHaltsIff(Exec(steps).value, s, h);
  }

  /** Which assertions can fail: never the one on an empty send queue or an empty batch; the write
      id one only after 2^32 sends, the request id one only after 2^64 requests. */
  lemma AssertionsHold(steps: seq<Step>)
    requires Exec(steps).Some?
    ensures var c := Exec(steps).value;
            && c.halted != Some(EmptySendQueue)
            && c.halted != Some(EmptyBatch)
            && (c.halted == Some(WriteIdReused) ==> |c.sender.handed| >= TWO_TO_32)
            && (c.halted == Some(DuplicateRequestId) ==> c.issued >= TWO_TO_64)
  {
    var place, stage := RunInv(steps);
  }
}
