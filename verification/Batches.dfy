/** Exactly what a batch of packets does: which requests it answers and with what, which event it
    broadcasts, and which heartbeats of the server it counts. */
module Batches {
  import opened Prelude
  import opened Packets
  import opened Framing
  import opened Messages
  import opened Runtime
  import opened Protocol
  import opened Halts

  type Inflate = Bytes -> Option<Bytes>

  /** The i-th packet is processed, and the connection is still established then. */
  ghost predicate Reached(st: State, ps: seq<Packet>, i: nat, inflate: Inflate) {
    i < |ps| && StillUp(st, ps, i, inflate) && forall j :: 0 <= j < i ==> !Fatal(st, ps, j, inflate)
  }

  /** The response that a packet carries, if it does. */
  function ReplyIn(p: Packet, codeToRoute: map<int, string>, inflate: Inflate): Option<Message> {
    if p.ptype == Data && Messages.Decode(p.body, codeToRoute, inflate).Ok?
       && Messages.Decode(p.body, codeToRoute, inflate).msg.mtype == Response
    then Some(Messages.Decode(p.body, codeToRoute, inflate).msg) else None
  }

  /** The i-th packet is processed and carries a response for this id. */
  ghost predicate RepliesAt(st: State, ps: seq<Packet>, i: nat, inflate: Inflate, id: nat) {
    && Reached(st, ps, i, inflate)
    && var m := ReplyIn(ps[i], st.codeToRoute, inflate);
    m.Some? && m.value.id == id
  }

  /** One of the first n packets does. */
  ghost predicate RepliedTo(st: State, ps: seq<Packet>, n: nat, inflate: Inflate, id: nat) {
    exists j: nat :: j < n && RepliesAt(st, ps, j, inflate, id)
  }

  /** The i-th packet is the first response for a request in flight, which is given this answer. */
  ghost predicate AnswersAt(st: State, inFlight: map<nat, InFlight>, ps: seq<Packet>, i: nat, inflate: Inflate,
                            a: Answer) {
    && Reached(st, ps, i, inflate)
    && var r := ReplyIn(ps[i], st.codeToRoute, inflate);
    && r.Some? && r.value.id in inFlight && !RepliedTo(st, ps, i, inflate, r.value.id)
    && a == Answer(inFlight[r.value.id].token, if r.value.error then ServerError else StatusOk, r.value.data)
  }

  /** The i-th packet takes the connection down: a kick, or a message that cannot be decoded. */
  ghost predicate BreaksAt(st: State, ps: seq<Packet>, i: nat, inflate: Inflate, e: Event) {
    && Reached(st, ps, i, inflate)
    && (|| (ps[i].ptype == Kick && e == KickedEvent)
        || (&& ps[i].ptype == Data && Messages.Decode(ps[i].body, st.codeToRoute, inflate).Malformed?
            && e == ConnectionErrorEvent(InvalidMessage)))
  }

  ghost predicate BeatsAt(st: State, ps: seq<Packet>, i: nat, inflate: Inflate) {
    Reached(st, ps, i, inflate) && ps[i].ptype == Heartbeat
  }

  // Some packet of the batch does.

  ghost predicate SomeAnswers(st: State, inFlight: map<nat, InFlight>, ps: seq<Packet>, inflate: Inflate, a: Answer) {
    exists i: nat :: AnswersAt(st, inFlight, ps, i, inflate, a)
  }

  ghost predicate SomeBreaks(st: State, ps: seq<Packet>, inflate: Inflate, e: Event) {
    exists i: nat :: BreaksAt(st, ps, i, inflate, e)
  }

  ghost predicate SomeBeats(st: State, ps: seq<Packet>, inflate: Inflate) {
    exists i: nat :: BeatsAt(st, ps, i, inflate)
  }

  // What is new in a later state.

  ghost predicate NewAnswer(c: Conn, d: Conn, a: Answer) {
    |c.answers| <= |d.answers| && a in d.answers[|c.answers|..]
  }

  ghost predicate NewEvent(c: Conn, d: Conn, e: Event) {
    |c.events| <= |d.events| && e in d.events[|c.events|..]
  }

  /** Exactly the first responses for requests in flight are passed on, and those requests are no
      longer in flight. */
  ghost predicate AnswersExact(c: Conn, d: Conn, ps: seq<Packet>, inflate: Inflate) {
    && c.answers <= d.answers
    && (forall a :: NewAnswer(c, d, a) <==> SomeAnswers(c.state, c.inFlight, ps, inflate, a))
    && (forall id :: id in d.inFlight <==> id in c.inFlight && !RepliedTo(c.state, ps, |ps|, inflate, id))
    && (forall id :: id in d.inFlight ==> d.inFlight[id] == c.inFlight[id])
  }

  /** Exactly the first packet that takes the connection down is announced. */
  ghost predicate EventsExact(c: Conn, d: Conn, ps: seq<Packet>, inflate: Inflate) {
    && c.events <= d.events && |d.events| <= |c.events| + 1
    && (forall e :: NewEvent(c, d, e) <==> SomeBreaks(c.state, ps, inflate, e))
  }

  /** Heartbeats are counted, at the time of the batch, if and only if one is processed. */
  ghost predicate BeatsExact(c: Conn, d: Conn, ps: seq<Packet>, inflate: Inflate) {
    && c.session.heartbeats <= d.session.heartbeats && d.timers.now == c.timers.now
    && (forall k :: |c.session.heartbeats| <= k < |d.session.heartbeats| ==>
          d.session.heartbeats[k] == c.timers.now)
    && (d.session.heartbeats != c.session.heartbeats <==> SomeBeats(c.state, ps, inflate))
  }

  // ---------------------------------------------------------------------------------------
  // One more packet
  // ---------------------------------------------------------------------------------------

  lemma ReachedInPrefix(st: State, ps: seq<Packet>, n: nat, inflate: Inflate)
    requires n <= |ps|
    ensures forall i: nat :: i < n ==> Reached(st, ps[..n], i, inflate) == Reached(st, ps, i, inflate)
  {
    SameInPrefix(st, ps, n, inflate);
  }

  /** The last packet is reached if and only if the batch before it left the connection up. */
  lemma LastReachedIff(c: Conn, d: Conn, ps: seq<Packet>, inflate: Inflate)
    requires c.halted.None? && ps != [] && d == ProcessPackets(c, ps[..|ps| - 1], inflate)
    ensures Reached(c.state, ps, |ps| - 1, inflate) <==> d.halted.None? && d.state.Connected?
    ensures Reached(c.state, ps, |ps| - 1, inflate) ==> d.state.codeToRoute == c.state.codeToRoute
  {
    var n := |ps| - 1;
    var init := ps[..n];
    BatchRuns(c, init, inflate);
    SameInPrefix(c.state, ps, n, inflate);
    if !NoneFatal(c.state, init, inflate) {
      var k := FindFatal(c.state, init, n, inflate);
      assert Fatal(c.state, ps, k, inflate);
    } else {
      assert forall j :: 0 <= j < n ==> !Fatal(c.state, ps, j, inflate);
    }
  }

  lemma OnePacketAnswers(c: Conn, p: Packet, inflate: Inflate)
    ensures var d := ProcessPacket(c, p, inflate);
            if c.state.Connected? && ReplyIn(p, c.state.codeToRoute, inflate).Some?
               && ReplyIn(p, c.state.codeToRoute, inflate).value.id in c.inFlight then
              var m := ReplyIn(p, c.state.codeToRoute, inflate).value;
              && d.inFlight == c.inFlight - {m.id}
              && d.answers ==
                 c.answers + [Answer(c.inFlight[m.id].token, if m.error then ServerError else StatusOk, m.data)]
            else d.answers == c.answers && d.inFlight == c.inFlight
  {
  }

  lemma OnePacketBreaks(c: Conn, p: Packet, inflate: Inflate)
    ensures var d := ProcessPacket(c, p, inflate);
            if c.state.Connected? && p.ptype == Kick then d.events == c.events + [KickedEvent]
            else if c.state.Connected? && p.ptype == Data
                    && Messages.Decode(p.body, c.state.codeToRoute, inflate).Malformed?
            then d.events == c.events + [ConnectionErrorEvent(InvalidMessage)]
            else d.events == c.events
  {
  }

  lemma OnePacketBeats(c: Conn, p: Packet, inflate: Inflate)
    ensures var d := ProcessPacket(c, p, inflate);
            && d.timers.now == c.timers.now
            && d.session.heartbeats == c.session.heartbeats +
                                       if c.state.Connected? && p.ptype == Heartbeat then [c.timers.now] else []
  {
    assert c.session.heartbeats + [] == c.session.heartbeats;
  }

  // ---------------------------------------------------------------------------------------
  // Answers
  // ---------------------------------------------------------------------------------------

  lemma RepliesInPrefix(st: State, inFlight: map<nat, InFlight>, ps: seq<Packet>, n: nat, inflate: Inflate)
    requires n <= |ps|
    ensures forall i: nat, id :: i < n ==> RepliesAt(st, ps[..n], i, inflate, id) == RepliesAt(st, ps, i, inflate, id)
    ensures forall i: nat, id :: i <= n ==> RepliedTo(st, ps[..n], i, inflate, id) == RepliedTo(st, ps, i, inflate, id)
    ensures forall i: nat, a :: i < n ==>
              AnswersAt(st, inFlight, ps[..n], i, inflate, a) == AnswersAt(st, inFlight, ps, i, inflate, a)
  {
    ReachedInPrefix(st, ps, n, inflate);
  }

  lemma RepliedToLast(st: State, ps: seq<Packet>, inflate: Inflate, id: nat)
    requires ps != []
    ensures RepliedTo(st, ps, |ps|, inflate, id) <==>
            RepliedTo(st, ps, |ps| - 1, inflate, id) || RepliesAt(st, ps, |ps| - 1, inflate, id)
  {
  }

  /** A last packet that answers nobody. */
  lemma NoAnswerExact(c: Conn, d: Conn, e: Conn, ps: seq<Packet>, inflate: Inflate)
    requires ps != [] && AnswersExact(c, d, ps[..|ps| - 1], inflate)
    requires e.answers == d.answers && e.inFlight == d.inFlight
    requires forall id :: RepliesAt(c.state, ps, |ps| - 1, inflate, id) ==> id !in d.inFlight
    ensures AnswersExact(c, e, ps, inflate)
  {
    var n := |ps| - 1;
    RepliesInPrefix(c.state, c.inFlight, ps, n, inflate);
    forall id ensures id in e.inFlight <==> id in c.inFlight && !RepliedTo(c.state, ps, |ps|, inflate, id) {
      if 0 <= id {
        RepliedToLast(c.state, ps, inflate, id);
      }
    }
    forall a ensures NewAnswer(c, e, a) <==> SomeAnswers(c.state, c.inFlight, ps, inflate, a) {
      assert NewAnswer(c, e, a) <==> NewAnswer(c, d, a);
      SplitAnswers(c.state, c.inFlight, ps, inflate, a);
      assert !AnswersAt(c.state, c.inFlight, ps, n, inflate, a);
    }
  }

  lemma SplitAnswers(st: State, inFlight: map<nat, InFlight>, ps: seq<Packet>, inflate: Inflate, a: Answer)
    requires ps != []
    ensures SomeAnswers(st, inFlight, ps, inflate, a) <==>
            SomeAnswers(st, inFlight, ps[..|ps| - 1], inflate, a) || AnswersAt(st, inFlight, ps, |ps| - 1, inflate, a)
  {
    RepliesInPrefix(st, inFlight, ps, |ps| - 1, inflate);
  }

  /** A last packet that answers a request. */
  lemma OneAnswerExact(c: Conn, d: Conn, e: Conn, ps: seq<Packet>, inflate: Inflate, id: nat, a: Answer)
    requires ps != [] && AnswersExact(c, d, ps[..|ps| - 1], inflate) && id in d.inFlight
    requires RepliesAt(c.state, ps, |ps| - 1, inflate, id) && AnswersAt(c.state, c.inFlight, ps, |ps| - 1, inflate, a)
    requires e.answers == d.answers + [a] && e.inFlight == d.inFlight - {id}
    ensures AnswersExact(c, e, ps, inflate)
  {
    OneLanded(c, d, e, ps, inflate, id);
    forall b ensures NewAnswer(c, e, b) <==> SomeAnswers(c.state, c.inFlight, ps, inflate, b) {
      OneGiven(c, d, e, ps, inflate, a, b);
    }
  }

  lemma OneGiven(c: Conn, d: Conn, e: Conn, ps: seq<Packet>, inflate: Inflate, a: Answer, b: Answer)
    requires ps != [] && c.answers <= d.answers && e.answers == d.answers + [a]
    requires NewAnswer(c, d, b) <==> SomeAnswers(c.state, c.inFlight, ps[..|ps| - 1], inflate, b)
    requires AnswersAt(c.state, c.inFlight, ps, |ps| - 1, inflate, a)
    ensures NewAnswer(c, e, b) <==> SomeAnswers(c.state, c.inFlight, ps, inflate, b)
  {
    assert e.answers[|c.answers|..] == d.answers[|c.answers|..] + [a];
    SplitAnswers(c.state, c.inFlight, ps, inflate, b);
  }

  lemma OneLanded(c: Conn, d: Conn, e: Conn, ps: seq<Packet>, inflate: Inflate, id: nat)
    requires ps != [] && AnswersExact(c, d, ps[..|ps| - 1], inflate) && id in d.inFlight
    requires RepliesAt(c.state, ps, |ps| - 1, inflate, id) && e.inFlight == d.inFlight - {id}
    ensures forall id' :: id' in e.inFlight <==> id' in c.inFlight && !RepliedTo(c.state, ps, |ps|, inflate, id')
  {
    var n := |ps| - 1;
    RepliesInPrefix(c.state, c.inFlight, ps, n, inflate);
    forall id' ensures id' in e.inFlight <==> id' in c.inFlight && !RepliedTo(c.state, ps, |ps|, inflate, id') {
      if 0 <= id' {
        RepliedToLast(c.state, ps, inflate, id');
        assert RepliesAt(c.state, ps, n, inflate, id') <==> id' == id;
      }
    }
  }

  lemma NextAnswers(c: Conn, d: Conn, ps: seq<Packet>, inflate: Inflate)
    requires c.halted.None? && ps != [] && d == ProcessPackets(c, ps[..|ps| - 1], inflate) && d.halted.None?
    requires AnswersExact(c, d, ps[..|ps| - 1], inflate)
    ensures AnswersExact(c, ProcessPacket(d, ps[|ps| - 1], inflate), ps, inflate)
  {
    var n, p := |ps| - 1, ps[|ps| - 1];
    var e := ProcessPacket(d, p, inflate);
    LastReachedIff(c, d, ps, inflate);
    OnePacketAnswers(d, p, inflate);
    RepliesInPrefix(c.state, c.inFlight, ps, n, inflate);
    if d.state.Connected? && ReplyIn(p, d.state.codeToRoute, inflate).Some?
       && ReplyIn(p, d.state.codeToRoute, inflate).value.id in d.inFlight {
      var m := ReplyIn(p, d.state.codeToRoute, inflate).value;
      OneAnswerExact(c, d, e, ps, inflate, m.id, e.answers[|d.answers|]);
    } else {
      NoAnswerExact(c, d, e, ps, inflate);
    }
  }

  lemma {:induction false} BatchAnswers(c: Conn, ps: seq<Packet>, inflate: Inflate)
    requires c.halted.None?
    ensures AnswersExact(c, ProcessPackets(c, ps, inflate), ps, inflate)
  {
    if ps != [] {
      var init := ps[..|ps| - 1];
      var d := ProcessPackets(c, init, inflate);
      BatchAnswers(c, init, inflate);
      if d.halted.None? {
        NextAnswers(c, d, ps, inflate);
      } else {
        LastReachedIff(c, d, ps, inflate);
        NoAnswerExact(c, d, d, ps, inflate);
      }
    }
  }

  // ---------------------------------------------------------------------------------------
  // Events
  // ---------------------------------------------------------------------------------------

  lemma SplitBreaks(st: State, ps: seq<Packet>, inflate: Inflate, e: Event)
    requires ps != []
    ensures SomeBreaks(st, ps, inflate, e) <==>
            SomeBreaks(st, ps[..|ps| - 1], inflate, e) || BreaksAt(st, ps, |ps| - 1, inflate, e)
  {
    var init := ps[..|ps| - 1];
    ReachedInPrefix(st, ps, |ps| - 1, inflate);
    assert forall i: nat :: i < |init| ==> BreaksAt(st, init, i, inflate, e) == BreaksAt(st, ps, i, inflate, e);
  }

  lemma NextEvents(c: Conn, d: Conn, ps: seq<Packet>, inflate: Inflate)
    requires c.halted.None? && ps != [] && d == ProcessPackets(c, ps[..|ps| - 1], inflate)
    requires EventsExact(c, d, ps[..|ps| - 1], inflate) && (d.state.Connected? ==> d.events == c.events)
    ensures var e := if d.halted.Some? then d else ProcessPacket(d, ps[|ps| - 1], inflate);
            EventsExact(c, e, ps, inflate)
  {
    var n, p := |ps| - 1, ps[|ps| - 1];
    var e := if d.halted.Some? then d else ProcessPacket(d, p, inflate);
    LastReachedIff(c, d, ps, inflate);
    OnePacketBreaks(d, p, inflate);
    forall v ensures NewEvent(c, e, v) <==> SomeBreaks(c.state, ps, inflate, v) {
      SplitBreaks(c.state, ps, inflate, v);
      assert d.events == c.events ==> d.events[|c.events|..] == [];
      assert NewEvent(c, e, v) <==> NewEvent(c, d, v) || BreaksAt(c.state, ps, n, inflate, v);
    }
  }

  lemma {:induction false} BatchEvents(c: Conn, ps: seq<Packet>, inflate: Inflate)
    requires c.halted.None?
    ensures var d := ProcessPackets(c, ps, inflate);
            EventsExact(c, d, ps, inflate) && (d.state.Connected? ==> d.events == c.events)
  {
    if ps != [] {
      var init := ps[..|ps| - 1];
      BatchEvents(c, init, inflate);
      var d := ProcessPackets(c, init, inflate);
      NextEvents(c, d, ps, inflate);
      UpMeansQuiet(d, ps[|ps| - 1], inflate);
    }
  }

  lemma UpMeansQuiet(c: Conn, p: Packet, inflate: Inflate)
    ensures ProcessPacket(c, p, inflate).state.Connected? ==>
              c.state.Connected? && ProcessPacket(c, p, inflate).events == c.events
  {
  }

  // ---------------------------------------------------------------------------------------
  // Heartbeats
  // ---------------------------------------------------------------------------------------

  lemma SplitBeats(st: State, ps: seq<Packet>, inflate: Inflate)
    requires ps != []
    ensures SomeBeats(st, ps, inflate) <==>
            SomeBeats(st, ps[..|ps| - 1], inflate) || BeatsAt(st, ps, |ps| - 1, inflate)
  {
    var init := ps[..|ps| - 1];
    ReachedInPrefix(st, ps, |ps| - 1, inflate);
    assert forall i: nat :: i < |init| ==> BeatsAt(st, init, i, inflate) == BeatsAt(st, ps, i, inflate);
  }

  lemma {:induction false} BatchBeats(c: Conn, ps: seq<Packet>, inflate: Inflate)
    requires c.halted.None?
    ensures BeatsExact(c, ProcessPackets(c, ps, inflate), ps, inflate)
  {
    if ps != [] {
      var init, p := ps[..|ps| - 1], ps[|ps| - 1];
      var d := ProcessPackets(c, init, inflate);
      BatchBeats(c, init, inflate);
      LastReachedIff(c, d, ps, inflate);
      OnePacketBeats(d, p, inflate);
      SplitBeats(c.state, ps, inflate);
    }
  }
}
