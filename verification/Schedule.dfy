/** Deadlines over runs: a request's timeout is due exactly as long after its send succeeded as its call
    said, no request is given up earlier, and ticks are exactly one interval apart. */
module Schedule {
  import opened Prelude
  import opened Packets
  import opened Framing
  import opened Messages
  import opened Runtime
  import opened Protocol
  import opened Runs
  import opened SendPipeline
  import opened Handshake
  import opened Timeouts
  import opened Attention
  import opened Batches
  import opened Causes
  import opened Deadlines
  import opened Offers
  import opened Sessions
  import opened Ownership
  import opened Posts
  import opened Theorems
  import Heartbeats

  /** The exact facts about the last step of a run. */
  lemma LastExact(steps: seq<Step>) returns (n: nat)
    requires steps != [] && Exec(steps).Some?
    ensures n == |steps| - 1 && Taken(steps, n) && Exec(steps).value == Apply(Exec(steps[..n]).value, steps[n])
    ensures StartsExact(Exec(steps[..n]).value, steps[n]) && FlightsExact(Exec(steps[..n]).value, steps[n])
    ensures StateExact(Exec(steps[..n]).value, steps[n])
  {
    n := LastTaken(steps);
    var c := Exec(steps[..n]).value;
    var stage := RunStage(steps[..n]);
    RunSends(steps[..n]);
    RunTimers(steps[..n]);
    if Establishes(c, steps[n]) {
      AckIsSecond(c, stage, steps[n]);
    }
    StepStarts(c, steps[n]);
    StepFlights(c, steps[n]);
    StepState(c, steps[n]);
  }

  // ---------------------------------------------------------------------------------------
  // Requests
  // ---------------------------------------------------------------------------------------

  /** The wait `w` is due at `due`: that is its deadline, and it has not expired before. */
  predicate DueAt(t: Timers, w: nat, due: nat) {
    && w in t.waits
    && match t.waits[w].status
       case Waiting(deadline) => deadline == due
       case Expired(_) => due <= t.now
       case Aborted => true
  }

  /** A wait from before stays due at the same time. */
  lemma StaysDue(c: Conn, s: Step, w: nat, due: nat)
    requires Enabled(c, s) && StartsExact(c, s) && w < c.timers.next
    requires DueAt(c.timers, w, due) && w in Apply(c, s).timers.waits
    ensures DueAt(Apply(c, s).timers, w, due)
  {
    if Apply(c, s).timers.waits[w].status.Expired? {
      StepExpires(c, s, w);
    }
  }

  /** When the timeout of the request launched in a state is due. */
  ghost predicate RequestDueAt(c: Conn, op: nat, d: Conn, id: nat)
    requires op < |c.sender.handed| && c.sender.handed[op].handler.RequestSent? && id in d.inFlight
  {
    var h := c.sender.handed[op].handler;
    && d.inFlight[id].token == h.token && d.inFlight[id].wait == c.timers.next
    && DueAt(d.timers, c.timers.next, c.timers.now + h.timeout)
  }

  lemma {:induction false} RequestWait(steps: seq<Step>, id: nat) returns (n: nat)
    requires Exec(steps).Some? && id in Exec(steps).value.inFlight
    ensures LaunchedAt(steps, id, n)
    ensures RequestDueAt(Exec(steps[..n]).value, steps[n].op, Exec(steps).value, id)
  {
    n := LastExact(steps);
    var before, s := steps[..n], steps[n];
    var c, d := Exec(before).value, Exec(steps).value;
    if id in c.inFlight {
      n := RequestWait(before, id);
      assert before[..n] == steps[..n];
      RunTimers(before);
      RunTimers(steps);
      var h := Exec(steps[..n]).value.sender.handed[steps[n].op].handler;
      StaysDue(c, s, c.inFlight[id].wait, Exec(steps[..n]).value.timers.now + h.timeout);
    } else {
      LaunchIsDue(c, s, id);
    }
  }

  lemma LaunchIsDue(c: Conn, s: Step, id: nat)
    requires Enabled(c, s) && StartsExact(c, s) && FlightsExact(c, s)
    requires id !in c.inFlight && id in Apply(c, s).inFlight
    ensures Launches(c, s, id) && RequestDueAt(c, s.op, Apply(c, s), id)
  {
    assert Launches(c, s, id);
    assert Apply(c, s).timers.waits[c.timers.next + 0] == Started(c, s)[0];
  }

  lemma {:induction false} PostsPrefix(steps: seq<Step>, n: nat)
    requires n <= |steps|
    ensures PostsOf(steps[..n]) <= PostsOf(steps)
  {
    if n < |steps| {
      var init := steps[..|steps| - 1];
      PostsPrefix(init, n);
      assert init[..n] == steps[..n];
    } else {
      assert steps[..n] == steps;
    }
  }

  /** What was handed over carries the timeout of its call. */
  lemma HandedTimeout(steps: seq<Step>, n: nat, op: nat)
    requires n <= |steps| && Exec(steps[..n]).Some? && op < |Exec(steps[..n]).value.sender.handed|
    requires Exec(steps[..n]).value.sender.handed[op].handler.RequestSent?
    ensures var h := Exec(steps[..n]).value.sender.handed[op].handler;
            h.token < |PostsOf(steps)| && h.timeout == PostsOf(steps)[h.token].timeout
  {
    var c := Exec(steps[..n]).value;
    RunPosts(steps[..n]);
    RunSends(steps[..n]);
    PostsPrefix(steps, n);
    assert c.sender.accepted[op] == c.sender.handed[op];
    assert SentAsPosted(c.sender.accepted[op], PostsOf(steps[..n]), Codes(c.sender.accepted));
  }

  /** A request in flight was launched by the step in which its send succeeded, and its timeout, while
      it waits, is due the time given in its PostRequest call later. */
  lemma RequestDeadline(steps: seq<Step>, id: nat) returns (n: nat)
    requires Exec(steps).Some? && id in Exec(steps).value.inFlight
    ensures LaunchedAt(steps, id, n)
    ensures var d := Exec(steps).value;
            var token := d.inFlight[id].token;
            && token < |PostsOf(steps)|
            && Exec(steps[..n]).value.sender.handed[steps[n].op].handler.token == token
            && DueAt(d.timers, d.inFlight[id].wait,
                     Exec(steps[..n]).value.timers.now + PostsOf(steps)[token].timeout)
  {
    n := RequestWait(steps, id);
    HandedTimeout(steps, n, steps[n].op);
  }

  lemma {:induction false} IssuedGrows(steps: seq<Step>, n: nat)
    requires Exec(steps).Some? && n <= |steps| && Exec(steps[..n]).Some?
    ensures Exec(steps[..n]).value.issued <= Exec(steps).value.issued
  {
    if n < |steps| {
      var last := LastTaken(steps);
      var before := steps[..last];
      assert before[..n] == steps[..n];
      IssuedGrows(before, n);
      StepIssues(Exec(before).value, steps[last]);
    } else {
      assert steps[..n] == steps;
    }
  }

  /** Until the ids wrap, a Timeout answer is given, by step m, no earlier than the time given in the
      request's PostRequest call after its send succeeded, in step n. */
  lemma TimeoutIsDue(steps: seq<Step>, k: nat) returns (n: nat, m: nat, id: nat)
    requires Exec(steps).Some? && k < |Exec(steps).value.answers| && Exec(steps).value.answers[k].status == Timeout
    requires Exec(steps).value.issued < TWO_TO_64
    ensures n < m && LaunchedAt(steps, id, n) && AnsweredAt(steps, k, Exec(steps).value.answers[k], m)
    ensures var token := Exec(steps).value.answers[k].token;
            && Exec(steps[..n]).value.sender.handed[steps[n].op].handler.token == token
            && token < |PostsOf(steps)|
            && Exec(steps[..n]).value.timers.now + PostsOf(steps)[token].timeout <= Exec(steps[..m]).value.timers.now
  {
    m := EveryAnswerHasACause(steps, k);
    var run := steps[..m];
    var c := Exec(run).value;
    var w := steps[m].wait;
    id := c.timers.waits[w].kind.id;
    IssuedGrows(steps, m);
    RunOwners(run);
    n := RequestWait(run, id);
    assert run[..n] == steps[..n];
    HandedTimeout(steps, n, steps[n].op);
    assert c.inFlight[id].wait == w;
  }

  // ---------------------------------------------------------------------------------------
  // Ticks
  // ---------------------------------------------------------------------------------------

  /** The step starts a tick: the connection is established or a tick runs. */
  ghost predicate StartsTick(steps: seq<Step>, n: nat) {
    && Taken(steps, n)
    && (Establishes(Exec(steps[..n]).value, steps[n]) || Heartbeats.TickRuns(Exec(steps[..n]).value, steps[n]))
  }

  lemma TickIsDue(c: Conn, s: Step)
    requires Enabled(c, s) && StartsExact(c, s) && StateExact(c, s)
    requires Establishes(c, s) || Heartbeats.TickRuns(c, s)
    ensures var d := Apply(c, s);
            && d.state.Connected? && d.state.tick == c.timers.next
            && d.timers.waits[d.state.tick] == Wait(TickWait, Waiting(c.timers.now + d.state.interval))
  {
    assert Apply(c, s).timers.waits[c.timers.next + 0] == Started(c, s)[0];
  }

  lemma RunTick(steps: seq<Step>)
    requires Exec(steps).Some? && Exec(steps).value.state.Connected?
    ensures Exec(steps).value.state.tick in Exec(steps).value.timers.waits
  {
    RunAttended(steps);
  }

  lemma SameTicks(steps: seq<Step>, last: nat)
    requires last < |steps|
    ensures forall m: nat :: m < last ==> StartsTick(steps[..last], m) == StartsTick(steps, m)
  {
    forall m: nat | m < last ensures StartsTick(steps[..last], m) == StartsTick(steps, m) {
      assert steps[..last][..m] == steps[..m];
    }
  }

  /** While connected, the next tick is due exactly one interval after the last step that started one:
      the one that established the connection, or the last tick that ran. */
  lemma {:induction false} TickDeadline(steps: seq<Step>) returns (n: nat)
    requires Exec(steps).Some? && Exec(steps).value.state.Connected?
    ensures StartsTick(steps, n) && forall m: nat :: n < m < |steps| ==> !StartsTick(steps, m)
    ensures var d := Exec(steps).value;
            DueAt(d.timers, d.state.tick, Exec(steps[..n]).value.timers.now + d.state.interval)
  {
    var last := LastExact(steps);
    var before, s := steps[..last], steps[last];
    var c := Exec(before).value;
    n := last;
    if Establishes(c, s) || Heartbeats.TickRuns(c, s) {
      TickIsDue(c, s);
    } else {
      n := TickDeadline(before);
      SameTicks(steps, last);
      assert before[..n] == steps[..n];
      RunTimers(before);
      RunTick(steps);
      TickStaysDue(c, s, Exec(steps[..n]).value.timers.now + c.state.interval);
    }
  }

  lemma TickStaysDue(c: Conn, s: Step, due: nat)
    requires Enabled(c, s) && StartsExact(c, s) && StateExact(c, s) && Timeouts.Numbered(c.timers, c.state)
    requires !Establishes(c, s) && !Heartbeats.TickRuns(c, s) && Apply(c, s).state.Connected?
    requires c.state.Connected? && DueAt(c.timers, c.state.tick, due) && c.state.tick in Apply(c, s).timers.waits
    ensures Apply(c, s).state == c.state && DueAt(Apply(c, s).timers, c.state.tick, due)
  {
    StaysDue(c, s, c.state.tick, due);
  }

  /** Time does not pass beyond the next tick of an established connection: it expires, and runs, when
      it is due. */
  ghost predicate OnTime(c: Conn, s: Step) {
    c.state.Connected? && s.Elapse? ==>
      && c.state.tick in c.timers.waits && c.timers.waits[c.state.tick].status.Waiting?
      && c.timers.now + s.time <= c.timers.waits[c.state.tick].status.deadline
  }

  ghost predicate Punctual(steps: seq<Step>) {
    forall n: nat :: Taken(steps, n) ==> OnTime(Exec(steps[..n]).value, steps[n])
  }

  /** The next tick is number `ticks` + 1, due as many intervals after the connection was established. */
  ghost predicate OnSchedule(c: Conn) {
    c.state.Connected? ==>
      var due := c.session.since + (c.session.ticks + 1) * c.session.interval;
      && c.state.tick in c.timers.waits && c.state.interval == c.session.interval
      && match c.timers.waits[c.state.tick].status
         case Waiting(deadline) => deadline == due && c.timers.now <= due
         case Expired(_) => c.timers.now == due
         case Aborted => false
  }

  lemma TickOnSchedule(c: Conn, s: Step)
    requires Enabled(c, s) && StartsExact(c, s) && StateExact(c, s) && OnSchedule(c)
    requires Heartbeats.HeartbeatInv(c) && Heartbeats.TickRuns(c, s)
    ensures OnSchedule(Apply(c, s))
  {
    TickIsDue(c, s);
    assert s.wait == c.state.tick;
    Heartbeats.NextTick(c.session.(ticks := c.session.ticks + 1));
  }

  lemma StaysOnSchedule(c: Conn, s: Step)
    requires Enabled(c, s) && StartsExact(c, s) && StateExact(c, s) && OnSchedule(c) && OnTime(c, s)
    requires !Establishes(c, s) && !Heartbeats.TickRuns(c, s)
    requires Timeouts.Numbered(c.timers, c.state)
    requires Ticking(Apply(c, s).timers, Apply(c, s).state, Apply(c, s).session)
    ensures OnSchedule(Apply(c, s))
  {
    var d := Apply(c, s);
    if d.state.Connected? && d.timers.waits[d.state.tick].status.Expired? {
      StepExpires(c, s, d.state.tick);
    }
  }

  lemma {:induction false} RunOnSchedule(steps: seq<Step>)
    requires Exec(steps).Some? && Punctual(steps)
    ensures OnSchedule(Exec(steps).value)
  {
    if steps != [] {
      var last := LastExact(steps);
      var before, s := steps[..last], steps[last];
      var c := Exec(before).value;
      forall n: nat | Taken(before, n) ensures OnTime(Exec(before[..n]).value, before[n]) {
        assert before[..n] == steps[..n] && Taken(steps, n);
      }
      RunOnSchedule(before);
      RunHeartbeats(before);
      RunAttended(steps);
      if Establishes(c, s) {
        TickIsDue(c, s);
      } else if Heartbeats.TickRuns(c, s) {
        TickOnSchedule(c, s);
      } else {
        StaysOnSchedule(c, s);
      }
    }
  }

  /** One heartbeat has been offered per full interval since the connection was established, but for
      one that is due now and has not run yet. */
  ghost predicate OnePerInterval(c: Conn) {
    var beats := Heartbeats.Offered(c.sender);
    && c.session.since + beats * c.session.interval <= c.timers.now
    && c.timers.now <= c.session.since + (beats + 1) * c.session.interval
    && (c.timers.now == c.session.since + (beats + 1) * c.session.interval ==>
          c.state.Connected? && DueAt(c.timers, c.state.tick, c.timers.now))
  }

  lemma BeatsOnSchedule(c: Conn)
    requires OnSchedule(c) && c.state.Connected? && Heartbeats.HeartbeatInv(c)
    ensures OnePerInterval(c)
  {
    assert Heartbeats.Offered(c.sender) == c.session.ticks;
  }

  /** In a run whose ticks expire and run when they are due, that holds of an established connection. */
  lemma HeartbeatsOnSchedule(steps: seq<Step>)
    requires Exec(steps).Some? && Punctual(steps) && Exec(steps).value.state.Connected?
    ensures OnePerInterval(Exec(steps).value)
  {
    RunOnSchedule(steps);
    RunHeartbeats(steps);
    BeatsOnSchedule(Exec(steps).value);
  }

  /** The session began with the step in which the acknowledgement's send succeeded. */
  lemma {:induction false} SessionBegan(steps: seq<Step>) returns (n: nat)
    requires Exec(steps).Some? && Exec(steps).value.state.Connected?
    ensures Taken(steps, n) && Establishes(Exec(steps[..n]).value, steps[n])
    ensures Exec(steps).value.session.since == Exec(steps[..n]).value.timers.now
    ensures Exec(steps).value.session.interval == Exec(steps).value.state.interval
  {
    n := LastExact(steps);
    if !Establishes(Exec(steps[..n]).value, steps[n]) {
      var before := steps[..n];
      n := SessionBegan(before);
      assert before[..n] == steps[..n];
    }
  }
}
