/** Every run can come to rest: whatever has happened, the pending work can be finished without another
    request being posted, so the theorem about runs at rest is about every run. */
module Settling {
  import opened Prelude
  import opened Runtime
  import opened Protocol
  import opened Runs
  import opened SendPipeline
  import opened Refusals
  import opened Theorems

  /** No request is posted and the connection is not started in these steps. */
  ghost predicate NoCalls(more: seq<Step>) {
    forall i :: 0 <= i < |more| ==> !more[i].PostRequest? && !more[i].Start?
  }

  /** Not connected, no connect and no receive pending. */
  predicate Offline(c: Conn) {
    c.halted.None? && c.state.Inited? && !c.reader.connecting && c.reader.receiving.None?
  }

  /** The packets accepted so far have not used up the write ids. */
  predicate IdsLeft(s: Sender) { |s.accepted| < TWO_TO_32 }

  /** The same requests have been posted and the same packets refused. */
  predicate Kept(c: Conn, d: Conn) { d.posted == c.posted && d.sender.refused == c.sender.refused }

  // ---------------------------------------------------------------------------------------
  // Each kind of step
  // ---------------------------------------------------------------------------------------

  /** A connect that fails. */
  lemma ConnectFails(c: Conn)
    requires c.halted.None? && c.reader.connecting && c.reader.receiving.None? && c.state.Inited?
    ensures Enabled(c, ConnectStep(Some(1)))
    ensures var d := Apply(c, ConnectStep(Some(1))); Offline(d) && d.sender == c.sender && d.posted == c.posted
  {
  }

  /** A receive that fails: nothing is received any more and the connection, if there was one, is
      lost. */
  lemma ReceiveFails(c: Conn, inflate: Bytes -> Option<Bytes>)
    requires c.halted.None? && c.reader.receiving.Some? && !c.reader.connecting
    ensures var s := ReceiveStep(ReadFailed(1), BadJson, inflate);
            && Enabled(c, s)
            && var d := Apply(c, s); Offline(d) && d.sender == c.sender && d.posted == c.posted
  {
  }

  /** The next task, while not connected: it posts no other one. */
  lemma TaskFinishes(c: Conn)
    requires Offline(c) && SendInv(c) && IdsLeft(c.sender) && c.tasks.pending != []
    ensures Enabled(c, TaskStep)
    ensures var d := Apply(c, TaskStep);
            && Offline(d) && d.tasks.pending == c.tasks.pending[1..]
            && d.sender.accepted == c.sender.accepted && Kept(c, d)
  {
    if c.tasks.pending[0].SendNext? {
      var hs := Handlers(c.tasks.pending);
      assert hs != [] && hs[0] == c.tasks.pending[0].handler;
      assert |c.sender.accepted| == |c.sender.handed| + |c.sender.queue|;
      SendingIsExact(c.sender, hs[0]);
    }
  }

  /** A send that fails, while not connected. */
  lemma SendFails(c: Conn, op: nat)
    requires Offline(c) && c.tasks.pending == [] && op in c.sender.outstanding && op < |c.sender.handed|
    ensures Enabled(c, SendStep(op, Some(1)))
    ensures var d := Apply(c, SendStep(op, Some(1)));
            && Offline(d) && d.tasks.pending == [] && d.sender.outstanding == c.sender.outstanding - {op}
            && Kept(c, d)
  {
  }

  /** At rest but for the waits. */
  predicate OnlyWaits(c: Conn) {
    Offline(c) && c.tasks.pending == [] && c.sender.outstanding == {}
  }

  /** The callback of a finished wait, while not connected: it starts no other one. */
  lemma WaitFinishes(c: Conn, w: nat)
    requires OnlyWaits(c) && w in c.timers.waits && !c.timers.waits[w].status.Waiting?
    ensures Enabled(c, WaitStep(w))
    ensures var d := Apply(c, WaitStep(w));
            && OnlyWaits(d) && d.timers.waits.Keys == c.timers.waits.Keys - {w} && Kept(c, d)
  {
  }

  /** A wait that is still waiting expires once its time has come. */
  lemma WaitExpires(c: Conn, w: nat) returns (time: nat)
    requires OnlyWaits(c) && w in c.timers.waits && c.timers.waits[w].status.Waiting?
    ensures Enabled(c, Elapse(time)) && Enabled(Apply(c, Elapse(time)), Expire(w))
    ensures var d := Apply(Apply(c, Elapse(time)), Expire(w));
            && OnlyWaits(d) && d.timers.waits.Keys == c.timers.waits.Keys && Kept(c, d)
            && !d.timers.waits[w].status.Waiting?
  {
    time := c.timers.waits[w].status.deadline;
  }

  // ---------------------------------------------------------------------------------------
  // One after the other
  // ---------------------------------------------------------------------------------------

  /** `steps'` continues `steps` without calls of the client. */
  ghost predicate Continues(steps: seq<Step>, steps': seq<Step>) {
    && Exec(steps).Some? && Exec(steps').Some? && steps <= steps' && NoCalls(steps'[|steps|..])
    && Kept(Exec(steps).value, Exec(steps').value)
  }

  lemma OneMore(steps: seq<Step>, steps': seq<Step>, s: Step) returns (steps'': seq<Step>)
    requires Continues(steps, steps') && Enabled(Exec(steps').value, s) && !s.PostRequest? && !s.Start?
    requires Kept(Exec(steps').value, Apply(Exec(steps').value, s))
    ensures Continues(steps, steps'') && Exec(steps'').value == Apply(Exec(steps').value, s)
  {
    steps'' := Extend(steps', s);
    assert steps''[|steps|..] == steps'[|steps|..] + [s];
  }

  lemma GoOffline(steps: seq<Step>, inflate: Bytes -> Option<Bytes>) returns (steps': seq<Step>)
    requires Exec(steps).Some? && Exec(steps).value.halted.None?
    ensures Continues(steps, steps') && Offline(Exec(steps').value)
    ensures Exec(steps').value.sender == Exec(steps).value.sender
  {
    var c := Exec(steps).value;
    steps' := steps;
    assert steps'[|steps|..] == [];
    var stage := RunStage(steps);
    EstablishedIsAttended(steps);
    if c.reader.connecting {
      ConnectFails(c);
      steps' := OneMore(steps, steps', ConnectStep(Some(1)));
    } else if c.reader.receiving.Some? {
      ReceiveFails(c, inflate);
      steps' := OneMore(steps, steps', ReceiveStep(ReadFailed(1), BadJson, inflate));
    }
  }

  lemma {:induction false} RunTasks(steps: seq<Step>, steps': seq<Step>) returns (steps'': seq<Step>)
    requires Continues(steps, steps') && Offline(Exec(steps').value) && IdsLeft(Exec(steps').value.sender)
    ensures Continues(steps, steps'') && Offline(Exec(steps'').value) && Exec(steps'').value.tasks.pending == []
    decreases |Exec(steps').value.tasks.pending|
  {
    steps'' := steps';
    if Exec(steps').value.tasks.pending != [] {
      RunSends(steps');
      TaskFinishes(Exec(steps').value);
      steps'' := OneMore(steps, steps', TaskStep);
      steps'' := RunTasks(steps, steps'');
    }
  }

  lemma {:induction false} FailSends(steps: seq<Step>, steps': seq<Step>) returns (steps'': seq<Step>)
    requires Continues(steps, steps') && Offline(Exec(steps').value) && Exec(steps').value.tasks.pending == []
    ensures Continues(steps, steps'') && OnlyWaits(Exec(steps'').value)
    decreases |Exec(steps').value.sender.outstanding|
  {
    steps'' := steps';
    var ops := Exec(steps').value.sender.outstanding;
    if op :| op in ops {
      RunSends(steps');
      SendFails(Exec(steps').value, op);
      steps'' := OneMore(steps, steps', SendStep(op, Some(1)));
      steps'' := FailSends(steps, steps'');
    }
  }

  lemma {:induction false} FinishWaits(steps: seq<Step>, steps': seq<Step>) returns (steps'': seq<Step>)
    requires Continues(steps, steps') && OnlyWaits(Exec(steps').value)
    ensures Continues(steps, steps'') && OnlyWaits(Exec(steps'').value) && Exec(steps'').value.timers.waits == map[]
    decreases |Exec(steps').value.timers.waits.Keys|
  {
    steps'' := steps';
    var c := Exec(steps').value;
    if w :| w in c.timers.waits.Keys {
      if c.timers.waits[w].status.Waiting? {
        var time := WaitExpires(c, w);
        steps'' := OneMore(steps, steps'', Elapse(time));
        steps'' := OneMore(steps, steps'', Expire(w));
      }
      WaitFinishes(Exec(steps'').value, w);
      steps'' := OneMore(steps, steps'', WaitStep(w));
      steps'' := FinishWaits(steps, steps'');
    }
  }

  /** Every run that has not ended can come to rest without another call of the client, as long as
      the 32-bit write ids have not been used up; and it then has answered exactly those requests
      that had not been refused before. */
  lemma CanComeToRest(steps: seq<Step>) returns (more: seq<Step>)
    requires Exec(steps).Some? && Exec(steps).value.halted.None? && IdsLeft(Exec(steps).value.sender)
    ensures NoCalls(more) && Exec(steps + more).Some? && Quiescent(Exec(steps + more).value)
    ensures forall token: nat :: token < Exec(steps).value.posted ==>
              (IsHeld(Exec(steps + more).value, token, WasAnswered) <==>
               !RefusedIn(Exec(steps).value.sender.refused, token))
  {
    var steps' := GoOffline(steps, _ => None);
    steps' := RunTasks(steps, steps');
    steps' := FailSends(steps, steps');
    steps' := FinishWaits(steps, steps');
    more := steps'[|steps|..];
    assert steps + more == steps';
    QuiescenceMeansExactlyOnce(steps');
  }
}
