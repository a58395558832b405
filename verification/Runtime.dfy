/** The io_context as the connection uses it: a FIFO of posted tasks and the timer waits, plus the
    continuations that tasks, sends and receives carry. */
module Runtime {
  import opened Prelude
  import opened Messages

  /** The callback given to SendPacket. A request's handler is identified by its token, the number
      of the PostRequest call that supplied it. */
  datatype SendHandler =
    | HandshakeSent
    | AckSent(interval: nat, dict: RouteDict)
    | HeartbeatSent
    | RequestSent(id: nat, token: nat, timeout: nat)

  /** The callback given to ReceivePackets. */
  datatype ReceiveHandler = OnHandshakeResponse | OnPackets

  datatype Task =
    | RunRequest(token: nat, route: string, data: Bytes, timeout: nat)
    | SendNext(handler: SendHandler)

  datatype WaitKind = TickWait | HeartbeatTimeoutWait | RequestTimeoutWait(id: nat)

  /** A pending wait runs its callback once: with success if its timer expired while it was waiting,
      with an error if the timer was destroyed or given a new expiry before that. */
  datatype WaitStatus = Waiting(deadline: nat) | Expired(at: nat) | Aborted

  datatype Wait = Wait(kind: WaitKind, status: WaitStatus)

  /** The posted tasks. `ran` counts those already run, so that a task keeps its number while it
      queues. */
  datatype Tasks = Tasks(pending: seq<Task>, ran: nat)

  /** The pending waits by number, the number of the next one, and the clock. */
  datatype Timers = Timers(waits: map<nat, Wait>, next: nat, now: nat)

  function Post(ts: Tasks, t: Task): Tasks {
    ts.(pending := ts.pending + [t])
  }

  function PopTask(ts: Tasks): Tasks
    requires ts.pending != []
  {
    Tasks(ts.pending[1..], ts.ran + 1)
  }

  /** async_wait; the wait is known by the number `t.next`. */
  function AsyncWait(t: Timers, kind: WaitKind, deadline: nat): Timers {
    t.(waits := t.waits[t.next := Wait(kind, Waiting(deadline))], next := t.next + 1)
  }

  /** Destroying or re-timing a timer: a wait that is already queued as expired is not recalled. */
  function Cancel(t: Timers, w: nat): Timers {
    if w in t.waits && t.waits[w].status.Waiting?
    then t.(waits := t.waits[w := t.waits[w].(status := Aborted)])
    else t
  }

  /** The send callbacks in the task queue, in order. */
  function Handlers(tasks: seq<Task>): seq<SendHandler> {
    if tasks == [] then []
    else (if tasks[0].SendNext? then [tasks[0].handler] else []) + Handlers(tasks[1..])
  }

  lemma {:induction false} HandlersAppend(s: seq<Task>, t: seq<Task>)
    ensures Handlers(s + t) == Handlers(s) + Handlers(t)
  {
    if s == [] {
      assert s + t == t;
    } else {
      var first := if s[0].SendNext? then [s[0].handler] else [];
      var all := s + t;
      assert all[0] == s[0] && all[1..] == s[1..] + t;
      HandlersAppend(s[1..], t);
      calc {
        Handlers(all);
        first + Handlers(s[1..] + t);
        first + (Handlers(s[1..]) + Handlers(t));
        (first + Handlers(s[1..])) + Handlers(t);
        Handlers(s) + Handlers(t);
      }
    }
  }
}
