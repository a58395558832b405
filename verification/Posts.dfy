/** From the call to the wire: each request's packet carries the code that the negotiated dictionary gives
    to the route of its own PostRequest call, and requests are sent in the order of the calls. */
module Posts {
  import opened Prelude
  import opened Packets
  import opened Framing
  import opened Messages
  import opened Runtime
  import opened Protocol
  import opened Runs
  import opened SendPipeline
  import opened Replies
  import opened Handshake
  import opened Offers
  import opened Sessions
  import opened Theorems
  import Varint
  import Wire

  /** The arguments of a PostRequest call. */
  datatype Post = Post(route: string, data: Bytes, timeout: nat)

  function PostIn(s: Step): seq<Post> {
    if s.PostRequest? then [Post(s.route, s.data, s.timeout)] else []
  }

  /** The calls of a run; the token of a request is the number of its call. */
  function PostsOf(steps: seq<Step>): seq<Post> {
    if steps == [] then [] else PostsOf(steps[..|steps| - 1]) + PostIn(steps[|steps| - 1])
  }

  /** The codes of the dictionary that was acknowledged. */
  function Codes(accepted: seq<Sent>): map<string, int> {
    if |accepted| >= 2 && accepted[1].handler.AckSent? then accepted[1].handler.dict.routeToCode else map[]
  }

  predicate TaskAsPosted(t: Task, posts: seq<Post>) {
    t.RunRequest? ==> t.token < |posts| && posts[t.token] == Post(t.route, t.data, t.timeout)
  }

  predicate SentAsPosted(sent: Sent, posts: seq<Post>, codes: map<string, int>) {
    sent.handler.RequestSent? ==>
      var h := sent.handler;
      && h.token < |posts| && h.timeout == posts[h.token].timeout && posts[h.token].route in codes
      && sent.packet == Packet(Data, RequestBytes(h.id, codes[posts[h.token].route]))
  }

  ghost predicate PostInv(c: Conn, posts: seq<Post>) {
    && |posts| == c.posted
    && (forall i :: 0 <= i < |c.tasks.pending| ==> TaskAsPosted(c.tasks.pending[i], posts))
    && (forall k :: 0 <= k < |c.sender.accepted| ==>
          SentAsPosted(c.sender.accepted[k], posts, Codes(c.sender.accepted)))
  }

  /** Requests wait, and have been accepted, in the order of their tokens. */
  ghost predicate InOrder(pending: seq<Task>, accepted: seq<Sent>) {
    && (forall i, j :: 0 <= i < j < |pending| && pending[i].RunRequest? && pending[j].RunRequest? ==>
          pending[i].token < pending[j].token)
    && (forall k, l :: 0 <= k < l < |accepted| && accepted[k].handler.RequestSent? && accepted[l].handler.RequestSent?
          ==> accepted[k].handler.token < accepted[l].handler.token)
    && (forall k, i :: 0 <= k < |accepted| && 0 <= i < |pending| ==>
          accepted[k].handler.RequestSent? && pending[i].RunRequest? ==>
          accepted[k].handler.token < pending[i].token)
  }

  // ---------------------------------------------------------------------------------------
  // Every step
  // ---------------------------------------------------------------------------------------

  lemma CodesKept(accepted: seq<Sent>, sent: Sent)
    requires |accepted| >= 2
    ensures Codes(accepted + [sent]) == Codes(accepted)
  {
  }

  /** Before the acknowledgement no request has been accepted. */
  lemma EarlyAreOther(c: Conn)
    requires SendInv(c) && IdInv(c) && |c.sender.accepted| < 2
    requires exists stage :: InStage(c, stage)
    ensures forall k :: 0 <= k < |c.sender.accepted| ==> !c.sender.accepted[k].handler.RequestSent?
  {
    var stage :| InStage(c, stage);
    var hs := Handlers(c.tasks.pending);
    ZipHandlers(c.sender.queue, hs);
    forall k | 0 <= k < |c.sender.accepted| ensures !c.sender.accepted[k].handler.RequestSent? {
      if k < |c.sender.handed| {
        assert c.sender.accepted[k] == c.sender.handed[k];
      } else {
        assert c.sender.accepted[k] == Zip(c.sender.queue, hs)[k - |c.sender.handed|];
        assert hs[k - |c.sender.handed|] in hs;
      }
    }
  }

  lemma {:induction false} ZipHandlers(ps: seq<Packet>, hs: seq<SendHandler>)
    requires |ps| == |hs|
    ensures forall i :: 0 <= i < |ps| ==> Zip(ps, hs)[i].handler == hs[i]
  {
    if ps != [] {
      ZipHandlers(ps[1..], hs[1..]);
      forall i | 0 <= i < |ps| ensures Zip(ps, hs)[i].handler == hs[i] {
        if i > 0 {
          assert Zip(ps, hs)[i] == Zip(ps[1..], hs[1..])[i - 1];
        }
      }
    }
  }

  lemma TasksAsPosted(c: Conn, s: Step, posts: seq<Post>)
    requires PostInv(c, posts) && Enabled(c, s)
    ensures forall i :: 0 <= i < |Apply(c, s).tasks.pending| ==>
              TaskAsPosted(Apply(c, s).tasks.pending[i], posts + PostIn(s))
  {
    StepOffersExactly(c, s);
    var d := Apply(c, s);
    var left := TasksLeft(c, s);
    forall i | 0 <= i < |left| ensures TaskAsPosted(left[i], posts + PostIn(s)) {
      if s.TaskStep? {
        assert left[i] == c.tasks.pending[i + 1];
      } else if i < |c.tasks.pending| {
        assert left[i] == c.tasks.pending[i];
      }
    }
  }

  lemma PostedGrows(c: Conn, s: Step)
    requires Enabled(c, s)
    ensures Apply(c, s).posted == c.posted + |PostIn(s)|
  {
    match s
    case ReceiveStep(_, _, _) => ReceivePosted(c, s);
    case TaskStep => TaskPosted(c);
    case SendStep(op, ec) => SendPosted(c, op, ec);
    case _ =>
  }

  lemma TaskPosted(c: Conn)
    requires c.tasks.pending != []
    ensures RunTask(c).posted == c.posted
  {
  }

  lemma SendPosted(c: Conn, op: nat, ec: Option<int>)
    requires op < |c.sender.handed|
    ensures SendDone(c, op, ec).posted == c.posted
  {
  }

  lemma {:induction false} PacketsPosted(c: Conn, ps: seq<Packet>, inflate: Bytes -> Option<Bytes>)
    ensures ProcessPackets(c, ps, inflate).posted == c.posted
  {
    if ps != [] {
      PacketsPosted(c, ps[..|ps| - 1], inflate);
    }
  }

  lemma ReceivePosted(c: Conn, s: Step)
    requires Enabled(c, s) && s.ReceiveStep?
    ensures Apply(c, s).posted == c.posted
  {
    if s.result.ReadBytes? {
      var (done, rest) := ReadDone(c.reader.buffered, s.result.chunk);
      if done.Deliver? {
        PacketsPosted(Quiet(Noted(c, s.result), rest), done.packets, s.inflate);
      }
    }
  }

  lemma OfferAsPosted(c: Conn, s: Step, posts: seq<Post>)
    requires PostInv(c, posts) && SessionInv(c) && SendInv(c) && IdInv(c) && Enabled(c, s) && Offer(c, s).Some?
    requires exists stage :: InStage(c, stage)
    ensures var accepted := c.sender.accepted + [Offer(c, s).value];
            forall k :: 0 <= k < |accepted| ==> SentAsPosted(accepted[k], posts, Codes(accepted))
  {
    var before := c.sender.accepted;
    var accepted := before + [Offer(c, s).value];
    if |before| < 2 {
      EarlyAreOther(c);
    } else {
      CodesKept(before, Offer(c, s).value);
    }
    forall k | 0 <= k < |accepted| ensures SentAsPosted(accepted[k], posts, Codes(accepted)) {
      if k < |before| {
        assert accepted[k] == before[k] && SentAsPosted(before[k], posts, Codes(before));
      } else if RunsRequest(c, s) {
        assert TaskAsPosted(c.tasks.pending[0], posts);
      }
    }
  }

  lemma MorePosts(accepted: seq<Sent>, posts: seq<Post>, more: seq<Post>)
    requires forall k :: 0 <= k < |accepted| ==> SentAsPosted(accepted[k], posts, Codes(accepted))
    ensures forall k :: 0 <= k < |accepted| ==> SentAsPosted(accepted[k], posts + more, Codes(accepted))
  {
    forall k | 0 <= k < |accepted| ensures SentAsPosted(accepted[k], posts + more, Codes(accepted)) {
      assert SentAsPosted(accepted[k], posts, Codes(accepted));
    }
  }

  lemma SentsAsPosted(c: Conn, s: Step, posts: seq<Post>)
    requires PostInv(c, posts) && SessionInv(c) && SendInv(c) && IdInv(c) && Enabled(c, s)
    requires exists stage :: InStage(c, stage)
    ensures var accepted := Apply(c, s).sender.accepted;
            forall k :: 0 <= k < |accepted| ==> SentAsPosted(accepted[k], posts + PostIn(s), Codes(accepted))
  {
    StepOffersExactly(c, s);
    if Offer(c, s).Some? {
      OfferAsPosted(c, s, posts);
    }
    MorePosts(Apply(c, s).sender.accepted, posts, PostIn(s));
  }

  lemma StepPosts(c: Conn, s: Step, posts: seq<Post>)
    requires PostInv(c, posts) && SessionInv(c) && SendInv(c) && IdInv(c) && Enabled(c, s)
    requires exists stage :: InStage(c, stage)
    ensures PostInv(Apply(c, s), posts + PostIn(s))
  {
    PostedGrows(c, s);
    TasksAsPosted(c, s, posts);
    SentsAsPosted(c, s, posts);
  }

  lemma StepInOrder(c: Conn, s: Step, posts: seq<Post>)
    requires InOrder(c.tasks.pending, c.sender.accepted) && PostInv(c, posts) && Enabled(c, s)
    ensures InOrder(Apply(c, s).tasks.pending, Apply(c, s).sender.accepted)
  {
    StepOffersExactly(c, s);
    LeftInOrder(c, s, posts);
    if Offer(c, s).Some? {
      OfferInOrder(c, s);
    }
  }

  lemma OfferInOrder(c: Conn, s: Step)
    requires InOrder(c.tasks.pending, c.sender.accepted) && Enabled(c, s) && Offer(c, s).Some?
    requires InOrder(TasksLeft(c, s), c.sender.accepted)
    ensures var sent := Offer(c, s).value;
            InOrder(TasksLeft(c, s) + [SendNext(sent.handler)], c.sender.accepted + [sent])
  {
    if RunsRequest(c, s) {
      NextInOrder(c, s);
    }
    BehindInOrder(TasksLeft(c, s), c.sender.accepted, Offer(c, s).value);
  }

  lemma BehindInOrder(pending: seq<Task>, accepted: seq<Sent>, sent: Sent)
    requires InOrder(pending, accepted) && (sent.handler.RequestSent? ==> InOrder(pending, accepted + [sent]))
    ensures InOrder(pending + [SendNext(sent.handler)], accepted + [sent])
  {
  }

  lemma LeftInOrder(c: Conn, s: Step, posts: seq<Post>)
    requires InOrder(c.tasks.pending, c.sender.accepted) && PostInv(c, posts) && Enabled(c, s)
    ensures InOrder(TasksLeft(c, s), c.sender.accepted)
  {
    var p, left, accepted := c.tasks.pending, TasksLeft(c, s), c.sender.accepted;
    if s.TaskStep? {
      assert forall i :: 0 <= i < |left| ==> left[i] == p[i + 1];
    } else if s.PostRequest? {
      assert forall i :: 0 <= i < |p| ==> left[i] == p[i] && TaskAsPosted(p[i], posts);
      assert forall k :: 0 <= k < |accepted| ==> SentAsPosted(accepted[k], posts, Codes(accepted));
    }
  }

  lemma NextInOrder(c: Conn, s: Step)
    requires InOrder(c.tasks.pending, c.sender.accepted) && Enabled(c, s) && RunsRequest(c, s)
    ensures InOrder(TasksLeft(c, s), c.sender.accepted + [Offer(c, s).value])
  {
    var p, left := c.tasks.pending, TasksLeft(c, s);
    assert forall i :: 0 <= i < |left| ==> left[i] == p[i + 1];
  }

  // ---------------------------------------------------------------------------------------
  // Every run
  // ---------------------------------------------------------------------------------------

  lemma {:induction false} RunPosts(steps: seq<Step>)
    requires Exec(steps).Some?
    ensures PostInv(Exec(steps).value, PostsOf(steps))
    ensures InOrder(Exec(steps).value.tasks.pending, Exec(steps).value.sender.accepted)
  {
    if steps != [] {
      var last := LastTaken(steps);
      var before := steps[..last];
      RunPosts(before);
      RunOwners(before);
      RunSends(before);
      RunReplies(before);
      var stage := RunStage(before);
      StepPosts(Exec(before).value, steps[last], PostsOf(before));
      StepInOrder(Exec(before).value, steps[last], PostsOf(before));
    }
  }

  /** Step n received the handshake response that was acknowledged. */
  ghost predicate NegotiatedAt(steps: seq<Step>, n: nat) {
    Taken(steps, n) && Negotiates(Exec(steps[..n]).value, steps[n])
  }

  /** An acknowledgement acknowledges a response that was received, with its interval and dictionary. */
  lemma {:induction false} AckWasNegotiated(steps: seq<Step>, k: nat) returns (n: nat)
    requires Exec(steps).Some? && k < |Exec(steps).value.sender.accepted|
    requires Exec(steps).value.sender.accepted[k].handler.AckSent?
    ensures NegotiatedAt(steps, n)
    ensures var h := Exec(steps).value.sender.accepted[k].handler; steps[n].reply == Good(h.interval, h.dict)
  {
    n := LastTaken(steps);
    var before := steps[..n];
    StepOffersExactly(Exec(before).value, steps[n]);
    if k < |Exec(before).value.sender.accepted| {
      n := AckWasNegotiated(before, k);
      assert before[..n] == steps[..n];
    }
  }

  /** An established connection works with the interval and the dictionary of the handshake response. */
  lemma SessionWasNegotiated(steps: seq<Step>) returns (n: nat)
    requires Exec(steps).Some? && Exec(steps).value.state.Connected?
    ensures NegotiatedAt(steps, n)
    ensures var st, reply := Exec(steps).value.state, steps[n].reply;
            && st.interval == reply.interval && st.routeToCode == reply.dict.routeToCode
            && st.codeToRoute == Inverse(reply.dict.order, reply.dict.routeToCode)
  {
    RunOwners(steps);
    n := AckWasNegotiated(steps, 1);
  }

  /** The packet of a request ends with the two bytes of the code that the negotiated dictionary gives to
      the route of its own PostRequest call, behind the flag and its id; its timeout is that of the
      call; and if the route can be recovered from its code, decoding it under the inverse dictionary
      gives exactly that route. */
  lemma RequestCarriesItsRoute(steps: seq<Step>, k: nat, inflate: Bytes -> Option<Bytes>) returns (n: nat)
    requires Exec(steps).Some? && k < |Exec(steps).value.sender.accepted|
    requires Exec(steps).value.sender.accepted[k].handler.RequestSent?
    ensures NegotiatedAt(steps, n)
    ensures var sent, dict := Exec(steps).value.sender.accepted[k], steps[n].reply.dict;
            var id, token := sent.handler.id, sent.handler.token;
            && token < |PostsOf(steps)|
            && var post := PostsOf(steps)[token];
            && sent.handler.timeout == post.timeout && post.route in dict.routeToCode
            && var code := dict.routeToCode[post.route];
            && sent.packet == Packet(Data, [1] + Varint.Encode(id) + [code / 256 % 256, code % 256])
            && (Recoverable(Message(Request, id, post.route, [], false), dict) ==>
                  Messages.Decode(sent.packet.body, Inverse(dict.order, dict.routeToCode), inflate) ==
                  Ok(Message(Request, id, post.route, [], false)))
  {
    var accepted := Exec(steps).value.sender.accepted;
    RunPosts(steps);
    RunReplies(steps);
    assert SentAsPosted(accepted[k], PostsOf(steps), Codes(accepted));
    n := AckWasNegotiated(steps, 1);
    var dict := steps[n].reply.dict;
    var id, token := accepted[k].handler.id, accepted[k].handler.token;
    var m := Message(Request, id, PostsOf(steps)[token].route, [], false);
    assert Belongs(accepted[k]);
    if Recoverable(m, dict) {
      MessageRoundTripIff(m, dict, inflate);
      Wire.RequestOnWire(m, dict.routeToCode);
      var bytes := RequestBytes(id, dict.routeToCode[m.route]);
      assert bytes + [] == bytes;
    }
  }

  /** Requests are accepted for sending in the order of their calls. */
  lemma RequestsKeepTheirOrder(steps: seq<Step>, k: nat, l: nat)
    requires Exec(steps).Some? && k < l < |Exec(steps).value.sender.accepted|
    requires Exec(steps).value.sender.accepted[k].handler.RequestSent?
    requires Exec(steps).value.sender.accepted[l].handler.RequestSent?
    ensures Exec(steps).value.sender.accepted[k].handler.token < Exec(steps).value.sender.accepted[l].handler.token
  {
    RunPosts(steps);
  }

  // ---------------------------------------------------------------------------------------
  // Request ids
  // ---------------------------------------------------------------------------------------

  /** The requests run while connected. */
  ghost function Issued(steps: seq<Step>): nat {
    if steps == [] then 0
    else
      var init, s := steps[..|steps| - 1], steps[|steps| - 1];
      Issued(init) + if Exec(init).Some? && Issues(Exec(init).value, s) then 1 else 0
  }

  predicate Issues(c: Conn, s: Step) {
    Enabled(c, s) && s.TaskStep? && c.tasks.pending[0].RunRequest? && c.state.Connected?
  }

  lemma StepIssues(c: Conn, s: Step)
    requires Enabled(c, s)
    ensures Apply(c, s).issued == c.issued + if Issues(c, s) then 1 else 0
  {
    match s
    case ReceiveStep(_, _, _) => ReceiveIssuesNone(c, s);
    case SendStep(op, ec) => SendIssuesNone(c, op, ec);
    case _ =>
  }

  lemma SendIssuesNone(c: Conn, op: nat, ec: Option<int>)
    requires op < |c.sender.handed|
    ensures SendDone(c, op, ec).issued == c.issued
  {
  }

  lemma ReceiveIssuesNone(c: Conn, s: Step)
    requires Enabled(c, s) && s.ReceiveStep?
    ensures Apply(c, s).issued == c.issued
  {
    if s.result.ReadBytes? {
      var (done, rest) := ReadDone(c.reader.buffered, s.result.chunk);
      if done.Deliver? {
        ProcessPacketsIds(Quiet(Noted(c, s.result), rest), done.packets, s.inflate);
      }
    }
  }

  /** The count that ids are taken from is the number of requests run while connected. */
  lemma {:induction false} IssuedCounts(steps: seq<Step>)
    requires Exec(steps).Some?
    ensures Exec(steps).value.issued == Issued(steps)
  {
    if steps != [] {
      var last := LastTaken(steps);
      IssuedCounts(steps[..last]);
      StepIssues(Exec(steps[..last]).value, steps[last]);
    }
  }

  /** A request that is run while connected, with a route of the dictionary, and finds fewer than fifty
      packets queued, is accepted with the next id, in 64 bits, counted from one. */
  lemma RequestIsAccepted(steps: seq<Step>) returns (id: nat)
    requires Exec(steps).Some? && Enabled(Exec(steps).value, TaskStep) && RunsRequest(Exec(steps).value, TaskStep)
    requires |Exec(steps).value.sender.queue| < 50
    ensures id == (Exec(steps).value.issued + 1) % 0x1_0000_0000_0000_0000
    ensures var c := Exec(steps).value;
            var t := c.tasks.pending[0];
            var code := c.state.routeToCode[t.route];
            Apply(c, TaskStep).sender.accepted == c.sender.accepted +
              [Sent(Packet(Data, [1] + Varint.Encode(id) + [code / 256 % 256, code % 256]),
                    RequestSent(id, t.token, t.timeout))]
  {
    RunReplies(steps);
    id := IdFor(Exec(steps).value, Exec(steps).value.issued);
    NextIsAccepted(Exec(steps).value, id);
  }

  lemma IdFor(c: Conn, issued: nat) returns (id: nat)
    requires IdInv(c) && c.issued == issued
    ensures id == (issued + 1) % 0x1_0000_0000_0000_0000 && c.reqId == id
  {
    id := c.reqId;
  }

  lemma NextIsAccepted(c: Conn, id: nat)
    requires Enabled(c, TaskStep) && RunsRequest(c, TaskStep) && |c.sender.queue| < 50 && c.reqId == id
    ensures var t := c.tasks.pending[0];
            var code := c.state.routeToCode[t.route];
            Apply(c, TaskStep).sender.accepted == c.sender.accepted +
              [Sent(Packet(Data, [1] + Varint.Encode(id) + [code / 256 % 256, code % 256]),
                    RequestSent(id, t.token, t.timeout))]
  {
    StepOffersExactly(c, TaskStep);
  }
}
