/** What is sent: exactly which packet each step offers to the send queue, in literal bytes, with which
    callback, and what becomes of it. */
module Offers {
  import opened Prelude
  import opened Packets
  import opened Framing
  import opened Messages
  import opened Runtime
  import opened Protocol
  import opened SendPipeline
  import opened Heartbeats
  import opened Halts
  import Varint
  import Wire

  /** The text of the handshake in ASCII, row by row. */
  const HELLO: Bytes :=
    [123, 34, 115, 121, 115, 34, 58, 32, 123]
    + [34, 112, 108, 97, 116, 102, 111, 114, 109, 34, 58, 32, 34, 109, 97, 99, 34, 44, 32]
    + [34, 108, 105, 98, 86, 101, 114, 115, 105, 111, 110, 34, 58, 32]
    + [34, 48, 46, 51, 46, 53, 45, 114, 101, 108, 101, 97, 115, 101, 34, 44, 32]
    + [34, 99, 108, 105, 101, 110, 116, 66, 117, 105, 108, 100, 78, 117, 109, 98, 101, 114, 34, 58, 32]
    + [34, 50, 48, 34, 44, 32]
    + [34, 99, 108, 105, 101, 110, 116, 86, 101, 114, 115, 105, 111, 110, 34, 58, 32, 34, 50, 46, 49, 34]
    + [125, 44, 32, 34, 117, 115, 101, 114, 34, 58, 32, 123, 125, 125]

  /** The bytes of a request without data: flag, id and the two bytes of the route's code. */
  function RequestBytes(id: nat, code: int): Bytes {
    [1] + Varint.Encode(id) + [code / 256 % 256, code % 256]
  }

  /** The server's response is one handshake packet, and it can be used. */
  predicate Negotiates(c: Conn, s: Step) {
    && s.ReceiveStep? && c.reader.receiving == Some(OnHandshakeResponse) && s.reply.Good?
    && |Delivered(c, s)| == 1 && Delivered(c, s)[0].ptype == PacketType.Handshake
  }

  /** The request in front is run while connected, with a route of the dictionary. */
  predicate RunsRequest(c: Conn, s: Step)
    requires Enabled(c, s)
  {
    && s.TaskStep? && c.tasks.pending[0].RunRequest? && c.state.Connected?
    && c.tasks.pending[0].route in c.state.routeToCode
  }

  /** The packet that a step offers to be sent, with its callback. */
  function Offer(c: Conn, s: Step): Option<Sent>
    requires Enabled(c, s)
  {
    if RunsRequest(c, s) then
      var t := c.tasks.pending[0];
      Some(Sent(Packet(Data, RequestBytes(c.reqId, c.state.routeToCode[t.route])),
                RequestSent(c.reqId, t.token, t.timeout)))
    else if s.ConnectStep? && s.ec.None? then
      Some(Sent(Packet(PacketType.Handshake, HELLO), HandshakeSent))
    else if Negotiates(c, s) then
      Some(Sent(Packet(HandshakeAck, []), AckSent(s.reply.interval, s.reply.dict)))
    else if TickRuns(c, s) then Some(Sent(Packet(Heartbeat, []), HeartbeatSent))
    else None
  }

  /** The tasks left when the step's own task, if it runs one, is taken off. */
  function TasksLeft(c: Conn, s: Step): seq<Task>
    requires Enabled(c, s)
  {
    if s.TaskStep? then c.tasks.pending[1..]
    else if s.PostRequest? then c.tasks.pending + [RunRequest(c.posted, s.route, s.data, s.timeout)]
    else c.tasks.pending
  }

  /** With fifty packets queued the packet is refused; otherwise it is accepted, and one task to send
      it is posted behind all others. */
  ghost predicate OffersExact(c: Conn, s: Step)
    requires Enabled(c, s)
  {
    var d := Apply(c, s);
    match Offer(c, s)
    case None =>
      && d.sender.accepted == c.sender.accepted && d.sender.refused == c.sender.refused
      && d.tasks.pending == TasksLeft(c, s)
    case Some(sent) =>
      if |c.sender.queue| < 50 then
        && d.sender.accepted == c.sender.accepted + [sent] && d.sender.refused == c.sender.refused
        && d.tasks.pending == TasksLeft(c, s) + [SendNext(sent.handler)]
      else
        && d.sender.accepted == c.sender.accepted && d.sender.refused == c.sender.refused + [sent]
        && d.tasks.pending == TasksLeft(c, s)
  }

  // ---------------------------------------------------------------------------------------

  lemma TaskOffersExactly(c: Conn, s: Step)
    requires Enabled(c, s) && s.TaskStep?
    ensures OffersExact(c, s)
  {
    var t := c.tasks.pending[0];
    if t.RunRequest? && c.state.Connected? && t.route in c.state.routeToCode {
      var m := NewRequest(c.reqId, t.route, t.data);
      Wire.RequestOnWire(m, c.state.routeToCode);
      var bytes := RequestBytes(c.reqId, c.state.routeToCode[t.route]);
      assert bytes + [] == bytes;
      assert Messages.Encode(m, c.state.routeToCode) == Some(bytes);
    }
  }

  lemma BytesAppend(a: string, b: string)
    ensures BytesOf(a + b) == BytesOf(a) + BytesOf(b)
  {
  }

  lemma HelloPlatform()
    ensures BytesOf("{\"sys\": {") == [123, 34, 115, 121, 115, 34, 58, 32, 123]
    ensures BytesOf("\"platform\": \"mac\", ") ==
            [34, 112, 108, 97, 116, 102, 111, 114, 109, 34, 58, 32, 34, 109, 97, 99, 34, 44, 32]
  {
  }

  lemma HelloLibrary()
    ensures BytesOf("\"libVersion\": ") == [34, 108, 105, 98, 86, 101, 114, 115, 105, 111, 110, 34, 58, 32]
    ensures BytesOf("\"0.3.5-release\", ") ==
            [34, 48, 46, 51, 46, 53, 45, 114, 101, 108, 101, 97, 115, 101, 34, 44, 32]
  {
  }

  lemma HelloBuild()
    ensures BytesOf("\"clientBuildNumber\": ") ==
            [34, 99, 108, 105, 101, 110, 116, 66, 117, 105, 108, 100, 78, 117, 109, 98, 101, 114, 34, 58, 32]
    ensures BytesOf("\"20\", ") == [34, 50, 48, 34, 44, 32]
  {
  }

  lemma HelloClient()
    ensures BytesOf("\"clientVersion\": \"2.1\"") ==
            [34, 99, 108, 105, 101, 110, 116, 86, 101, 114, 115, 105, 111, 110, 34, 58, 32, 34, 50, 46, 49, 34]
    ensures BytesOf("}, \"user\": {}}") == [125, 44, 32, 34, 117, 115, 101, 114, 34, 58, 32, 123, 125, 125]
  {
  }

  lemma HelloBytes()
    ensures BytesOf(HANDSHAKE_JSON) == HELLO
  {
    HelloPlatform();
    HelloLibrary();
    HelloBuild();
    HelloClient();
    var text := "{\"sys\": {";
    BytesAppend(text, "\"platform\": \"mac\", ");
    text := text + "\"platform\": \"mac\", ";
    BytesAppend(text, "\"libVersion\": ");
    text := text + "\"libVersion\": ";
    BytesAppend(text, "\"0.3.5-release\", ");
    text := text + "\"0.3.5-release\", ";
    BytesAppend(text, "\"clientBuildNumber\": ");
    text := text + "\"clientBuildNumber\": ";
    BytesAppend(text, "\"20\", ");
    text := text + "\"20\", ";
    BytesAppend(text, "\"clientVersion\": \"2.1\"");
    text := text + "\"clientVersion\": \"2.1\"";
    BytesAppend(text, "}, \"user\": {}}");
    text := text + "}, \"user\": {}}";
  }

  lemma ConnectOffersExactly(c: Conn, s: Step)
    requires Enabled(c, s) && s.ConnectStep?
    ensures OffersExact(c, s)
  {
    HelloBytes();
  }

  lemma WaitOffersExactly(c: Conn, s: Step)
    requires Enabled(c, s) && s.WaitStep?
    ensures OffersExact(c, s)
  {
  }

  lemma SendOffersExactly(c: Conn, s: Step)
    requires Enabled(c, s) && s.SendStep?
    ensures OffersExact(c, s)
  {
    var d := Apply(c, s);
    assert d.sender.accepted == c.sender.accepted && d.sender.refused == c.sender.refused && d.tasks == c.tasks;
  }

  lemma ReplyOffersExactly(c: Conn, s: Step)
    requires Enabled(c, s) && s.ReceiveStep? && c.reader.receiving == Some(OnHandshakeResponse)
    requires Delivered(c, s) != []
    ensures OffersExact(c, s)
  {
    var c1 := Quiet(Noted(c, s.result), ReadDone(c.reader.buffered, s.result.chunk).1);
    assert Apply(c, s) == OnHandshakePackets(c1, Delivered(c, s), s.reply);
    ReplyOffers(c1, Delivered(c, s), s.reply);
  }

  lemma ReplyOffers(c: Conn, ps: seq<Packet>, reply: HandshakeReply)
    requires ps != []
    ensures var d := OnHandshakePackets(c, ps, reply);
            if |ps| == 1 && ps[0].ptype == PacketType.Handshake && reply.Good? then
              d == SendPacket(c, Packet(HandshakeAck, []), AckSent(reply.interval, reply.dict))
            else d.sender == c.sender && d.tasks == c.tasks
  {
  }

  lemma PacketsOfferNone(c: Conn, s: Step)
    requires Enabled(c, s) && s.ReceiveStep? && (c.reader.receiving == Some(OnPackets) || Delivered(c, s) == [])
    ensures OffersExact(c, s)
  {
    var d := Apply(c, s);
    var c1 := Noted(c, s.result);
    assert !Negotiates(c, s);
    match s.result
    case ReadFailed(_) => assert d.sender == c.sender && d.tasks == c.tasks;
    case ReadBytes(chunk) =>
      var (done, rest) := ReadDone(c.reader.buffered, chunk);
      if done.Deliver? {
        ProcessPacketsKeepsSends(Quiet(c1, rest), done.packets, s.inflate);
      }
      assert d.sender == c.sender && d.tasks == c.tasks;
  }

  /** Every step offers exactly this. */
  lemma StepOffersExactly(c: Conn, s: Step)
    requires Enabled(c, s)
    ensures OffersExact(c, s)
  {
    match s
    case TaskStep => TaskOffersExactly(c, s);
    case ConnectStep(_) => ConnectOffersExactly(c, s);
    case WaitStep(_) => WaitOffersExactly(c, s);
    case SendStep(_, _) => SendOffersExactly(c, s);
    case ReceiveStep(_, _, _) =>
      if c.reader.receiving == Some(OnPackets) || Delivered(c, s) == [] {
        PacketsOfferNone(c, s);
      } else {
        assert c.reader.receiving.value.OnHandshakeResponse?;
        ReplyOffersExactly(c, s);
      }
    case _ =>
  }
}
