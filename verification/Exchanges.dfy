/** One exchange with the server in literal bytes: a response for a request in flight, on its own in one
    read, is passed on to the request. */
module Exchanges {
  import opened Prelude
  import opened Packets
  import opened Framing
  import opened Messages
  import opened Runtime
  import opened Protocol
  import opened Runs
  import opened SendPipeline
  import opened Replies
  import opened Batches
  import opened Theorems
  import Varint
  import Wire

  /** Ids in flight fit 64 bits. */
  lemma FlyingIdFits(steps: seq<Step>, id: nat)
    requires Exec(steps).Some? && id in Exec(steps).value.inFlight
    ensures id < TWO_TO_64
  {
    var c := Exec(steps).value;
    RunReplies(steps);
    RunSends(steps);
    var op: nat :| CameFrom(c.sender, op, id, c.inFlight[id].token);
    assert c.sender.handed[op] == c.sender.accepted[op];
    assert Belongs(c.sender.accepted[op]);
  }

  /** A frame on its own is delivered on its own. */
  lemma LoneFrame(body: Bytes) returns (frame: Bytes)
    requires |body| < 0x100_0000
    ensures var n := |body|; frame == [4, n / 65536, n / 256 % 256, n % 256] + body
    ensures ReadDone([], frame) == (Deliver([Packet(Data, body)]), [])
  {
    var p := Packet(Data, body);
    Wire.PacketOnWire(p);
    frame := Serialize(p);
    FrameRoundTripIff(p);
    assert [] + frame == frame;
  }

  /** The response in one batch. */
  lemma LoneReply(c: Conn, body: Bytes, m: Message, inflate: Bytes -> Option<Bytes>)
    requires c.halted.None? && c.state.Connected? && m.mtype == Response && m.id in c.inFlight
    requires Messages.Decode(body, c.state.codeToRoute, inflate) == Ok(m)
    ensures var d := ProcessPackets(c, [Packet(Data, body)], inflate);
            && d.halted.None? && d.state == c.state && m.id !in d.inFlight
            && d.answers ==
               c.answers + [Answer(c.inFlight[m.id].token, if m.error then ServerError else StatusOk, m.data)]
  {
    var p := Packet(Data, body);
    assert [p][..0] == [];
    assert ProcessPackets(c, [p], inflate) == ProcessPacket(c, p, inflate);
    OnePacketAnswers(c, p, inflate);
  }

  /** In every run, while a request is in flight, connected and with nothing buffered: the bytes of a
      Data packet with the flag 4, the request's id and some data, read at once, call the request's
      handler with Ok and that data, and with the flag 36 with ServerError; the request is then no
      longer in flight and the connection goes on. */
  lemma ResponseIsPassedOn(steps: seq<Step>, id: nat, flag: Byte, data: Bytes, reply: HandshakeReply,
                           inflate: Bytes -> Option<Bytes>)
    returns (s: Step)
    requires Exec(steps).Some? && Exec(steps).value.halted.None? && Exec(steps).value.state.Connected?
    requires id in Exec(steps).value.inFlight && Exec(steps).value.reader.buffered == []
    requires (flag == 4 || flag == 36) && 5 + |Varint.Encode(id)| + |data| <= 2048
    ensures var body := [flag] + Varint.Encode(id) + data;
            var n := |body|;
            s == ReceiveStep(ReadBytes([4, n / 65536, n / 256 % 256, n % 256] + body), reply, inflate)
    ensures Enabled(Exec(steps).value, s)
    ensures var c := Exec(steps).value;
            var d := Apply(c, s);
            && d.answers ==
               c.answers + [Answer(c.inFlight[id].token, if flag == 36 then ServerError else StatusOk, data)]
            && id !in d.inFlight && d.state == c.state && d.halted.None?
  {
    var c := Exec(steps).value;
    FlyingIdFits(steps, id);
    EstablishedIsAttended(steps);
    var body := [flag] + Varint.Encode(id) + data;
    var frame := LoneFrame(body);
    s := ReceiveStep(ReadBytes(frame), reply, inflate);
    Wire.ResponseOffWire(flag, id, data, c.state.codeToRoute, inflate);
    ReadAlone(c, s, body, Message(Response, id, "", data, flag == 36));
  }

  lemma ReadAlone(c: Conn, s: Step, body: Bytes, m: Message)
    requires c.halted.None? && c.state.Connected? && c.reader.receiving == Some(OnPackets) && c.reader.buffered == []
    requires s.ReceiveStep? && s.result.ReadBytes? && 0 < |s.result.chunk| <= READ_BUFFER_SIZE
    requires ReadDone([], s.result.chunk) == (Deliver([Packet(Data, body)]), [])
    requires m.mtype == Response && m.id in c.inFlight
    requires Messages.Decode(body, c.state.codeToRoute, s.inflate) == Ok(m)
    ensures Enabled(c, s)
    ensures var d := Apply(c, s);
            && d.halted.None? && d.state == c.state && m.id !in d.inFlight
            && d.answers ==
               c.answers + [Answer(c.inFlight[m.id].token, if m.error then ServerError else StatusOk, m.data)]
  {
    var c1 := Quiet(Noted(c, s.result), []);
    LoneReply(c1, body, m, s.inflate);
  }
}
