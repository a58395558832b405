/** Messages through the codec, the serializer, an arbitrary chunking and back. */
module EndToEnd {
  import opened Prelude
  import opened Packets
  import opened Framing
  import opened Messages
  import Varint

  /** NewData(message, routeDict) for a dictionary route. */
  function DataPacket(m: Message, routeToCode: map<string, int>): Packet
    requires m.route in routeToCode
  {
    Packet(Data, Messages.Encode(m, routeToCode).value)
  }

  function DataPackets(ms: seq<Message>, routeToCode: map<string, int>): (ps: seq<Packet>)
    requires forall m :: m in ms ==> m.route in routeToCode
    ensures |ps| == |ms|
    ensures forall i :: 0 <= i < |ms| ==> ps[i] == DataPacket(ms[i], routeToCode)
  {
    seq(|ms|, i requires 0 <= i < |ms| => DataPacket(ms[i], routeToCode))
  }

  /** An encoded message whose data stays below 2^24 - 13 bytes fits the frame header. */
  lemma DataPacketIsSendable(m: Message, routeToCode: map<string, int>)
    requires m.route in routeToCode && m.id < TWO_TO_64 && |m.data| < TWO_TO_24 - 13
    ensures Sendable(DataPacket(m, routeToCode))
  {
    Varint.RoundTrip([], m.id, []);
  }

  /** End to end: serialize each message as a Data packet, cut the bytes up in any way, read them
      back and decode each body. Exactly the messages sent are recovered, in order, if and only if
      each of them is recoverable under the dictionary. */
  lemma EndToEndIff(ms: seq<Message>, dict: RouteDict, chunks: seq<Bytes>, inflate: Bytes -> Option<Bytes>)
    requires forall m :: m in ms ==> m.route in dict.routeToCode && m.id < TWO_TO_64 && |m.data| < TWO_TO_24 - 13
    requires Concat(chunks) == SerializeAll(DataPackets(ms, dict.routeToCode))
    ensures var f := Feed([], chunks);
            var inv := Inverse(dict.order, dict.routeToCode);
            && f.Reading? && f.buffered == [] && |f.delivered| == |ms|
            && ((forall i :: 0 <= i < |ms| ==> Messages.Decode(f.delivered[i].body, inv, inflate) == Ok(ms[i]))
                <==> forall m :: m in ms ==> Recoverable(m, dict))
  {
    var ps := DataPackets(ms, dict.routeToCode);
    var inv := Inverse(dict.order, dict.routeToCode);
    forall p | p in ps ensures Sendable(p) {
      var i :| 0 <= i < |ps| && ps[i] == p;
      DataPacketIsSendable(ms[i], dict.routeToCode);
    }
    ChunkIndependence(ps, chunks);
    forall i | 0 <= i < |ms|
      ensures Messages.Decode(ps[i].body, inv, inflate) == Ok(ms[i]) <==> Recoverable(ms[i], dict)
    {
      MessageRoundTripIff(ms[i], dict, inflate);
    }
  }
}
