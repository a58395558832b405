/** The one-shot parser over a whole byte string, and what any chunking of a stream delivers.
    TcpPacketStream (its own module) refines ParseAll in place on a fixed buffer. */
module Framing {
  import opened Prelude
  import opened Packets

  /** InvalidType is the exception thrown for a bad type byte; AssertionFailed is one of the
      parser's assertions: an inbound HandshakeAck, or a Heartbeat or Kick that has a body. */
  datatype Parse = Parsed(packets: seq<Packet>, rest: Bytes) | InvalidType | AssertionFailed {
    function Prepend(ps: seq<Packet>): Parse {
      if Parsed? then Parsed(ps + packets, rest) else this
    }
  }

  /** What stands at the front of `s`. */
  datatype Next = Incomplete | BadType | Unwanted | Frame(packet: Packet, size: nat)

  function NextFrame(s: Bytes): (n: Next)
    ensures n.Frame? ==> HEADER_SIZE <= n.size <= |s|
  {
    if |s| < HEADER_SIZE then Incomplete
    else
      match PacketTypeFromByte(s[0])
      case None => BadType
      case Some(t) =>
        var end := HEADER_SIZE + HeaderLength(s);
        if |s| < end then Incomplete
        else
          var p := Packet(t, s[HEADER_SIZE..end]);
          if Acceptable(p) then Frame(p, end) else Unwanted
  }

  function ParseAll(s: Bytes): Parse
    decreases |s|
  {
    match NextFrame(s)
    case Incomplete => Parsed([], s)
    case BadType => InvalidType
    case Unwanted => AssertionFailed
    case Frame(p, size) => ParseAll(s[size..]).Prepend([p])
  }

  /** The packets the parser does not refuse by assertion. */
  predicate Acceptable(p: Packet) {
    match p.ptype
    case Handshake | Data => true
    case Heartbeat | Kick => p.body == []
    case HandshakeAck => false
  }

  /** A packet some run of the parser can produce and the serializer does not truncate. */
  predicate Sendable(p: Packet) {
    Acceptable(p) && |p.body| < TWO_TO_24
  }

  predicate AllSendable(ps: seq<Packet>) {
    forall p :: p in ps ==> Sendable(p)
  }

  // ---------------------------------------------------------------------------------------
  // Parsing inverts serializing
  // ---------------------------------------------------------------------------------------

  /** A header announcing `t` and |body|, then the body, then anything. */
  lemma NextFrameOf(t: PacketType, h: Bytes, body: Bytes, tail: Bytes)
    requires |h| == HEADER_SIZE && PacketTypeFromByte(h[0]) == Some(t) && HeaderLength(h) == |body|
    ensures NextFrame(h + body + tail) ==
            if Acceptable(Packet(t, body)) then Frame(Packet(t, body), HEADER_SIZE + |body|) else Unwanted
    ensures (h + body + tail)[HEADER_SIZE + |body|..] == tail
  {
    assert (h + body + tail)[HEADER_SIZE..HEADER_SIZE + |body|] == body;
  }

  /** One frame at the front of any bytes comes off unchanged. */
  lemma ParseFrame(p: Packet, tail: Bytes)
    requires Sendable(p)
    ensures ParseAll(Serialize(p) + tail) == ParseAll(tail).Prepend([p])
  {
    HeaderFaithful(p.ptype, |p.body|);
    NextFrameOf(p.ptype, Header(p.ptype, |p.body|), p.body, tail);
  }

  lemma PrependPrepend(r: Parse, ps: seq<Packet>, qs: seq<Packet>)
    ensures r.Prepend(qs).Prepend(ps) == r.Prepend(ps + qs)
  {
    if r.Parsed? {
      assert ps + (qs + r.packets) == (ps + qs) + r.packets;
    }
  }

  /** Frames followed by arbitrary bytes: the frames come off, in order, whatever follows. */
  lemma {:induction false} ParseFrames(ps: seq<Packet>, tail: Bytes)
    requires AllSendable(ps)
    ensures ParseAll(SerializeAll(ps) + tail) == ParseAll(tail).Prepend(ps)
  {
    if ps == [] {
      assert SerializeAll(ps) + tail == tail;
    } else {
      var rest := SerializeAll(ps[1..]) + tail;
      assert SerializeAll(ps) + tail == Serialize(ps[0]) + rest;
      ParseFrame(ps[0], rest);
      ParseFrames(ps[1..], tail);
      PrependPrepend(ParseAll(tail), [ps[0]], ps[1..]);
      assert [ps[0]] + ps[1..] == ps;
    }
  }

  /** The round trip, and exactly when it holds: a packet survives serialization followed by
      parsing if and only if the parser accepts it and its length fits the 24-bit header. */
  lemma FrameRoundTripIff(p: Packet)
    ensures ParseAll(Serialize(p)) == Parsed([p], []) <==> Sendable(p)
  {
    var s := Serialize(p);
    if Sendable(p) {
      ParseFrame(p, []);
      assert s + [] == s;
    } else {
      ParseConserves(s);
      assert p in [p];
    }
  }

  /** A body of 2^24 bytes is framed as empty: its bytes are then read as further frames. */
  lemma OversizeBodyIsLost(p: Packet)
    requires |p.body| == TWO_TO_24 && p.ptype == Data
    ensures ParseAll(Serialize(p)) == ParseAll(p.body).Prepend([Packet(Data, [])])
  {
    var h := Header(p.ptype, |p.body|);
    HeaderReadsBack(p.ptype, |p.body|);
    NextFrameOf(p.ptype, h, [], p.body);
    assert Serialize(p) == h + [] + p.body;
  }

  // ---------------------------------------------------------------------------------------
  // Serializing inverts parsing
  // ---------------------------------------------------------------------------------------

  /** A frame that was read, serialized again, is the bytes it was read from. */
  lemma FrameRebuilt(s: Bytes)
    requires NextFrame(s).Frame?
    ensures var n := NextFrame(s); Sendable(n.packet) && Serialize(n.packet) == s[..n.size]
  {
    var n := NextFrame(s);
    HeaderRebuilt(s, n.packet.ptype);
    Rejoined(s, Header(n.packet.ptype, |n.packet.body|));
  }

  /** The same for whatever header stands in front. */
  lemma Rejoined(s: Bytes, h: Bytes)
    requires NextFrame(s).Frame? && h == s[..HEADER_SIZE]
    ensures var n := NextFrame(s); h + n.packet.body == s[..n.size]
  {
    var n := NextFrame(s);
    assert s[..n.size] == s[..HEADER_SIZE] + s[HEADER_SIZE..n.size];
  }

  /** Byte conservation on every input: what was parsed, serialized again, followed by what was
      left over, is the input. */
  lemma {:induction false} ParseConserves(s: Bytes)
    ensures var r := ParseAll(s);
            r.Parsed? ==> AllSendable(r.packets) && SerializeAll(r.packets) + r.rest == s
    decreases |s|
  {
    match NextFrame(s)
    case Incomplete => assert SerializeAll([]) + s == s;
    case Frame(p, size) =>
      FrameRebuilt(s);
      ParseConserves(s[size..]);
      var r := ParseAll(s[size..]);
      if r.Parsed? {
        ConsConserves(p, r.packets, r.rest, s, size);
      }
    case _ =>
  }

  lemma ConsConserves(p: Packet, ps: seq<Packet>, rest: Bytes, s: Bytes, size: nat)
    requires size <= |s| && Serialize(p) == s[..size] && SerializeAll(ps) + rest == s[size..]
    ensures SerializeAll([p] + ps) + rest == s
  {
    assert ([p] + ps)[1..] == ps;
    assert s == s[..size] + s[size..];
  }

  lemma {:induction false} SerializeAllAppend(ps: seq<Packet>, qs: seq<Packet>)
    ensures SerializeAll(ps + qs) == SerializeAll(ps) + SerializeAll(qs)
  {
    if ps == [] {
      assert ps + qs == qs;
    } else {
      assert (ps + qs)[1..] == ps[1..] + qs;
      SerializeAllAppend(ps[1..], qs);
    }
  }

  /** Unique decodability: two lists of packets with the same bytes are the same list. */
  lemma UniqueDecoding(ps: seq<Packet>, qs: seq<Packet>)
    requires AllSendable(ps) && AllSendable(qs)
    requires SerializeAll(ps) == SerializeAll(qs)
    ensures ps == qs
  {
    ParseFrames(ps, []);
    ParseFrames(qs, []);
    assert SerializeAll(ps) + [] == SerializeAll(qs) + [];
    assert ps + [] == ps && qs + [] == qs;
  }

  /** No frame is a proper prefix of another: equal fronts mean equal packets and equal tails. */
  lemma PrefixFree(p: Packet, q: Packet, s: Bytes, t: Bytes)
    requires |p.body| < TWO_TO_24 && |q.body| < TWO_TO_24
    requires Serialize(p) + s == Serialize(q) + t
    ensures p == q && s == t
  {
    HeaderFaithful(p.ptype, |p.body|);
    HeaderFaithful(q.ptype, |q.body|);
    SameFront(Header(p.ptype, |p.body|), p.body, s, Header(q.ptype, |q.body|), q.body, t);
  }

  lemma SameFront(h: Bytes, b: Bytes, s: Bytes, g: Bytes, c: Bytes, t: Bytes)
    requires |h| == |g| == HEADER_SIZE && HeaderLength(h) == |b| && HeaderLength(g) == |c|
    requires h + b + s == g + c + t
    ensures h == g && b == c && s == t
  {
    var x, y := h + b + s, g + c + t;
    assert x[..4] == h && y[..4] == g;
    assert x[4..4 + |b|] == b && y[4..4 + |c|] == c;
    assert x[4 + |b|..] == s && y[4 + |c|..] == t;
  }

  // ---------------------------------------------------------------------------------------
  // Parsing in pieces
  // ---------------------------------------------------------------------------------------

  /** Parsing a prefix first and its leftover later is parsing everything at once. */
  lemma {:induction false} ParseInPieces(s: Bytes, more: Bytes)
    requires ParseAll(s).Parsed?
    ensures ParseAll(s + more) == ParseAll(ParseAll(s).rest + more).Prepend(ParseAll(s).packets)
    decreases |s|
  {
    var r := ParseAll(s);
    if r.packets == [] {
      assert r.rest == s by { ParseConserves(s); assert SerializeAll([]) + r.rest == r.rest; }
      var all := ParseAll(s + more);
      assert all.Parsed? ==> [] + all.packets == all.packets;
    } else {
      var end := HEADER_SIZE + HeaderLength(s);
      var t := s + more;
      assert t[0] == s[0] && t[1] == s[1] && t[2] == s[2] && t[3] == s[3];
      assert t[HEADER_SIZE..end] == s[HEADER_SIZE..end];
      assert t[end..] == s[end..] + more;
      ParseInPieces(s[end..], more);
      var inner := ParseAll(s[end..]);
      var p := Packet(PacketTypeFromByte(s[0]).value, s[HEADER_SIZE..end]);
      PrependPrepend(ParseAll(inner.rest + more), [p], inner.packets);
    }
  }

  /** Once a prefix is refused, no continuation repairs it. */
  lemma {:induction false} RefusalIsFinal(s: Bytes, more: Bytes)
    requires !ParseAll(s).Parsed?
    ensures ParseAll(s + more) == ParseAll(s)
    decreases |s|
  {
    var t := s + more;
    assert t[0] == s[0] && t[1] == s[1] && t[2] == s[2] && t[3] == s[3];
    if PacketTypeFromByte(s[0]).Some? {
      var end := HEADER_SIZE + HeaderLength(s);
      assert t[HEADER_SIZE..end] == s[HEADER_SIZE..end];
      if Acceptable(Packet(PacketTypeFromByte(s[0]).value, s[HEADER_SIZE..end])) {
        assert t[end..] == s[end..] + more;
        RefusalIsFinal(s[end..], more);
      }
    }
  }

  /** Sendable packets stand in front of `tail` in `s`. */
  ghost predicate StandsBehind(s: Bytes, good: seq<Packet>, tail: Bytes) {
    AllSendable(good) && s == SerializeAll(good) + tail
  }

  /** Where a parse stops, and on what. */
  lemma {:induction false} ParseStops(s: Bytes) returns (good: seq<Packet>, tail: Bytes)
    ensures StandsBehind(s, good, tail)
    ensures ParseAll(s) == match NextFrame(tail)
                           case BadType => InvalidType
                           case Unwanted => AssertionFailed
                           case _ => Parsed(good, tail)
    ensures !NextFrame(tail).Frame?
    decreases |s|
  {
    if NextFrame(s).Frame? {
      FrameRebuilt(s);
      var ps: seq<Packet>;
      var p := NextFrame(s).packet;
      ps, tail := ParseStops(s[NextFrame(s).size..]);
      good := [p] + ps;
      ConsConserves(p, ps, tail, s, NextFrame(s).size);
    } else {
      good, tail := [], s;
    }
  }

  /** When the parser's assertions fail, and when it throws: exactly when good frames are followed
      by a complete frame it does not want, or by a header with a bad type byte. */
  lemma ParseRefusesIff(s: Bytes)
    ensures ParseAll(s) == AssertionFailed <==>
            exists good, tail :: StandsBehind(s, good, tail) && NextFrame(tail) == Unwanted
    ensures ParseAll(s) == InvalidType <==>
            exists good, tail :: StandsBehind(s, good, tail) && NextFrame(tail) == BadType
  {
    var good, tail := ParseStops(s);
    forall good, tail | StandsBehind(s, good, tail) ensures ParseAll(s) == ParseAll(tail).Prepend(good) {
      ParseFrames(good, tail);
    }
  }

  /** What a parse leaves behind: an incomplete frame. */
  lemma {:induction false} LeftoverIsIncomplete(s: Bytes)
    requires ParseAll(s).Parsed?
    ensures NextFrame(ParseAll(s).rest) == Incomplete && |ParseAll(s).rest| <= |s|
    decreases |s|
  {
    if NextFrame(s).Frame? {
      LeftoverIsIncomplete(s[NextFrame(s).size..]);
    }
  }

  // ---------------------------------------------------------------------------------------
  // One read
  // ---------------------------------------------------------------------------------------

  /** What the completion of a successful read leads to: another read, a batch for the receive
      handler, the error for a bad type byte, or one of two failed assertions. */
  datatype Completion = ReadOn | Deliver(packets: seq<Packet>) | Reject | EmptyRead | UnwantedPacket

  /** The completion of a read of `chunk` behind `buffered`, and the bytes then held. */
  function ReadDone(buffered: Bytes, chunk: Bytes): (Completion, Bytes) {
    if chunk == [] then (EmptyRead, buffered)
    else
      match ParseAll(buffered + chunk)
      case AssertionFailed => (UnwantedPacket, buffered + chunk)
      case InvalidType => (Reject, buffered + chunk)
      case Parsed(ps, rest) => (if ps == [] then ReadOn else Deliver(ps), rest)
  }

  // ---------------------------------------------------------------------------------------
  // A stream read in chunks
  // ---------------------------------------------------------------------------------------

  /** The read loop over a list of reads, starting with `buffered` bytes. `Reading` has consumed
      every read; `Refused` stopped at the read with that index, whose batch is discarded. */
  datatype Feeding =
    | Reading(delivered: seq<Packet>, buffered: Bytes)
    | Refused(delivered: seq<Packet>, at: nat, why: Parse)

  function Feed(buffered: Bytes, chunks: seq<Bytes>): Feeding {
    if chunks == [] then Reading([], buffered)
    else
      var last := |chunks| - 1;
      match Feed(buffered, chunks[..last])
      case Refused(d, at, why) => Refused(d, at, why)
      case Reading(d, b) =>
        var r := ParseAll(b + chunks[last]);
        if r.Parsed? then Reading(d + r.packets, r.rest) else Refused(d, last, r)
  }

  function Concat(chunks: seq<Bytes>): Bytes {
    if chunks == [] then [] else Concat(chunks[..|chunks| - 1]) + chunks[|chunks| - 1]
  }

  /** Chunk independence on every input: as long as the reads so far parse, the packets delivered
      and the bytes held back are those of one parse over everything received. */
  lemma {:induction false} FeedIsParse(chunks: seq<Bytes>)
    ensures ParseAll(Concat(chunks)).Parsed? ==>
              Feed([], chunks) == Reading(ParseAll(Concat(chunks)).packets, ParseAll(Concat(chunks)).rest)
    ensures !ParseAll(Concat(chunks)).Parsed? ==>
              Feed([], chunks).Refused? && Feed([], chunks).why == ParseAll(Concat(chunks))
  {
    if chunks != [] {
      var last := |chunks| - 1;
      var before := Concat(chunks[..last]);
      FeedIsParse(chunks[..last]);
      if ParseAll(before).Parsed? {
        ParseInPieces(before, chunks[last]);
      } else {
        RefusalIsFinal(before, chunks[last]);
      }
    }
  }

  /** A refusal comes at the first read after which the bytes received are refused, and what was
      delivered by then is the parse of the reads before it. */
  lemma {:induction false} FeedRefusesFirst(chunks: seq<Bytes>)
    requires Feed([], chunks).Refused?
    ensures var f := Feed([], chunks);
            && f.at < |chunks|
            && !ParseAll(Concat(chunks[..f.at + 1])).Parsed?
            && ParseAll(Concat(chunks[..f.at])).Parsed?
            && f.delivered == ParseAll(Concat(chunks[..f.at])).packets
  {
    var last := |chunks| - 1;
    FeedIsParse(chunks[..last]);
    if Feed([], chunks[..last]).Refused? {
      FeedRefusesFirst(chunks[..last]);
      var at := Feed([], chunks).at;
      assert chunks[..last][..at + 1] == chunks[..at + 1];
      assert chunks[..last][..at] == chunks[..at];
    } else {
      FeedIsParse(chunks);
      assert chunks[..last + 1] == chunks;
    }
  }

  /** Chunk independence for serialized packets: however their bytes are cut up, exactly those
      packets are delivered, in order, and nothing is held back. */
  lemma ChunkIndependence(ps: seq<Packet>, chunks: seq<Bytes>)
    requires AllSendable(ps)
    requires Concat(chunks) == SerializeAll(ps)
    ensures Feed([], chunks) == Reading(ps, [])
  {
    ParseFrames(ps, []);
    assert SerializeAll(ps) + [] == SerializeAll(ps);
    assert ps + [] == ps;
    FeedIsParse(chunks);
  }

  /** Byte conservation over a whole stream. */
  lemma FeedConserves(chunks: seq<Bytes>)
    requires Feed([], chunks).Reading?
    ensures var f := Feed([], chunks); SerializeAll(f.delivered) + f.buffered == Concat(chunks)
  {
    FeedIsParse(chunks);
    ParseConserves(Concat(chunks));
  }

  // ---------------------------------------------------------------------------------------
  // A bad type byte
  // ---------------------------------------------------------------------------------------

  /** Good frames followed by a bad type byte are refused exactly when four bytes from the bad
      position on have arrived; before that they parse, to a prefix of the good frames. */
  lemma BadTypeNeedsFourBytes(good: seq<Packet>, tail: Bytes, n: nat)
    requires AllSendable(good)
    requires tail != [] && PacketTypeFromByte(tail[0]).None?
    requires n <= |SerializeAll(good)| + |tail|
    ensures var s := (SerializeAll(good) + tail)[..n];
            && (ParseAll(s) == InvalidType <==> n >= |SerializeAll(good)| + HEADER_SIZE)
            && (ParseAll(s) != InvalidType ==> ParseAll(s).Parsed? && ParseAll(s).packets <= good)
  {
    var bytes := SerializeAll(good);
    var s := (bytes + tail)[..n];
    if n >= |bytes| {
      assert s == bytes + tail[..n - |bytes|];
      ParseFrames(good, tail[..n - |bytes|]);
      assert good + [] == good;
    } else {
      assert s == bytes[..n];
      PrefixParses(good, n);
    }
  }

  /** Any prefix of serialized packets parses, to a prefix of the packets. */
  lemma PrefixParses(ps: seq<Packet>, n: nat)
    requires AllSendable(ps) && n <= |SerializeAll(ps)|
    ensures var r := ParseAll(SerializeAll(ps)[..n]); r.Parsed? && r.packets <= ps
  {
    var bytes := SerializeAll(ps);
    var s, more := bytes[..n], bytes[n..];
    ParseFrames(ps, []);
    assert bytes + [] == bytes == s + more && ps + [] == ps;
    if ParseAll(s).Parsed? {
      ParseInPieces(s, more);
    } else {
      RefusalIsFinal(s, more);
    }
  }

  /** The same over reads: under any chunking the refusal is reported at exactly the first read
      that brings four bytes from the bad position into the buffer, and what has been delivered
      is a prefix of the frames before it. */
  lemma BadTypeUnderChunking(good: seq<Packet>, tail: Bytes, chunks: seq<Bytes>)
    requires AllSendable(good)
    requires tail != [] && PacketTypeFromByte(tail[0]).None?
    requires Concat(chunks) == SerializeAll(good) + tail
    ensures var f := Feed([], chunks);
            var threshold := |SerializeAll(good)| + HEADER_SIZE;
            && f.delivered <= good
            && (f.Refused? <==> |tail| >= HEADER_SIZE)
            && (f.Refused? ==>
                  && f.why == InvalidType
                  && f.at < |chunks|
                  && |Concat(chunks[..f.at])| < threshold <= |Concat(chunks[..f.at + 1])|)
  {
    var all := SerializeAll(good) + tail;
    BadTypeNeedsFourBytes(good, tail, |all|);
    assert all[..|all|] == all;
    FeedIsParse(chunks);
    var f := Feed([], chunks);
    if f.Refused? {
      FeedRefusesFirst(chunks);
      ConcatPrefix(chunks, f.at);
      ConcatPrefix(chunks, f.at + 1);
      BadTypeNeedsFourBytes(good, tail, |Concat(chunks[..f.at])|);
      BadTypeNeedsFourBytes(good, tail, |Concat(chunks[..f.at + 1])|);
    }
  }

  lemma {:induction false} ConcatPrefix(chunks: seq<Bytes>, k: nat)
    requires k <= |chunks|
    ensures |Concat(chunks[..k])| <= |Concat(chunks)|
    ensures Concat(chunks[..k]) == Concat(chunks)[..|Concat(chunks[..k])|]
  {
    if k == |chunks| {
      assert chunks[..k] == chunks;
    } else {
      var last := |chunks| - 1;
      ConcatPrefix(chunks[..last], k);
      assert chunks[..last][..k] == chunks[..k];
    }
  }

  // ---------------------------------------------------------------------------------------
  // Room for the next read
  // ---------------------------------------------------------------------------------------

  /** Every frame announced in `s`, complete or not, fits a buffer of `capacity` bytes. */
  predicate FramesFit(s: Bytes, capacity: nat)
    decreases |s|
  {
    |s| >= HEADER_SIZE ==>
      var end := HEADER_SIZE + HeaderLength(s);
      && end <= capacity
      && (|s| >= end ==> FramesFit(s[end..], capacity))
  }

  /** A buffer that a parse leaves full holds the front of a frame larger than the whole buffer. */
  lemma FullBufferHoldsOversizeFrame(s: Bytes, capacity: nat)
    requires ParseAll(s).Parsed? && |s| <= capacity && HEADER_SIZE <= capacity
    ensures var rest := ParseAll(s).rest;
            && |rest| <= capacity
            && (|rest| == capacity ==> HEADER_SIZE + HeaderLength(rest) > capacity)
  {
    ParseConserves(s);
    LeftoverIsIncomplete(s);
  }

  /** A frame whose header is held back can still be completed within the buffer if and only if
      the length it announces fits the buffer. */
  lemma FrameCanCompleteIff(rest: Bytes, capacity: nat)
    requires NextFrame(rest) == Incomplete && HEADER_SIZE <= |rest| <= capacity
    ensures (exists more: Bytes :: |rest + more| <= capacity && NextFrame(rest + more) != Incomplete)
            <==> HEADER_SIZE + HeaderLength(rest) <= capacity
  {
    var end := HEADER_SIZE + HeaderLength(rest);
    if end <= capacity {
      var more: Bytes := seq(end - |rest|, _ => 0);
      assert |rest + more| <= capacity && NextFrame(rest + more) != Incomplete;
    } else {
      forall more: Bytes | |rest + more| <= capacity ensures NextFrame(rest + more) == Incomplete {
        assert HeaderLength(rest + more) == HeaderLength(rest);
      }
    }
  }

  /** If every frame fits, every parse leaves room, so the next receive has a non-empty buffer. */
  lemma {:induction false} ReadProgress(s: Bytes, capacity: nat)
    requires ParseAll(s).Parsed? && HEADER_SIZE <= capacity && FramesFit(s, capacity)
    ensures |ParseAll(s).rest| < capacity
    decreases |s|
  {
    if ParseAll(s).packets != [] {
      ReadProgress(s[HEADER_SIZE + HeaderLength(s)..], capacity);
    }
  }
}
