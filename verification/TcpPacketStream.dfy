/** TcpPacketStream as the program runs it: a fixed read buffer that is filled by the socket, parsed
    and compacted in place, and a send queue with a write set. */
module PacketStreams {
  import opened Prelude
  import opened Packets
  import opened Framing
  import opened Runtime
  import opened Protocol
  import opened Rotation

  /** The io_context: posted tasks, waits and the clock. */
  class IoContext {
    var pending: seq<Task>
    var ran: nat
    var waits: map<nat, Wait>
    var next: nat
    var now: nat

    ghost function TaskView(): Tasks
      reads this
    {
      Tasks(pending, ran)
    }

    ghost function TimerView(): Timers
      reads this
    {
      Timers(waits, next, now)
    }

    constructor ()
      ensures TaskView() == Tasks([], 0) && TimerView() == Timers(map[], 0, 0)
    {
      pending, ran, waits, next, now := [], 0, map[], 0, 0;
    }

    method PostTask(t: Task)
      modifies this
      ensures TaskView() == Post(old(TaskView()), t) && TimerView() == old(TimerView())
    {
      pending := pending + [t];
    }

    method PopFront() returns (t: Task)
      requires pending != []
      modifies this
      ensures t == old(pending[0])
      ensures TaskView() == PopTask(old(TaskView())) && TimerView() == old(TimerView())
    {
      t := pending[0];
      pending := pending[1..];
      ran := ran + 1;
    }

    method StartWait(kind: WaitKind, deadline: nat) returns (w: nat)
      modifies this
      ensures w == old(next)
      ensures TimerView() == AsyncWait(old(TimerView()), kind, deadline) && TaskView() == old(TaskView())
    {
      w := next;
      waits := waits[w := Wait(kind, Waiting(deadline))];
      next := next + 1;
    }

    method CancelWait(w: nat)
      modifies this
      ensures TimerView() == Cancel(old(TimerView()), w) && TaskView() == old(TaskView())
    {
      if w in waits && waits[w].status.Waiting? {
        waits := waits[w := waits[w].(status := Aborted)];
      }
    }

    method FinishWait(w: nat) returns (wait: Wait)
      requires w in waits
      modifies this
      ensures wait == old(waits[w])
      ensures TimerView() == old(TimerView()).(waits := old(waits) - {w}) && TaskView() == old(TaskView())
    {
      wait := waits[w];
      waits := waits - {w};
    }
  }

  class TcpPacketStream {
    const io: IoContext

    // The read side: bytes [0..readBufferHead) of the buffer are valid.
    const readBuffer: array<Byte>
    var readBufferHead: nat

    // The send side.
    var packetSendQueue: seq<Packet>
    var writeBuffers: map<nat, Bytes>
    var writeId: nat

    // The socket: pending operations, and the packets it was given with their callbacks.
    var connecting: bool
    var receiving: Option<ReceiveHandler>
    var outstanding: set<nat>
    var handed: seq<Sent>

    // Histories that only statements refer to.
    ghost var failed: set<nat>
    ghost var accepted: seq<Sent>
    ghost var refused: seq<Sent>
    ghost var received: Bytes
    ghost var delivered: seq<Packet>

    ghost predicate Valid()
      reads this
    {
      readBufferHead <= readBuffer.Length
    }

    ghost function Buffered(): Bytes
      requires Valid()
      reads this, readBuffer
    {
      readBuffer[..readBufferHead]
    }

    ghost function SenderView(): Sender
      reads this
    {
      Sender(packetSendQueue, writeId, writeBuffers, outstanding, failed, accepted, refused, handed)
    }

    ghost function ReaderView(): Reader
      requires Valid()
      reads this, readBuffer
    {
      Reader(connecting, receiving, Buffered(), received, delivered)
    }

    constructor (io: IoContext, readBufferMaxSize: nat)
      ensures Valid() && this.io == io && fresh(readBuffer) && readBuffer.Length == readBufferMaxSize
      ensures SenderView() == INIT.sender && ReaderView() == INIT.reader
    {
      this.io := io;
      readBuffer := new Byte[readBufferMaxSize](_ => 0);
      readBufferHead := 0;
      packetSendQueue, writeBuffers, writeId := [], map[], 0;
      connecting, receiving, outstanding, failed := false, None, {}, {};
      handed, accepted, refused, received, delivered := [], [], [], [], [];
    }

    // ------------------------------------------------------------------------------------
    // Receiving
    // ------------------------------------------------------------------------------------

    /** The compaction on both return paths of the parser: rotate the unparsed bytes to the front. */
    method KeepFrom(offset: nat)
      requires Valid() && offset <= readBufferHead
      modifies this`readBufferHead, readBuffer
      ensures Valid() && Buffered() == old(Buffered())[offset..]
    {
      var sizeLeft := readBufferHead - offset;
      Rotate(readBuffer, offset);
      readBufferHead := sizeLeft;
      assert readBuffer[..sizeLeft] == old(readBuffer[offset..])[..sizeLeft];
    }

    /** The same, giving the bytes kept. */
    method TakeFrom(offset: nat) returns (rest: Bytes)
      requires Valid() && offset <= readBufferHead
      modifies this`readBufferHead, readBuffer
      ensures Valid() && rest == old(Buffered())[offset..] == Buffered()
    {
      KeepFrom(offset);
      rest := readBuffer[..readBufferHead];
    }

    /** The body of the parse loop up to the point where a packet is complete: what stands at
        `offset`. */
    method FrameAt(offset: nat) returns (n: Next)
      requires Valid() && offset <= readBufferHead
      ensures n == NextFrame(Buffered()[offset..])
    {
      ghost var rest := Buffered()[offset..];
      var sizeLeft := readBufferHead - offset;
      if sizeLeft < HEADER_SIZE {
        return Incomplete;
      }
      var packetType := PacketTypeFromByte(readBuffer[offset]);
      if packetType.None? {
        return BadType;
      }
      var b2, b1, b0 := readBuffer[offset + 1], readBuffer[offset + 2], readBuffer[offset + 3];
      var length := JoinLength(b2, b1, b0);
      assert rest[1] == b2 && rest[2] == b1 && rest[3] == b0;
      LengthOf(rest, b2, b1, b0);
      if sizeLeft < HEADER_SIZE + length {
        return Incomplete;
      }
      var body := readBuffer[offset + HEADER_SIZE..offset + HEADER_SIZE + length];
      assert rest[HEADER_SIZE..HEADER_SIZE + length] == body;
      match packetType.value {
        case Handshake | Data =>
        case Heartbeat | Kick => if length != 0 { return Unwanted; }
        case HandshakeAck => return Unwanted;
      }
      return Frame(Packet(packetType.value, body), HEADER_SIZE + length);
    }

    /** One look at the bytes behind the packets taken so far. */
    method Look(ghost all: Bytes, offset: nat, ghost packets: seq<Packet>) returns (n: Next)
      requires Valid() && Buffered() == all && offset <= |all| && ParsedTo(all, offset, packets)
      ensures Found(all, offset, packets, n)
    {
      n := FrameAt(offset);
      NextParsed(all, offset, packets);
    }

    /** The parse loop: takes complete frames off, up to one it cannot take. */
    method TakeFrames(ghost all: Bytes) returns (n: Next, packetStartOffset: nat, packets: seq<Packet>)
      requires Valid() && Buffered() == all
      ensures packetStartOffset <= |all| && !n.Frame? && Found(all, packetStartOffset, packets, n)
    {
      packetStartOffset, packets := 0, [];
      NothingParsed(all);
      n := Look(all, 0, []);
      while n.Frame?
        invariant packetStartOffset <= |all| && Found(all, packetStartOffset, packets, n)
        decreases |all| - packetStartOffset
      {
        packets := packets + [n.packet];
        packetStartOffset := packetStartOffset + n.size;
        n := Look(all, packetStartOffset, packets);
      }
    }

    /** ParsePacketsFromReadBuffer: agrees with the one-shot parser on the buffer's contents, and
        leaves exactly its leftover in the buffer; a refusal leaves the buffer as it was. */
    method ParsePacketsFromReadBuffer() returns (r: Parse)
      requires Valid()
      modifies this`readBufferHead, readBuffer
      ensures Valid()
      ensures r == ParseAll(old(Buffered()))
      ensures Buffered() == if r.Parsed? then r.rest else old(Buffered())
    {
      var n, packetStartOffset, packets := TakeFrames(Buffered());
      match n {
        case Incomplete =>
          var rest := TakeFrom(packetStartOffset);
          return Parsed(packets, rest);
        case BadType => return InvalidType;
        case Unwanted => return AssertionFailed;
      }
    }

    /** The socket writes `chunk` behind the valid bytes. */
    method Fill(chunk: Bytes)
      requires Valid() && readBufferHead + |chunk| <= readBuffer.Length
      modifies this`readBufferHead, readBuffer
      ensures Valid() && Buffered() == old(Buffered()) + chunk
    {
      var i := 0;
      while i < |chunk|
        invariant i <= |chunk| && readBufferHead == old(readBufferHead)
        invariant readBuffer[..readBufferHead + i] == old(Buffered()) + chunk[..i]
      {
        readBuffer[readBufferHead + i] := chunk[i];
        i := i + 1;
      }
      readBufferHead := readBufferHead + |chunk|;
    }

    /** The completion of a successful receive in ReadToBuffer. */
    method OnBytesRead(chunk: Bytes) returns (done: Completion)
      requires Valid() && readBufferHead + |chunk| <= readBuffer.Length
      modifies this`readBufferHead, readBuffer
      ensures Valid()
      ensures (done, Buffered()) == ReadDone(old(Buffered()), chunk)
    {
      if |chunk| == 0 {
        return EmptyRead;
      }
      Fill(chunk);
      var r := ParsePacketsFromReadBuffer();
      match r {
        case AssertionFailed => return UnwantedPacket;
        case InvalidType => return Reject;
        case Parsed(packets, _) =>
          if |packets| == 0 {
            return ReadOn;
          }
          return Deliver(packets);
      }
    }

    /** The same with the histories kept. */
    method CompleteRead(chunk: Bytes) returns (done: Completion)
      requires Valid() && readBufferHead + |chunk| <= readBuffer.Length
      modifies this`readBufferHead, this`received, this`delivered, readBuffer
      ensures Valid() && done == ReadDone(old(Buffered()), chunk).0
      ensures ReaderView() ==
              Recorded(old(ReaderView()), ReadBytes(chunk)).(buffered := ReadDone(old(Buffered()), chunk).1)
    {
      done := OnBytesRead(chunk);
      received := received + chunk;
      delivered := delivered + if done.Deliver? then done.packets else [];
    }

    /** The read loop over any reads that return bytes but no more than the free space, up to the
        first refusal: it delivers, holds back and refuses what the one-shot reading of the same
        reads does. */
    method ReadChunks(chunks: seq<Bytes>) returns (f: Feeding)
      requires Valid() && ReadsFit(Buffered(), chunks, readBuffer.Length)
      modifies this`readBufferHead, readBuffer
      ensures Valid() && f == Feed(old(Buffered()), chunks)
      ensures f.Reading? ==> Buffered() == f.buffered
    {
      ghost var start := Buffered();
      var delivered: seq<Packet> := [];
      for i := 0 to |chunks|
        invariant Valid() && Feed(start, chunks[..i]) == Reading(delivered, Buffered())
      {
        FeedNext(start, chunks, i, delivered, Buffered());
        var done := OnBytesRead(chunks[i]);
        match done {
          case ReadOn =>
          case Deliver(packets) => delivered := delivered + packets;
          case Reject =>
            RefusedForGood(start, chunks, i + 1);
            return Refused(delivered, i, InvalidType);
          case UnwantedPacket =>
            RefusedForGood(start, chunks, i + 1);
            return Refused(delivered, i, AssertionFailed);
          case EmptyRead => assert false;
        }
      }
      assert chunks[..|chunks|] == chunks;
      return Reading(delivered, readBuffer[..readBufferHead]);
    }

    /** Chunk independence for the buffer itself: reading the bytes of any list of packets whose
        frames fit, cut up into any reads that return bytes but no more than the free space,
        delivers exactly those packets in order and leaves the buffer empty; and there is room
        before every read. */
    method ReadAll(ps: seq<Packet>, chunks: seq<Bytes>) returns (delivered: seq<Packet>)
      requires Valid() && readBufferHead == 0 && HEADER_SIZE <= readBuffer.Length
      requires AllSendable(ps) && forall p :: p in ps ==> HEADER_SIZE + |p.body| <= readBuffer.Length
      requires Concat(chunks) == SerializeAll(ps) && ReadsFit([], chunks, readBuffer.Length)
      modifies this`readBufferHead, readBuffer
      ensures Valid() && delivered == ps && Buffered() == []
      ensures forall i :: 0 <= i <= |chunks| ==>
                var f := Feed([], chunks[..i]); f.Reading? && |f.buffered| < readBuffer.Length
    {
      assert Buffered() == [];
      ChunkIndependence(ps, chunks);
      forall i | 0 <= i <= |chunks|
        ensures var f := Feed([], chunks[..i]); f.Reading? && |f.buffered| < readBuffer.Length
      {
        RoomLeft(ps, chunks, i, readBuffer.Length);
      }
      var f := ReadChunks(chunks);
      delivered := f.delivered;
    }

    // ------------------------------------------------------------------------------------
    // Sending
    // ------------------------------------------------------------------------------------

    /** SendPacket: queues the packet and posts one SendNextPacket task, or drops both. */
    method Send(p: Packet, h: SendHandler)
      requires Valid()
      modifies this`packetSendQueue, this`accepted, this`refused, io
      ensures Valid() && SenderView() == Offer(old(SenderView()), p, h)
      ensures io.TaskView() == (if |old(packetSendQueue)| < MAX_QUEUED_PACKETS
                                then Post(old(io.TaskView()), SendNext(h)) else old(io.TaskView()))
      ensures io.TimerView() == old(io.TimerView())
    {
      if |packetSendQueue| < MAX_QUEUED_PACKETS {
        packetSendQueue := packetSendQueue + [p];
        accepted := accepted + [Sent(p, h)];
        io.PostTask(SendNext(h));
      } else {
        refused := refused + [Sent(p, h)];
      }
    }

    /** SendNextPacket. `failure` is the assertion that failed, if one did. */
    method SendFront(h: SendHandler) returns (failure: Option<Halt>)
      requires Valid()
      modifies this`packetSendQueue, this`writeId, this`writeBuffers, this`handed, this`outstanding
      ensures Valid()
      ensures var s := old(SenderView());
              && (s.queue == [] ==> failure == Some(EmptySendQueue) && SenderView() == s)
              && (s.queue != [] && failure.Some? ==>
                    && failure == Some(WriteIdReused)
                    && Sending(s, h).writeId in s.writeBuffers && SenderView() == Sending(s, h))
              && (s.queue != [] && failure.None? ==>
                    && Sending(s, h).writeId !in s.writeBuffers
                    && SenderView() ==
                       Sending(s, h).(writeBuffers := s.writeBuffers[s.writeId := Serialize(s.queue[0])]))
    {
      if |packetSendQueue| == 0 {
        return Some(EmptySendQueue);
      }
      var pkt := packetSendQueue[0];
      packetSendQueue := packetSendQueue[1..];
      var id := writeId;
      writeId := (writeId + 1) % TWO_TO_32;
      var buf := SerializeInto(pkt, []);
      outstanding := outstanding + {|handed|};
      handed := handed + [Sent(pkt, h)];
      if writeId in writeBuffers {
        return Some(WriteIdReused);
      }
      writeBuffers := writeBuffers[id := buf];
      assert buf == Serialize(pkt);
      return None;
    }
  }

  /** SendPacket on the send side alone. */
  function Offer(s: Sender, p: Packet, h: SendHandler): Sender {
    if |s.queue| < MAX_QUEUED_PACKETS
    then s.(queue := s.queue + [p], accepted := s.accepted + [Sent(p, h)])
    else s.(refused := s.refused + [Sent(p, h)])
  }

  /** The parse loop has taken `packets` off the front of `all`, up to `offset`. */
  ghost predicate ParsedTo(all: Bytes, offset: nat, packets: seq<Packet>)
    requires offset <= |all|
  {
    ParseAll(all) == ParseAll(all[offset..]).Prepend(packets)
  }

  lemma NothingParsed(all: Bytes)
    ensures ParsedTo(all, 0, [])
  {
    assert all[0..] == all;
    var r := ParseAll(all);
    assert r.Parsed? ==> [] + r.packets == r.packets;
  }

  lemma LengthOf(s: Bytes, b2: Byte, b1: Byte, b0: Byte)
    requires |s| >= HEADER_SIZE && s[1] == b2 && s[2] == b1 && s[3] == b0
    ensures HeaderLength(s) == JoinLength(b2, b1, b0)
  {
  }

  /** What a look behind those packets means for the whole parse. */
  ghost predicate Found(all: Bytes, offset: nat, packets: seq<Packet>, n: Next)
    requires offset <= |all|
  {
    match n
    case Incomplete => ParseAll(all) == Parsed(packets, all[offset..])
    case BadType => ParseAll(all) == InvalidType
    case Unwanted => ParseAll(all) == AssertionFailed
    case Frame(p, size) => size > 0 && offset + size <= |all| && ParsedTo(all, offset + size, packets + [p])
  }

  /** One round of the parse loop. */
  lemma NextParsed(all: Bytes, offset: nat, packets: seq<Packet>)
    requires offset <= |all| && ParsedTo(all, offset, packets)
    ensures Found(all, offset, packets, NextFrame(all[offset..]))
  {
    var n := NextFrame(all[offset..]);
    if n.Frame? {
      assert all[offset..][n.size..] == all[offset + n.size..];
      PrependPrepend(ParseAll(all[offset + n.size..]), packets, [n.packet]);
    }
  }

  /** Each read that is made returns some bytes, and no more than the room left by those before. */
  ghost predicate ReadsFit(buffered: Bytes, chunks: seq<Bytes>, capacity: nat) {
    forall i :: 0 <= i < |chunks| ==>
      var f := Feed(buffered, chunks[..i]);
      f.Reading? ==> chunks[i] != [] && |f.buffered| + |chunks[i]| <= capacity
  }

  /** One more read. */
  lemma FeedNext(start: Bytes, chunks: seq<Bytes>, i: nat, delivered: seq<Packet>, buffered: Bytes)
    requires i < |chunks| && chunks[i] != [] && Feed(start, chunks[..i]) == Reading(delivered, buffered)
    ensures var (done, rest) := ReadDone(buffered, chunks[i]);
            && !done.EmptyRead?
            && Feed(start, chunks[..i + 1]) == match done
                                               case Deliver(ps) => Reading(delivered + ps, rest)
                                               case Reject => Refused(delivered, i, InvalidType)
                                               case UnwantedPacket => Refused(delivered, i, AssertionFailed)
                                               case _ => Reading(delivered, rest)
  {
    FeedUnfolds(start, chunks, i);
    Fed(delivered, i, ParseAll(buffered + chunks[i]));
  }

  /** The reading after one more read, given its parse. */
  function FeedOn(delivered: seq<Packet>, i: nat, r: Parse): Feeding {
    if r.Parsed? then Reading(delivered + r.packets, r.rest) else Refused(delivered, i, r)
  }

  lemma FeedUnfolds(start: Bytes, chunks: seq<Bytes>, i: nat)
    requires i < |chunks| && Feed(start, chunks[..i]).Reading?
    ensures var f := Feed(start, chunks[..i]);
            Feed(start, chunks[..i + 1]) == FeedOn(f.delivered, i, ParseAll(f.buffered + chunks[i]))
  {
    assert chunks[..i + 1][..i] == chunks[..i];
  }

  /** What the completion of a read with this parse means for the reading. */
  lemma Fed(delivered: seq<Packet>, i: nat, r: Parse)
    ensures FeedOn(delivered, i, r) == match r
                                       case Parsed(ps, rest) =>
                                         Reading(if ps == [] then delivered else delivered + ps, rest)
                                       case InvalidType => Refused(delivered, i, InvalidType)
                                       case AssertionFailed => Refused(delivered, i, AssertionFailed)
  {
    assert delivered + [] == delivered;
  }

  /** Reads after a refusal are not made. */
  lemma {:induction false} RefusedForGood(buffered: Bytes, chunks: seq<Bytes>, k: nat)
    requires k <= |chunks| && Feed(buffered, chunks[..k]).Refused?
    ensures Feed(buffered, chunks) == Feed(buffered, chunks[..k])
  {
    if k < |chunks| {
      var init := chunks[..|chunks| - 1];
      assert init[..k] == chunks[..k];
      RefusedForGood(buffered, init, k);
    } else {
      assert chunks[..k] == chunks;
    }
  }

  /** Every prefix of the reads parses, to a prefix of the packets. */
  lemma PrefixDelivered(ps: seq<Packet>, chunks: seq<Bytes>, i: nat)
    requires AllSendable(ps) && Concat(chunks) == SerializeAll(ps) && i <= |chunks|
    ensures Feed([], chunks[..i]).Reading? && Feed([], chunks[..i]).delivered <= ps
  {
    ConcatPrefix(chunks, i);
    PrefixParses(ps, |Concat(chunks[..i])|);
    FeedIsParse(chunks[..i]);
  }

  /** What is held back is a proper front of one of the frames, so there is room for more. */
  lemma RoomLeft(ps: seq<Packet>, chunks: seq<Bytes>, i: nat, capacity: nat)
    requires AllSendable(ps) && Concat(chunks) == SerializeAll(ps) && i <= |chunks|
    requires HEADER_SIZE <= capacity && forall p :: p in ps ==> HEADER_SIZE + |p.body| <= capacity
    ensures Feed([], chunks[..i]).Reading? && |Feed([], chunks[..i]).buffered| < capacity
  {
    PrefixDelivered(ps, chunks, i);
    var s := Concat(chunks[..i]);
    FeedIsParse(chunks[..i]);
    ConcatPrefix(chunks, i);
    AllFramesFit(ps, capacity);
    FitsPrefix(SerializeAll(ps), |s|, capacity);
    ReadProgress(s, capacity);
  }

  lemma {:induction false} AllFramesFit(ps: seq<Packet>, capacity: nat)
    requires AllSendable(ps) && forall p :: p in ps ==> HEADER_SIZE + |p.body| <= capacity
    ensures FramesFit(SerializeAll(ps), capacity)
  {
    if ps != [] {
      var s, rest := SerializeAll(ps), SerializeAll(ps[1..]);
      AllFramesFit(ps[1..], capacity);
      HeaderFaithful(ps[0].ptype, |ps[0].body|);
      FirstFrameFits(Header(ps[0].ptype, |ps[0].body|), ps[0].body, rest, capacity);
    }
  }

  lemma FirstFrameFits(h: Bytes, body: Bytes, rest: Bytes, capacity: nat)
    requires |h| == HEADER_SIZE && HeaderLength(h) == |body| && HEADER_SIZE + |body| <= capacity
    requires FramesFit(rest, capacity)
    ensures FramesFit(h + body + rest, capacity)
  {
    assert (h + body + rest)[HEADER_SIZE + |body|..] == rest;
  }

  lemma {:induction false} FitsPrefix(s: Bytes, n: nat, capacity: nat)
    requires FramesFit(s, capacity) && n <= |s|
    ensures FramesFit(s[..n], capacity)
    decreases |s|
  {
    if n >= HEADER_SIZE {
      var end := HEADER_SIZE + HeaderLength(s);
      assert HeaderLength(s[..n]) == HeaderLength(s);
      if n >= end {
        assert s[..n][end..] == s[end..][..n - end];
        FitsPrefix(s[end..], n - end, capacity);
      }
    }
  }
}
