/** The wire format in literal bytes: what is written and how what arrives is read, without the names
    that the serializer, the parser and the codec use for it. */
module Wire {
  import opened Prelude
  import opened Packets
  import opened Framing
  import opened Messages
  import Varint

  // ---------------------------------------------------------------------------------------
  // Packets
  // ---------------------------------------------------------------------------------------

  /** A packet is its type's number, the length in three bytes with the most significant first, and
      the body. */
  lemma PacketOnWire(p: Packet)
    requires |p.body| < 0x100_0000
    ensures var n := |p.body|;
            var t := match p.ptype
                     case Handshake => 1
                     case HandshakeAck => 2
                     case Heartbeat => 3
                     case Data => 4
                     case Kick => 5;
            Serialize(p) == [t, n / 65536, n / 256 % 256, n % 256] + p.body
  {
    var n := |p.body|;
    assert n % TWO_TO_32 == n && n / 65536 % 256 == n / 65536;
  }

  /** What the parser finds at the front of any bytes. */
  lemma FrameOffWire(s: Bytes)
    ensures if |s| < 4 then NextFrame(s) == Incomplete
            else if s[0] == 0 || s[0] > 5 then NextFrame(s) == BadType
            else
              var n: int := s[1] as int * 65536 + s[2] as int * 256 + s[3];
              if |s| < 4 + n then NextFrame(s) == Incomplete
              else if s[0] == 2 || (s[0] == 3 && n > 0) || (s[0] == 5 && n > 0) then NextFrame(s) == Unwanted
              else
                && NextFrame(s).Frame? && NextFrame(s).size == 4 + n
                && NextFrame(s).packet.body == s[4..4 + n]
                && (s[0] == 1 ==> NextFrame(s).packet.ptype == Handshake)
                && (s[0] == 3 ==> NextFrame(s).packet.ptype == Heartbeat)
                && (s[0] == 4 ==> NextFrame(s).packet.ptype == Data)
                && (s[0] == 5 ==> NextFrame(s).packet.ptype == Kick)
  {
    if |s| >= 4 {
      assert HeaderLength(s) == s[1] as int * 65536 + s[2] as int * 256 + s[3];
    }
  }

  // ---------------------------------------------------------------------------------------
  // Message ids
  // ---------------------------------------------------------------------------------------

  /** The number that base-128 digits stand for, least significant first. */
  function Value(digits: Bytes): nat {
    if digits == [] then 0 else digits[0] % 128 + 128 * Value(digits[1..])
  }

  /** An id is written in base 128, least significant digit first, 128 added to all but the last. */
  lemma {:induction false} IdOnWire(n: nat)
    ensures var digits := Varint.Encode(n);
            && digits != [] && Value(digits) == n
            && (forall i :: 0 <= i < |digits| - 1 ==> digits[i] >= 128) && digits[|digits| - 1] < 128
  {
    var digits := Varint.Encode(n);
    if n >= 128 {
      var rest := Varint.Encode(n / 128);
      IdOnWire(n / 128);
      assert digits == [n % 128 + 128] + rest && digits[1..] == rest;
      assert digits[0] % 128 == n % 128;
      assert forall i :: 1 <= i < |digits| ==> digits[i] == rest[i - 1];
    } else {
      assert Value(digits[1..]) == 0;
    }
  }

  /** Digits as the decoder takes them: all but the last have the continuation bit. */
  predicate Continues(digits: Bytes) {
    forall i :: 0 <= i < |digits| - 1 ==> digits[i] >= 128
  }

  lemma ModAdd(a: nat, b: nat)
    ensures (a % TWO_TO_64 + b % TWO_TO_64) % TWO_TO_64 == (a + b) % TWO_TO_64
  {
    var p, q := a / TWO_TO_64, b / TWO_TO_64;
    ModLess(a % TWO_TO_64 + b % TWO_TO_64, p + q);
    assert a + b == (p + q) * TWO_TO_64 + (a % TWO_TO_64 + b % TWO_TO_64);
  }

  lemma {:induction false} ModLess(a: nat, k: nat)
    ensures (k * TWO_TO_64 + a) % TWO_TO_64 == a % TWO_TO_64
  {
    if k > 0 {
      ModLess(a, k - 1);
      assert k * TWO_TO_64 + a == ((k - 1) * TWO_TO_64 + a) + TWO_TO_64;
    }
  }

  /** The decoding loop adds up the digits in 64 bits. */
  lemma {:induction false} DigitsAddUp(buf: Bytes, start: nat, i: nat, sum: nat, digits: Bytes, total: nat)
    requires start <= i && digits != [] && i + |digits| <= |buf| && buf[i..i + |digits|] == digits
    requires Continues(digits) && i - start + |digits| <= 10
    requires digits[|digits| - 1] < 128 || i + |digits| == |buf|
    requires total == sum + Value(digits) * Varint.Pow128(i - start)
    ensures Varint.DecodeFrom(buf, start, i, sum % TWO_TO_64) ==
            Varint.Id(total % TWO_TO_64,
                      if digits[|digits| - 1] < 128 then i + |digits| else start)
    decreases |digits|
  {
    var b := digits[0];
    assert buf[i] == buf[i..i + |digits|][0] == b;
    var sum' := FirstDigit(buf, start, i, sum);
    var rest := digits[1..];
    Spread(digits, Varint.Pow128(i - start));
    assert total == sum' + Value(rest) * Varint.Pow128(i + 1 - start);
    if rest != [] {
      assert buf[i + 1..i + 1 + |rest|] == buf[i..i + |digits|][1..] == rest;
      assert Continues(rest);
      DigitsAddUp(buf, start, i + 1, sum', rest, total);
    } else {
      assert Value(rest) * Varint.Pow128(i + 1 - start) == 0;
    }
  }

  /** One round of the decoding loop. */
  lemma FirstDigit(buf: Bytes, start: nat, i: nat, sum: nat) returns (sum': nat)
    requires start <= i < |buf| && i - start < 10
    ensures sum' == sum + (buf[i] % 128) * Varint.Pow128(i - start)
    ensures Varint.DecodeFrom(buf, start, i, sum % TWO_TO_64) ==
            if buf[i] < 128 then Varint.Id(sum' % TWO_TO_64, i + 1)
            else Varint.DecodeFrom(buf, start, i + 1, sum' % TWO_TO_64)
  {
    sum' := sum + (buf[i] % 128) * Varint.Pow128(i - start);
    ModAdd(sum, (buf[i] % 128) * Varint.Pow128(i - start));
    ModTwice(sum);
  }

  lemma ModTwice(a: nat)
    ensures a % TWO_TO_64 % TWO_TO_64 == a % TWO_TO_64
  {
  }

  lemma Spread(digits: Bytes, w: nat)
    requires digits != []
    ensures Value(digits) * w == (digits[0] % 128) * w + Value(digits[1..]) * (128 * w)
  {
    Distribute(digits[0] % 128, Value(digits[1..]), w);
  }

  lemma Distribute(a: nat, v: nat, w: nat)
    ensures (a + 128 * v) * w == a * w + v * (128 * w)
  {
  }

  /** Up to ten digits are read as the number they stand for, in 64 bits; digits that end without a
      terminator are read as well, but the offset then stays where they began. */
  lemma IdOffWire(before: Bytes, digits: Bytes, after: Bytes)
    requires 1 <= |digits| <= 10 && Continues(digits) && (digits[|digits| - 1] < 128 || after == [])
    ensures Varint.Decode(before + digits + after, |before|) ==
            Varint.Id(Value(digits) % TWO_TO_64,
                      if digits[|digits| - 1] < 128 then |before| + |digits| else |before|)
  {
    var buf := before + digits + after;
    assert buf[|before|..|before| + |digits|] == digits;
    assert Value(digits) == 0 + Value(digits) * Varint.Pow128(0);
    DigitsAddUp(buf, |before|, |before|, 0, digits, Value(digits));
    NoRemainder();
  }

  lemma NoRemainder()
    ensures 0 % TWO_TO_64 == 0
  {
  }

  // ---------------------------------------------------------------------------------------
  // Messages
  // ---------------------------------------------------------------------------------------

  /** A request is the flag 1, or 33 with the error bit, its id, the two bytes of its route's code with
      the more significant one first, and its data. */
  lemma RequestOnWire(m: Message, routeToCode: map<string, int>)
    requires m.mtype == Request && m.route in routeToCode
    ensures var code := routeToCode[m.route];
            Messages.Encode(m, routeToCode) ==
            Some([if m.error then 33 else 1] + Varint.Encode(m.id) + [code / 256 % 256, code % 256] + m.data)
  {
  }

  /** A message with an id and no route: flag 4 for a response, 32 more with the error bit, 16 more
      with compressed data. */
  lemma ResponseOffWire(flag: Byte, id: nat, data: Bytes, codeToRoute: map<int, string>,
                        inflate: Bytes -> Option<Bytes>)
    requires id < TWO_TO_64 && (flag == 4 || flag == 36 || flag == 20 || flag == 52)
    ensures var d := Messages.Decode([flag] + Varint.Encode(id) + data, codeToRoute, inflate);
            if flag == 4 then d == Ok(Message(Response, id, "", data, false))
            else if flag == 36 then d == Ok(Message(Response, id, "", data, true))
            else if inflate(data).None? then d == Malformed
            else d == Ok(Message(Response, id, "", inflate(data).value, flag == 52))
  {
    var buf := [flag] + Varint.Encode(id) + data;
    Varint.RoundTrip([flag], id, data);
    var offset := 1 + |Varint.Encode(id)|;
    assert buf[0] == flag && |buf| >= 2;
    assert buf[offset..] == data;
    ResponseFlags(flag);
    assert Messages.Decode(buf, codeToRoute, inflate) == DecodeData(buf, flag, Response, id, "", offset, inflate);
  }

  lemma ResponseFlags(flag: Byte)
    requires flag == 4 || flag == 36 || flag == 20 || flag == 52
    ensures TypeFromBits((flag / 2) % 8) == Some(Response)
    ensures HasBit(flag, GZIP_MASK) == (flag == 20 || flag == 52)
    ensures HasBit(flag, ERROR_MASK) == (flag == 36 || flag == 52)
  {
  }

  /** A request with a compressed route: the second code byte is looked up. */
  lemma RequestOffWire(flag: Byte, id: nat, high: Byte, low: Byte, data: Bytes, codeToRoute: map<int, string>,
                       inflate: Bytes -> Option<Bytes>)
    requires id < TWO_TO_64 && (flag == 1 || flag == 33)
    ensures var d := Messages.Decode([flag] + Varint.Encode(id) + [high, low] + data, codeToRoute, inflate);
            if low in codeToRoute then d == Ok(Message(Request, id, codeToRoute[low], data, flag == 33))
            else d == Malformed
  {
    var buf := [flag] + Varint.Encode(id) + [high, low] + data;
    var offset := 1 + |Varint.Encode(id)|;
    assert buf == [flag] + Varint.Encode(id) + ([high, low] + data);
    Varint.RoundTrip([flag], id, [high, low] + data);
    assert buf[0] == flag && buf[offset + 1] == low;
    assert buf[offset + 2..] == data;
  }

  /** Notifications (flag 3) and pushes (flag 7) with a compressed route have no id. */
  lemma PushOffWire(flag: Byte, high: Byte, low: Byte, data: Bytes, codeToRoute: map<int, string>,
                    inflate: Bytes -> Option<Bytes>)
    requires flag == 3 || flag == 7
    ensures var d := Messages.Decode([flag, high, low] + data, codeToRoute, inflate);
            if low in codeToRoute
            then d == Ok(Message(if flag == 3 then Notify else Push, 0, codeToRoute[low], data, false))
            else d == Malformed
  {
    var buf := [flag, high, low] + data;
    assert buf[0] == flag && buf[1 + 1] == low;
    assert buf[3..] == data;
  }

  /** With a route that is not compressed (flags 2 and 6) the byte that announces its length becomes
      the character and the first byte of its text the count, as the program builds the string. */
  lemma PlainPushOffWire(flag: Byte, n: Byte, rest: Bytes, codeToRoute: map<int, string>,
                         inflate: Bytes -> Option<Bytes>)
    requires flag == 2 || flag == 6
    ensures var d := Messages.Decode([flag, n] + rest, codeToRoute, inflate);
            if rest == [] || n > |rest| then d == Undefined
            else d == Ok(Message(if flag == 2 then Notify else Push, 0, seq(rest[0], _ => n as char), rest[n..], false))
  {
    var buf := [flag, n] + rest;
    assert buf[0] == flag && buf[1] == n;
    PlainFlags(flag);
    var t := if flag == 2 then Notify else Push;
    if rest != [] && n <= |rest| {
      assert buf[2] == rest[0] && buf[2 + n..] == rest[n..];
      var route := seq(rest[0], _ => n as char);
      assert ReadRoute(buf, false, 1, codeToRoute) == RouteAt(route, 2 + n);
      assert Messages.Decode(buf, codeToRoute, inflate) == DecodeData(buf, flag, t, 0, route, 2 + n, inflate);
    } else {
      assert ReadRoute(buf, false, 1, codeToRoute) == RouteUndefined;
    }
  }

  lemma PlainFlags(flag: Byte)
    requires flag == 2 || flag == 6
    ensures TypeFromBits((flag / 2) % 8) == Some(if flag == 2 then Notify else Push)
    ensures !HasBit(flag, ROUTE_COMPRESSION_MASK) && !HasBit(flag, GZIP_MASK) && !HasBit(flag, ERROR_MASK)
  {
  }

  /** Fewer than two bytes, or a type above three, are rejected. */
  lemma RejectedOffWire(buf: Bytes, codeToRoute: map<int, string>, inflate: Bytes -> Option<Bytes>)
    requires |buf| < 2 || buf[0] % 16 >= 8
    ensures Messages.Decode(buf, codeToRoute, inflate) == Malformed
  {
  }
}
