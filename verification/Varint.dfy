/** Message ids on the wire: base-128 digits, least significant first, the high bit set on all but
    the last byte (unsigned LEB128, section 7.6 of DWARF 4). */
module Varint {
  import opened Prelude

  function Encode(n: nat): Bytes {
    if n < 128 then [n] else [n % 128 + 128] + Encode(n / 128)
  }

  function Pow128(k: nat): (p: nat)
    ensures p >= 1
  {
    if k == 0 then 1 else 128 * Pow128(k - 1)
  }

  /** What reading an id yields: its value and the offset after it, or a shift by 64 bits or more,
      which C++ leaves undefined. */
  datatype Reading = Id(value: nat, next: nat) | Undefined

  /** Adds the low seven bits of `b`, shifted left by 7 * k, to a 64-bit sum. */
  function AddDigit(sum: nat, b: Byte, k: nat): nat {
    (sum + ((b % 128) * Pow128(k)) % TWO_TO_64) % TWO_TO_64
  }

  /** The decoding loop from index `i` on, for an id that starts at `start`. The sum is kept in 64
      bits. If the bytes end before a terminator, the offset stays where the id began. */
  function DecodeFrom(buf: Bytes, start: nat, i: nat, sum: nat): (r: Reading)
    requires start <= i <= |buf|
    ensures r.Id? ==> start <= r.next <= |buf|
    decreases |buf| - i
  {
    if i == |buf| then Id(sum, start)
    else if 7 * (i - start) >= 64 then Undefined
    else
      var sum' := AddDigit(sum, buf[i], i - start);
      if buf[i] < 128 then Id(sum', i + 1) else DecodeFrom(buf, start, i + 1, sum')
  }

  function Decode(buf: Bytes, start: nat): Reading
    requires start <= |buf|
  {
    DecodeFrom(buf, start, start, 0)
  }

  // ---------------------------------------------------------------------------------------

  lemma {:induction false} Pow128Grows(j: nat, k: nat)
    requires j <= k
    ensures Pow128(j) <= Pow128(k)
  {
    if j < k {
      Pow128Grows(j, k - 1);
    }
  }

  lemma Pow128Bound()
    ensures 64 * Pow128(8) < 2 * Pow128(9) == TWO_TO_64 < Pow128(10)
  {
    assert Pow128(2) == 0x4000;
    assert Pow128(4) == 0x4000 * 0x4000;
    assert Pow128(6) == 0x4000 * 0x4000 * 0x4000;
    assert Pow128(8) == 0x4000 * 0x4000 * 0x4000 * 0x4000;
    assert Pow128(10) == 0x4000 * Pow128(8);
  }

  /** Splitting off one digit of `n` at weight `w`. */
  lemma Digit(n: nat, w: nat)
    ensures n * w == (n % 128) * w + (n / 128) * (128 * w)
  {
    var q, r := n / 128, n % 128;
    assert n == q * 128 + r;
    assert n * w == (q * 128 + r) * w == q * 128 * w + r * w;
  }

  /** A positive number at weight 128^10 or more needs more than 64 bits. */
  lemma HeavyDigits(n: nat, k: nat)
    requires n > 0 && k >= 10
    ensures n * Pow128(k) >= TWO_TO_64
  {
    Pow128Grows(10, k);
    Pow128Bound();
    assert n * Pow128(k) == Pow128(k) + (n - 1) * Pow128(k);
  }

  /** Every shift and every addition of the decoding loop from index `i` on stays within 64 bits. */
  predicate StaysInRange(buf: Bytes, start: nat, i: nat, sum: nat)
    requires start <= i <= |buf|
    decreases |buf| - i
  {
    i < |buf| ==>
      var sum' := sum + (buf[i] % 128) * Pow128(i - start);
      && 7 * (i - start) < 64
      && sum' < TWO_TO_64
      && (buf[i] >= 128 ==> StaysInRange(buf, start, i + 1, sum'))
  }

  /** Adding a digit does not overflow while the whole id fits, and leaves the rest to be added. */
  lemma DigitFits(sum: nat, n: nat, b: Byte, k: nat)
    requires sum + n * Pow128(k) < TWO_TO_64 && b % 128 == n % 128
    ensures AddDigit(sum, b, k) == sum + (b % 128) * Pow128(k) < TWO_TO_64
    ensures AddDigit(sum, b, k) + (n / 128) * Pow128(k + 1) == sum + n * Pow128(k)
  {
    var w := Pow128(k);
    Digit(n, w);
    assert 0 <= (n / 128) * (128 * w);
    assert (b % 128) * w == (n % 128) * w < TWO_TO_64;
  }

  /** The invariant of the round trip: with `sum` read so far and `n` still encoded at weight
      128^k, the decoder ends with sum + n * 128^k, exactly at the end of the encoding. */
  lemma {:induction false} DecodeDigits(buf: Bytes, start: nat, i: nat, sum: nat, n: nat)
    requires start <= i && i + |Encode(n)| <= |buf|
    requires buf[i..i + |Encode(n)|] == Encode(n)
    requires sum + n * Pow128(i - start) < TWO_TO_64
    requires n > 0 || i == start
    ensures DecodeFrom(buf, start, i, sum) == Id(sum + n * Pow128(i - start), i + |Encode(n)|)
    ensures StaysInRange(buf, start, i, sum)
    ensures |Encode(n)| <= 10 - (i - start)
    decreases n
  {
    var k := i - start;
    assert k < 10 by { if k >= 10 { HeavyDigits(n, k); } }
    assert buf[i] == buf[i..i + |Encode(n)|][0] == Encode(n)[0];
    DigitFits(sum, n, buf[i], k);
    if n >= 128 {
      var tail := Encode(n / 128);
      assert buf[i + 1..i + 1 + |tail|] == buf[i..i + |Encode(n)|][1..] == tail;
      DecodeDigits(buf, start, i + 1, AddDigit(sum, buf[i], k), n / 128);
    }
  }

  /** Round trip for every 64-bit id, in any surroundings: one to ten bytes are written, the reader
      recovers the id, stops exactly after them, and neither shifts too far nor overflows. */
  lemma RoundTrip(before: Bytes, n: nat, after: Bytes)
    requires n < TWO_TO_64
    ensures 1 <= |Encode(n)| <= 10
    ensures Decode(before + Encode(n) + after, |before|) == Id(n, |before| + |Encode(n)|)
    ensures StaysInRange(before + Encode(n) + after, |before|, |before|, 0)
  {
    var buf := before + Encode(n) + after;
    assert buf[|before|..|before| + |Encode(n)|] == Encode(n);
    assert n * Pow128(0) == n;
    DecodeDigits(buf, |before|, |before|, 0, n);
  }

  /** The reader's shift goes out of range exactly on eleven or more bytes of which the first ten
      all have the continuation bit. */
  lemma UndefinedIff(buf: Bytes, start: nat)
    requires start <= |buf|
    ensures Decode(buf, start).Undefined? <==>
            start + 10 < |buf| && forall j :: start <= j < start + 10 ==> buf[j] >= 128
  {
    UndefinedFrom(buf, start, start, 0);
  }

  lemma {:induction false} UndefinedFrom(buf: Bytes, start: nat, i: nat, sum: nat)
    requires start <= i <= |buf| && i <= start + 10
    ensures DecodeFrom(buf, start, i, sum).Undefined? <==>
            start + 10 < |buf| && forall j :: i <= j < start + 10 ==> buf[j] >= 128
    decreases |buf| - i
  {
    if i < |buf| && i < start + 10 && buf[i] >= 128 {
      UndefinedFrom(buf, start, i + 1, AddDigit(sum, buf[i], i - start));
    }
  }

  /** The encoding loop of Message::SerializeInto. */
  method EncodeInto(buf: Bytes, id: nat) returns (out: Bytes)
    ensures out == buf + Encode(id)
  {
    out := buf;
    var n := id;
    while true
      invariant out + Encode(n) == buf + Encode(id)
      decreases n
    {
      var b := n % 128;
      var more := n / 128;
      if more != 0 {
        out := out + [b + 128];
        n := more;
      } else {
        out := out + [b];
        break;
      }
    }
  }

  /** The decoding loop of Message::Deserialize. */
  method DecodeId(buf: Bytes, start: nat) returns (r: Reading)
    requires start <= |buf|
    ensures r == Decode(buf, start)
  {
    var id: nat := 0;
    var i := start;
    while i < |buf|
      invariant start <= i <= |buf|
      invariant Decode(buf, start) == DecodeFrom(buf, start, i, id)
    {
      var shift := 7 * (i - start);
      if shift >= 64 {
        return Undefined;
      }
      var b := buf[i];
      id := AddDigit(id, b, i - start);
      if b < 128 {
        return Id(id, i + 1);
      }
      i := i + 1;
    }
    return Id(id, start);
  }
}
