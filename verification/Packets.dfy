/** Packets and their wire form (packet.h, packet.cpp). A packet is one type byte, a 24-bit
    big-endian body length and the body. Shifts and masks on unsigned integers are written as
    division and remainder by the corresponding power of two. */
module Packets {
  import opened Prelude

  const HEADER_SIZE: nat := 4

  datatype PacketType = Handshake | HandshakeAck | Heartbeat | Data | Kick

  datatype Packet = Packet(ptype: PacketType, body: Bytes)

  /** The enumerator's value. */
  function TypeByte(t: PacketType): Byte {
    match t
    case Handshake => 1
    case HandshakeAck => 2
    case Heartbeat => 3
    case Data => 4
    case Kick => 5
  }

  /** Accepts the five enumerators' bytes and nothing else. */
  function PacketTypeFromByte(b: Byte): Option<PacketType> {
    match b
    case 1 => Some(Handshake)
    case 2 => Some(HandshakeAck)
    case 3 => Some(Heartbeat)
    case 4 => Some(Data)
    case 5 => Some(Kick)
    case _ => None
  }

  // The three bytes of the length, least significant first.
  function FirstByte(v: nat): Byte { v % 256 }
  function SecondByte(v: nat): Byte { (v / 256) % 256 }
  function ThirdByte(v: nat): Byte { (v / 65536) % 256 }

  /** The parser's shift-and-or of the three length bytes. */
  function JoinLength(b2: Byte, b1: Byte, b0: Byte): (n: nat)
    ensures n < TWO_TO_24
  {
    b2 * 65536 + b1 * 256 + b0
  }

  /** Joining undoes splitting, modulo the 24 bits the header has room for. */
  lemma SplitJoin(v: nat)
    ensures JoinLength(ThirdByte(v), SecondByte(v), FirstByte(v)) == v % TWO_TO_24
  {
    var m := v / 256;
    var h := m / 256;
    assert v / 65536 == h;
    var n := JoinLength(h % 256, m % 256, v % 256);
    assert v == (h / 256) * TWO_TO_24 + n by {
      assert v == m * 256 + v % 256 && m == h * 256 + m % 256 && h == (h / 256) * 256 + h % 256;
    }
    ModShift(n, h / 256);
  }

  /** Splitting undoes joining, for every three bytes. */
  lemma JoinSplit(b2: Byte, b1: Byte, b0: Byte)
    ensures var n := JoinLength(b2, b1, b0);
            ThirdByte(n) == b2 && SecondByte(n) == b1 && FirstByte(n) == b0
  {
    var n := JoinLength(b2, b1, b0);
    assert n / 256 == b2 * 256 + b1;
    assert n / 65536 == b2;
  }

  /** Header for a body of `n` bytes; the size is first narrowed to 32 bits. */
  function Header(t: PacketType, n: nat): (h: Bytes)
    ensures |h| == HEADER_SIZE
  {
    var v := n % TWO_TO_32;
    [TypeByte(t), ThirdByte(v), SecondByte(v), FirstByte(v)]
  }

  function Serialize(p: Packet): Bytes {
    Header(p.ptype, |p.body|) + p.body
  }

  function SerializeAll(ps: seq<Packet>): Bytes {
    if ps == [] then [] else Serialize(ps[0]) + SerializeAll(ps[1..])
  }

  /** The length the parser reads back out of a header. */
  function HeaderLength(s: Bytes): nat
    requires |s| >= HEADER_SIZE
  {
    JoinLength(s[1], s[2], s[3])
  }

  /** What a reader sees in the header of a packet of any size: the type, and the length mod 2^24. */
  lemma HeaderReadsBack(t: PacketType, n: nat)
    ensures var h := Header(t, n);
            PacketTypeFromByte(h[0]) == Some(t) && HeaderLength(h) == n % TWO_TO_24
  {
    SplitJoin(n % TWO_TO_32);
    assert n % TWO_TO_32 % TWO_TO_24 == n % TWO_TO_24 by {
      var q := n / TWO_TO_32;
      assert n == q * 256 * TWO_TO_24 + n % TWO_TO_32;
      ModShift(n % TWO_TO_32, q * 256);
    }
  }

  /** For a length that fits, the header says exactly that type and that length. */
  lemma HeaderFaithful(t: PacketType, n: nat)
    requires n < TWO_TO_24
    ensures var h := Header(t, n); PacketTypeFromByte(h[0]) == Some(t) && HeaderLength(h) == n
  {
    HeaderReadsBack(t, n);
    assert n % TWO_TO_24 == n;
  }

  /** Rebuilding a header from what was read out of it gives the header back. */
  lemma HeaderRebuilt(s: Bytes, t: PacketType)
    requires |s| >= HEADER_SIZE && PacketTypeFromByte(s[0]) == Some(t)
    ensures Header(t, HeaderLength(s)) == s[..HEADER_SIZE]
  {
    var n := JoinLength(s[1], s[2], s[3]);
    assert n % TWO_TO_32 == n;
    assert Header(t, n) == [s[0], s[1], s[2], s[3]] by {
      assert TypeByte(t) == s[0];
      JoinSplit(s[1], s[2], s[3]);
    }
  }

  lemma ModShift(a: nat, k: nat)
    ensures (k * TWO_TO_24 + a) % TWO_TO_24 == a % TWO_TO_24
  {
    if k > 0 {
      ModShift(a, k - 1);
      assert (k * TWO_TO_24 + a) == ((k - 1) * TWO_TO_24 + a) + TWO_TO_24;
    }
  }

  /** Packet::SerializeInto: appends the frame to `buf` byte by byte. */
  method SerializeInto(p: Packet, buf: Bytes) returns (out: Bytes)
    ensures out == buf + Serialize(p)
  {
    var size := |p.body| % TWO_TO_32;
    out := buf + [TypeByte(p.ptype)];
    out := out + [ThirdByte(size)];
    out := out + [SecondByte(size)];
    out := out + [FirstByte(size)];
    out := out + p.body;
  }
}
