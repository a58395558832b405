/** Messages, their encoding against a route dictionary, and the dictionary's inverse (message.h,
    message.cpp and the Connected constructor in state.h). */
module Messages {
  import opened Prelude
  import Varint

  datatype MessageType = Request | Notify | Response | Push

  datatype Message = Message(mtype: MessageType, id: nat, route: string, data: Bytes, error: bool)

  // Flag bits. Masking with a power of two is a test of one binary digit.
  const ROUTE_COMPRESSION_MASK: nat := 1
  const GZIP_MASK: nat := 16
  const ERROR_MASK: nat := 32
  const MESSAGE_HEADER_LENGTH: nat := 2

  predicate HasBit(flag: nat, mask: nat)
    requires mask > 0
  {
    (flag / mask) % 2 == 1
  }

  predicate HasId(t: MessageType) { t == Request || t == Response }

  /** IsMessageTypeRoutable. */
  predicate IsRoutable(t: MessageType) { t == Request || t == Notify || t == Push }

  /** Message::NewRequest. The data argument is not stored. */
  function NewRequest(id: nat, route: string, data: Bytes): Message {
    Message(Request, id, route, [], false)
  }

  // ---------------------------------------------------------------------------------------
  // Encoding
  // ---------------------------------------------------------------------------------------

  /** The flag byte: the type bits are never written. The route is always a dictionary route here,
      because looking it up comes first and throws otherwise. */
  function EncodeFlag(error: bool): Byte {
    ROUTE_COMPRESSION_MASK + if error then ERROR_MASK else 0
  }

  /** (code >> 8) & 255 and code & 255, for any int code. */
  function EncodeCode(code: int): Bytes {
    [(code / 256) % 256, code % 256]
  }

  /** Message::SerializeInto into an empty buffer; None is the exception for an unknown route. */
  function Encode(m: Message, routeToCode: map<string, int>): Option<Bytes> {
    if m.route !in routeToCode then None
    else Some([EncodeFlag(m.error)]
              + (if HasId(m.mtype) then Varint.Encode(m.id) else [])
              + (if IsRoutable(m.mtype) then EncodeCode(routeToCode[m.route]) else [])
              + m.data)
  }

  // ---------------------------------------------------------------------------------------
  // Decoding
  // ---------------------------------------------------------------------------------------

  /** Malformed is boost::none. Undefined stands for a read past the end of the buffer or a shift
      by 64 bits or more, where the C++ has no defined result. */
  datatype Decoded = Ok(msg: Message) | Malformed | Undefined

  function TypeFromBits(bits: nat): Option<MessageType> {
    match bits
    case 0 => Some(Request)
    case 1 => Some(Notify)
    case 2 => Some(Response)
    case 3 => Some(Push)
    case _ => None
  }

  /** What reading the route yields: the route and the offset after it. */
  datatype RouteRead = RouteAt(route: string, next: nat) | RouteUnknown | RouteUndefined

  /** The two code bytes are narrowed to 8 bits, so only the second one is looked up. The other
      branch builds its string from a count and a character, in that order, as the code does. */
  function ReadRoute(buf: Bytes, compressed: bool, offset: nat, codeToRoute: map<int, string>): (r: RouteRead)
    requires offset <= |buf|
    ensures r.RouteAt? ==> r.next <= |buf|
  {
    if compressed then
      if offset + 2 > |buf| then RouteUndefined
      else if buf[offset + 1] !in codeToRoute then RouteUnknown
      else RouteAt(codeToRoute[buf[offset + 1]], offset + 2)
    else
      if offset + 2 > |buf| || offset + 1 + buf[offset] > |buf| then RouteUndefined
      else RouteAt(seq(buf[offset + 1], _ => buf[offset] as char), offset + 1 + buf[offset])
  }

  /** Message::Deserialize. `inflate` is the decompressor, which is not part of this model. */
  function Decode(buf: Bytes, codeToRoute: map<int, string>, inflate: Bytes -> Option<Bytes>): Decoded {
    if |buf| < MESSAGE_HEADER_LENGTH then Malformed
    else
      var flag := buf[0];
      var mtype := TypeFromBits((flag / 2) % 8);
      if mtype.None? then Malformed
      else
        var id := if HasId(mtype.value) then Varint.Decode(buf, 1) else Varint.Id(0, 1);
        if id.Undefined? then Undefined
        else
          var route := if IsRoutable(mtype.value)
                       then ReadRoute(buf, HasBit(flag, ROUTE_COMPRESSION_MASK), id.next, codeToRoute)
                       else RouteAt("", id.next);
          match route
          case RouteUnknown => Malformed
          case RouteUndefined => Undefined
          case RouteAt(name, offset) => DecodeData(buf, flag, mtype.value, id.value, name, offset, inflate)
  }

  function DecodeData(buf: Bytes, flag: Byte, mtype: MessageType, id: nat, route: string, offset: nat,
                      inflate: Bytes -> Option<Bytes>): Decoded
    requires offset <= |buf|
  {
    if HasBit(flag, GZIP_MASK) then
      match inflate(buf[offset..])
      case None => Malformed
      case Some(data) => Ok(Message(mtype, id, route, data, HasBit(flag, ERROR_MASK)))
    else Ok(Message(mtype, id, route, buf[offset..], HasBit(flag, ERROR_MASK)))
  }

  /** The message type in the flag byte, if the buffer is long enough and the bits name one. */
  function TypeOf(buf: Bytes): Option<MessageType> {
    if |buf| < MESSAGE_HEADER_LENGTH then None else TypeFromBits((buf[0] / 2) % 8)
  }

  /** An id of ten bytes with the continuation bit and at least one more byte. */
  predicate IdOverruns(buf: Bytes) {
    && TypeOf(buf).Some? && HasId(TypeOf(buf).value)
    && |buf| > 11 && forall j :: 1 <= j < 11 ==> buf[j] >= 128
  }

  /** The bytes end within the route: in its two code bytes, or in the text it announces. */
  predicate RouteCutOff(buf: Bytes) {
    && TypeOf(buf).Some? && IsRoutable(TypeOf(buf).value)
    && var id := if HasId(TypeOf(buf).value) then Varint.Decode(buf, 1) else Varint.Id(0, 1);
    && id.Id?
    && (id.next + 2 > |buf| || (!HasBit(buf[0], ROUTE_COMPRESSION_MASK) && id.next + 1 + buf[id.next] > |buf|))
  }

  /** The inputs on which the decoder has no defined result. */
  lemma DecodeUndefinedIff(buf: Bytes, codeToRoute: map<int, string>, inflate: Bytes -> Option<Bytes>)
    ensures Decode(buf, codeToRoute, inflate).Undefined? <==> IdOverruns(buf) || RouteCutOff(buf)
  {
    if |buf| >= 1 {
      Varint.UndefinedIff(buf, 1);
    }
  }

  // ---------------------------------------------------------------------------------------
  // The dictionary and its inverse
  // ---------------------------------------------------------------------------------------

  /** `order` lists each key of the unordered map once: some iteration order. */
  ghost predicate Enumerates(order: seq<string>, routeToCode: map<string, int>) {
    && (forall r :: r in order <==> r in routeToCode)
    && (forall i, j :: 0 <= i < j < |order| ==> order[i] != order[j])
  }

  /** A route dictionary together with the order in which it is iterated. */
  datatype Dict = Dict(routeToCode: map<string, int>, order: seq<string>)

  type RouteDict = d: Dict | Enumerates(d.order, d.routeToCode) witness Dict(map[], [])

  /** Inserting in that order; insert keeps the first route of a code. */
  function Inverse(order: seq<string>, routeToCode: map<string, int>): map<int, string>
    requires forall r :: r in order ==> r in routeToCode
  {
    if order == [] then map[]
    else
      var last := |order| - 1;
      var before := Inverse(order[..last], routeToCode);
      var code := routeToCode[order[last]];
      if code in before then before else before[code := order[last]]
  }

  ghost predicate Injective(routeToCode: map<string, int>) {
    forall r, s :: r in routeToCode && s in routeToCode && routeToCode[r] == routeToCode[s] ==> r == s
  }

  /** For any iteration order: the keys of the inverse are exactly the codes in use, and each maps
      back to its own code. */
  lemma {:induction false} InverseOfPrefix(order: seq<string>, routeToCode: map<string, int>)
    requires forall r :: r in order ==> r in routeToCode
    ensures var inv := Inverse(order, routeToCode);
            && (forall r :: r in order ==> routeToCode[r] in inv)
            && (forall c :: c in inv ==> inv[c] in order && routeToCode[inv[c]] == c)
  {
    if order != [] {
      var last := |order| - 1;
      InverseOfPrefix(order[..last], routeToCode);
      assert order == order[..last] + [order[last]];
    }
  }

  lemma InverseIsInverse(order: seq<string>, routeToCode: map<string, int>)
    requires Enumerates(order, routeToCode)
    ensures var inv := Inverse(order, routeToCode);
            && (forall c :: c in inv <==> c in routeToCode.Values)
            && (forall c :: c in inv ==> inv[c] in routeToCode && routeToCode[inv[c]] == c)
            && (Injective(routeToCode) ==> forall r :: r in routeToCode ==> inv[routeToCode[r]] == r)
  {
    InverseOfPrefix(order, routeToCode);
  }

  /** If routes share a code, the first of them in the iteration order is kept for it. */
  lemma {:induction false} InverseKeepsFirst(order: seq<string>, routeToCode: map<string, int>, i: nat)
    requires (forall r :: r in order ==> r in routeToCode) && i < |order|
    requires forall j :: 0 <= j < i ==> routeToCode[order[j]] != routeToCode[order[i]]
    ensures var inv := Inverse(order, routeToCode);
            routeToCode[order[i]] in inv && inv[routeToCode[order[i]]] == order[i]
  {
    var last := |order| - 1;
    if i < last {
      InverseKeepsFirst(order[..last], routeToCode, i);
    } else {
      InverseOfPrefix(order[..last], routeToCode);
      forall c | c in Inverse(order[..last], routeToCode) ensures c != routeToCode[order[i]] {
        var r := Inverse(order[..last], routeToCode)[c];
        var j :| 0 <= j < last && order[j] == r;
      }
    }
  }

  /** The loop of the Connected constructor. */
  method BuildCodeToRoute(order: seq<string>, routeToCode: map<string, int>) returns (codeToRoute: map<int, string>)
    requires Enumerates(order, routeToCode)
    ensures codeToRoute == Inverse(order, routeToCode)
  {
    codeToRoute := map[];
    for i := 0 to |order|
      invariant codeToRoute == Inverse(order[..i], routeToCode)
    {
      var code := routeToCode[order[i]];
      assert order[..i + 1][..i] == order[..i];
      if code !in codeToRoute {
        codeToRoute := codeToRoute[code := order[i]];
      }
    }
    assert order[..|order|] == order;
  }

  // ---------------------------------------------------------------------------------------
  // Round trip
  // ---------------------------------------------------------------------------------------

  /** The flag byte is read back as type Request, never as gzip, with a compressed route. */
  lemma FlagReadsBack(error: bool)
    ensures var flag := EncodeFlag(error);
            && TypeFromBits((flag / 2) % 8) == Some(Request)
            && HasBit(flag, ROUTE_COMPRESSION_MASK)
            && !HasBit(flag, GZIP_MASK)
            && HasBit(flag, ERROR_MASK) == error
  {
  }

  /** What any encoded Request decodes to: everything but the route is recovered, and the route is
      looked up under the low byte of its code. */
  lemma DecodeOfRequest(m: Message, routeToCode: map<string, int>, codeToRoute: map<int, string>,
                        inflate: Bytes -> Option<Bytes>)
    requires m.mtype == Request && m.route in routeToCode && m.id < TWO_TO_64
    ensures var code := routeToCode[m.route] % 256;
            Decode(Encode(m, routeToCode).value, codeToRoute, inflate) ==
            if code in codeToRoute then Ok(m.(route := codeToRoute[code])) else Malformed
  {
    var flag := [EncodeFlag(m.error)];
    var id := Varint.Encode(m.id);
    var code := EncodeCode(routeToCode[m.route]);
    var buf := Encode(m, routeToCode).value;
    assert buf == flag + id + code + m.data == flag + id + (code + m.data);
    Varint.RoundTrip(flag, m.id, code + m.data);
    FlagReadsBack(m.error);
    var offset := 1 + |id|;
    assert buf[offset + 1] == code[1];
    assert buf[offset + 2..] == m.data;
  }

  /** The type bits are never written, so whatever was encoded never decodes as anything but a
      Request. */
  lemma OnlyRequestsDecode(m: Message, routeToCode: map<string, int>, codeToRoute: map<int, string>,
                           inflate: Bytes -> Option<Bytes>)
    requires m.route in routeToCode
    ensures var d := Decode(Encode(m, routeToCode).value, codeToRoute, inflate);
            d.Ok? ==> d.msg.mtype == Request
  {
    FlagReadsBack(m.error);
  }

  /** The messages the codec carries faithfully under a dictionary: Requests whose route has a code
      in 0..255 and is the route the inverse kept for that code. */
  predicate Recoverable(m: Message, dict: RouteDict) {
    && m.mtype == Request
    && m.route in dict.routeToCode
    && var code := dict.routeToCode[m.route];
    var inv := Inverse(dict.order, dict.routeToCode);
    0 <= code < 256 && code in inv && inv[code] == m.route
  }

  /** The message round trip, and exactly when it holds. */
  lemma MessageRoundTripIff(m: Message, dict: RouteDict, inflate: Bytes -> Option<Bytes>)
    requires m.route in dict.routeToCode && m.id < TWO_TO_64
    ensures Decode(Encode(m, dict.routeToCode).value, Inverse(dict.order, dict.routeToCode), inflate) == Ok(m)
            <==> Recoverable(m, dict)
  {
    var inv := Inverse(dict.order, dict.routeToCode);
    if m.mtype == Request {
      DecodeOfRequest(m, dict.routeToCode, inv, inflate);
      LowByteFindsRouteIff(m.route, dict);
    } else {
      OnlyRequestsDecode(m, dict.routeToCode, inv, inflate);
    }
  }

  /** Looking up the low byte of a route's code finds the route if and only if the code is a byte
      and the inverse kept this route for it. */
  lemma LowByteFindsRouteIff(route: string, dict: RouteDict)
    requires route in dict.routeToCode
    ensures var code := dict.routeToCode[route];
            var inv := Inverse(dict.order, dict.routeToCode);
            (code % 256 in inv && inv[code % 256] == route) <==>
            (0 <= code < 256 && code in inv && inv[code] == route)
  {
    var code := dict.routeToCode[route];
    InverseIsInverse(dict.order, dict.routeToCode);
    LowByte(code);
  }

  lemma LowByte(code: int)
    ensures code % 256 == code <==> 0 <= code < 256
  {
  }

  /** With distinct codes every dictionary route with a code in 0..255 is recoverable. */
  lemma InjectiveIsRecoverable(m: Message, dict: RouteDict)
    requires Injective(dict.routeToCode)
    requires m.mtype == Request && m.route in dict.routeToCode && 0 <= dict.routeToCode[m.route] < 256
    ensures Recoverable(m, dict)
  {
    InverseIsInverse(dict.order, dict.routeToCode);
  }

  /** The data given to NewRequest reaches the other side if and only if there was none. */
  lemma RequestDataArrivesIff(id: nat, route: string, data: Bytes, dict: RouteDict, inflate: Bytes -> Option<Bytes>)
    requires id < TWO_TO_64 && Recoverable(NewRequest(id, route, data), dict)
    ensures var d := Decode(Encode(NewRequest(id, route, data), dict.routeToCode).value,
                            Inverse(dict.order, dict.routeToCode), inflate);
            d.Ok? && d.msg.id == id && d.msg.route == route && (d.msg.data == data <==> data == [])
  {
    MessageRoundTripIff(NewRequest(id, route, data), dict, inflate);
  }

  // ---------------------------------------------------------------------------------------
  // The codec as the program runs it
  // ---------------------------------------------------------------------------------------

  /** Message::SerializeInto. */
  method SerializeInto(m: Message, buf: Bytes, routeToCode: map<string, int>) returns (out: Option<Bytes>)
    ensures out.Some? <==> m.route in routeToCode
    ensures out.Some? ==> out.value == buf + Encode(m, routeToCode).value
  {
    if m.route !in routeToCode {
      return None;
    }
    var code := routeToCode[m.route];
    var flag := ROUTE_COMPRESSION_MASK;
    if m.error {
      flag := flag + ERROR_MASK;
    }
    var b := buf + [flag];
    if m.mtype == Request || m.mtype == Response {
      b := Varint.EncodeInto(b, m.id);
    }
    if IsRoutable(m.mtype) {
      b := b + [(code / 256) % 256];
      b := b + [code % 256];
    }
    b := b + m.data;
    assert b == buf + Encode(m, routeToCode).value;
    return Some(b);
  }

  /** The route branch of Message::Deserialize. */
  method DeserializeRoute(buf: Bytes, flag: Byte, start: nat, codeToRoute: map<int, string>) returns (r: RouteRead)
    requires start <= |buf|
    ensures r == ReadRoute(buf, HasBit(flag, ROUTE_COMPRESSION_MASK), start, codeToRoute)
  {
    var offset := start;
    if HasBit(flag, ROUTE_COMPRESSION_MASK) {
      if offset + 2 > |buf| {
        return RouteUndefined;
      }
      var high: int, low: int := buf[offset], buf[offset + 1];
      var code: int := (high * 256 + low) % 256;
      assert code == low;
      if code !in codeToRoute {
        return RouteUnknown;
      }
      return RouteAt(codeToRoute[code], offset + 2);
    } else {
      if offset + 2 > |buf| || offset + 1 + buf[offset] > |buf| {
        return RouteUndefined;
      }
      var routeLength := buf[offset];
      offset := offset + 1;
      return RouteAt(seq(buf[offset], _ => routeLength as char), offset + routeLength);
    }
  }

  /** Message::Deserialize. */
  method Deserialize(buf: Bytes, codeToRoute: map<int, string>, inflate: Bytes -> Option<Bytes>)
    returns (d: Decoded)
    ensures d == Decode(buf, codeToRoute, inflate)
  {
    if |buf| < MESSAGE_HEADER_LENGTH {
      return Malformed;
    }
    var flag := buf[0];
    var offset := 1;
    var mtype := TypeFromBits((flag / 2) % 8);
    if mtype.None? {
      return Malformed;
    }
    var msg := Message(mtype.value, 0, "", [], false);
    if msg.mtype == Request || msg.mtype == Response {
      var r := Varint.DecodeId(buf, offset);
      if r.Undefined? {
        return Undefined;
      }
      offset := r.next;
      msg := msg.(id := r.value);
    }
    msg := msg.(error := HasBit(flag, ERROR_MASK));
    if IsRoutable(msg.mtype) {
      var r := DeserializeRoute(buf, flag, offset, codeToRoute);
      match r {
        case RouteUndefined => return Undefined;
        case RouteUnknown => return Malformed;
        case RouteAt(route, next) =>
          msg := msg.(route := route);
          offset := next;
      }
    }
    if HasBit(flag, GZIP_MASK) {
      var output := inflate(buf[offset..]);
      if output.None? {
        return Malformed;
      }
      msg := msg.(data := output.value);
    } else {
      msg := msg.(data := buf[offset..]);
    }
    return Ok(msg);
  }
}
