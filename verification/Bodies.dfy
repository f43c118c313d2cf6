/**
 Message bodies that use the multi-part codec (icmp/dstunreach.go, icmp/timeexceeded.go,
 icmp/paramprob.go, icmp/echo.go) and the raw body.
 */
module Bodies {
  import opened Bytes
  import opened Wrappers
  import opened Extension
  import opened Multipart
  import opened MultipartLaws

  datatype Body =
    | DstUnreach(data: seq<byte>, exts: seq<Ext>)
    | TimeExceeded(data: seq<byte>, exts: seq<Ext>)
    | ParamProb(pointer: nat, data: seq<byte>, exts: seq<Ext>)
    | ExtendedEchoRequest(id: int, seqNo: int, local: bool, exts: seq<Ext>)
    | RawBody(octets: seq<byte>)

  predicate NamesFit(body: Body) {
    body.RawBody? || AllFit(body.exts)
  }

  function Len(body: Body, proto: int): (r: nat) {
    match body
    case RawBody(octets) => |octets|
    case ExtendedEchoRequest(_, _, _, exts) => BodyLen(proto, false, 0, exts)
    case _ => BodyLen(proto, true, |body.data|, body.exts)
  }

  /** The message type whose rules decide which objects the body may carry. */
  function TypeFor(body: Body, proto: int): (r: Type)
    requires Known(proto) && !body.RawBody?
  {
    match body
    case DstUnreach(_, _) => if proto == ICMP then V4_DST_UNREACH else V6_DST_UNREACH
    case TimeExceeded(_, _) => if proto == ICMP then V4_TIME_EXCEEDED else V6_TIME_EXCEEDED
    case ParamProb(_, _, _) => if proto == ICMP then V4_PARAM_PROB else V6_PARAM_PROB
    case ExtendedEchoRequest(_, _, _, _) => if proto == ICMP then V4_EXTENDED_ECHO else V6_EXTENDED_ECHO
  }

  // ----- Marshalling ------------------------------------------------------

  /** The octets before the extension structure of a request. */
  function EchoLeading(id: int, seqNo: int, local: bool): (r: seq<byte>)
    ensures |r| == 4
  {
    Be16(id) + [Low8(seqNo), if local then 1 else 0]
  }

  function Encode(body: Body, proto: int): (r: Result<seq<byte>>)
    requires NamesFit(body)
    ensures r.Ok? ==> |r.value| == Len(body, proto)
  {
    if body.RawBody? then Ok(body.octets)
    else if !Known(proto) then Err(InvalidProtocol)
    else if body.ParamProb? && proto == IPV6_ICMP then
      Ok(Be32(body.pointer) + Pad(body.data, BodyLen(proto, true, |body.data|, body.exts) - 4))
    else if !Allowed(TypeFor(body, proto), body.exts) then Err(InvalidExtension)
    else match body
      case ParamProb(pointer, data, exts) => Ok(EncodeBody(proto, true, data, exts)[0 := Low8(pointer)])
      case ExtendedEchoRequest(id, seqNo, local, exts) => Ok(EchoLeading(id, seqNo, local) + Tail(exts, proto))
      case DstUnreach(data, exts) => Ok(EncodeBody(proto, true, data, exts))
      case TimeExceeded(data, exts) => Ok(EncodeBody(proto, true, data, exts))
      case RawBody(octets) => Ok(octets)
  }

  method Marshal(body: Body, proto: int) returns (r: Result<seq<byte>>)
    requires NamesFit(body)
    ensures r == Encode(body, proto)
  {
    match body
    case DstUnreach(data, exts) => r := MarshalError(body, proto);
    case TimeExceeded(data, exts) => r := MarshalError(body, proto);
    case ParamProb(pointer, data, exts) => r := MarshalParamProb(pointer, data, exts, proto);
    case ExtendedEchoRequest(id, seqNo, local, exts) => r := MarshalEcho(id, seqNo, local, exts, proto);
    case RawBody(octets) => r := Ok(octets);
  }

  /** `DstUnreach.Marshal` and `TimeExceeded.Marshal`. */
  method MarshalError(body: Body, proto: int) returns (r: Result<seq<byte>>)
    requires (body.DstUnreach? || body.TimeExceeded?) && AllFit(body.exts)
    ensures r == Encode(body, proto)
  {
    var typ: Type;
    if proto == ICMP {
      typ := if body.DstUnreach? then V4_DST_UNREACH else V4_TIME_EXCEEDED;
    } else if proto == IPV6_ICMP {
      typ := if body.DstUnreach? then V6_DST_UNREACH else V6_TIME_EXCEEDED;
    } else {
      return Err(InvalidProtocol);
    }
    var ok := ValidExtensions(typ, body.exts);
    if !ok {
      return Err(InvalidExtension);
    }
    var b := MarshalBody(proto, true, body.data, body.exts);
    return Ok(b[..]);
  }

  method MarshalParamProb(pointer: nat, data: seq<byte>, exts: seq<Ext>, proto: int) returns (r: Result<seq<byte>>)
    requires AllFit(exts)
    ensures r == Encode(ParamProb(pointer, data, exts), proto)
  {
    if proto == ICMP {
      var ok := ValidExtensions(V4_PARAM_PROB, exts);
      if !ok {
        return Err(InvalidExtension);
      }
      var b := MarshalBody(proto, true, data, exts);
      b[0] := Low8(pointer);
      return Ok(b[..]);
    } else if proto == IPV6_ICMP {
      var n, _ := BodyDataLen(proto, true, data, exts);
      var b := Make(n);
      Store(b, 0, Be32(pointer));
      Copy(b, 4, data);
      assert b[..] == Be32(pointer) + Pad(data, n - 4);
      return Ok(b[..]);
    } else {
      return Err(InvalidProtocol);
    }
  }

  /** Identifier, sequence number and flag are stored after the structure has been sealed. */
  method MarshalEcho(id: int, seqNo: int, local: bool, exts: seq<Ext>, proto: int) returns (r: Result<seq<byte>>)
    requires AllFit(exts)
    ensures r == Encode(ExtendedEchoRequest(id, seqNo, local, exts), proto)
  {
    var typ: Type;
    if proto == ICMP {
      typ := V4_EXTENDED_ECHO;
    } else if proto == IPV6_ICMP {
      typ := V6_EXTENDED_ECHO;
    } else {
      return Err(InvalidProtocol);
    }
    var ok := ValidExtensions(typ, exts);
    if !ok {
      return Err(InvalidExtension);
    }
    var b := MarshalBody(proto, false, [], exts);
    PlainEchoBody(proto, exts);
    StoreEchoLeading(id, seqNo, local, b, Tail(exts, proto));
    return Ok(b[..]);
  }

  lemma PlainEchoBody(proto: int, exts: seq<Ext>)
    requires AllFit(exts)
    ensures EncodeBody(proto, false, [], exts) == [0, 0, 0, 0] + Tail(exts, proto)
  {
    NothingBetween([0, 0, 0, 0], Tail(exts, proto));
  }

  lemma NothingBetween(leading: seq<byte>, tail: seq<byte>)
    ensures leading + Pad([], 0) + tail == leading + tail
  {}

  method StoreEchoLeading(id: int, seqNo: int, local: bool, b: array<byte>, ghost tail: seq<byte>)
    requires b[..] == [0, 0, 0, 0] + tail
    modifies b
    ensures b[..] == EchoLeading(id, seqNo, local) + tail
  {
    Store(b, 0, Be16(id));
    b[2] := Low8(seqNo);
    if local {
      // Setting the lowest bit.
      b[3] := b[3] / 2 * 2 + 1;
    }
  }

  // ----- Parsing ----------------------------------------------------------

  /** The parser that a message type selects; other registered types have fixed layouts. */
  predicate HasBodyParser(typ: Type) {
    IsMultipart(typ) || IsExtendedEcho(typ) || typ == V6_PARAM_PROB
  }

  function Decode(typ: Type, b: seq<byte>): (r: Result<Body>)
    requires HasBodyParser(typ)
  {
    var proto := if typ.V4? then ICMP else IPV6_ICMP;
    if |b| < 4 then Err(MessageTooShort)
    else if typ == V6_PARAM_PROB then Ok(ParamProb(U32(b), b[4..], []))
    else
      var (data, exts) := DecodeBody(proto, typ, b);
      if typ == V4_DST_UNREACH || typ == V6_DST_UNREACH then Ok(DstUnreach(data, exts))
      else if typ == V4_TIME_EXCEEDED || typ == V6_TIME_EXCEEDED then Ok(TimeExceeded(data, exts))
      else if typ == V4_PARAM_PROB then Ok(ParamProb(b[0], data, exts))
      else Ok(ExtendedEchoRequest(U16(b), b[2], b[3] % 2 == 1, exts))
  }

  method Parse(proto: int, typ: Type, b: seq<byte>) returns (r: Result<Body>)
    requires HasBodyParser(typ) && proto == if typ.V4? then ICMP else IPV6_ICMP
    ensures r == Decode(typ, b)
  {
    if |b| < 4 {
      return Err(MessageTooShort);
    }
    if typ == V6_PARAM_PROB {
      return Ok(ParamProb(U32(b), b[4..], []));
    }
    var data, exts := ParseBody(proto, typ, b);
    if typ == V4_DST_UNREACH || typ == V6_DST_UNREACH {
      r := Ok(DstUnreach(data, exts));
    } else if typ == V4_TIME_EXCEEDED || typ == V6_TIME_EXCEEDED {
      r := Ok(TimeExceeded(data, exts));
    } else if typ == V4_PARAM_PROB {
      r := Ok(ParamProb(b[0], data, exts));
    } else {
      var p := ExtendedEchoRequest(U16(b), b[2], false, exts);
      if b[3] % 2 != 0 {
        p := p.(local := true);
      }
      r := Ok(p);
    }
  }

  // ----- Round trip -------------------------------------------------------

  /** The data and the objects survive: see the limits in MultipartLaws. */
  predicate Carried(proto: int, data: seq<byte>, exts: seq<Ext>) {
    if exts == [] then |data| < 136 || !ValidHeader(data[128..]) || DecodeObjects(data[132..]).Err?
    else Sendable(exts, proto) && |data| <= MaxData(proto)
  }

  function PaddedData(proto: int, data: seq<byte>, exts: seq<Ext>): (r: seq<byte>)
    requires Known(proto)
  {
    if exts == [] then data else Pad(data, OrigDatagramLen(proto, |data|))
  }

  /** What comes back: data padded, objects canonical, integers cut to their fields. */
  function Canonical(body: Body, proto: int): (r: Body)
    requires Known(proto)
  {
    match body
    case DstUnreach(data, exts) => DstUnreach(PaddedData(proto, data, exts), CanonicalAll(exts, proto))
    case TimeExceeded(data, exts) => TimeExceeded(PaddedData(proto, data, exts), CanonicalAll(exts, proto))
    case ParamProb(pointer, data, exts) =>
      if proto == IPV6_ICMP
      then ParamProb(pointer % 0x1_0000_0000, Pad(data, BodyLen(proto, true, |data|, exts) - 4), [])
      else ParamProb(pointer % 0x100, PaddedData(proto, data, exts), CanonicalAll(exts, proto))
    case ExtendedEchoRequest(id, seqNo, local, exts) =>
      ExtendedEchoRequest(id % 0x1_0000, seqNo % 0x100, local, CanonicalAll(exts, proto))
    case RawBody(_) => body
  }

  /** The bodies that parsing gives back; a parameter problem for IPv6 always does, without its objects. */
  predicate Returns(body: Body, proto: int)
    requires Known(proto)
  {
    match body
    case RawBody(_) => false
    case ParamProb(_, data, exts) => proto == IPV6_ICMP || (Allowed(V4_PARAM_PROB, exts) && Carried(proto, data, exts))
    case ExtendedEchoRequest(_, _, _, exts) =>
      Allowed(TypeFor(body, proto), exts) && (exts == [] || Sendable(exts, proto))
    case _ => Allowed(TypeFor(body, proto), body.exts) && Carried(proto, body.data, body.exts)
  }

  /** Writing to octet 0 changes neither what ICMPv4 parses after the leading octets nor its length attribute. */
  lemma PointerIsIndependent(b: seq<byte>, v: byte, typ: Type)
    requires |b| >= 4
    ensures DecodeBody(ICMP, typ, b[0 := v]) == DecodeBody(ICMP, typ, b)
  {
    assert b[0 := v][4..] == b[4..];
  }

  lemma DataRoundTrip(proto: int, typ: Type, data: seq<byte>, exts: seq<Ext>)
    requires Known(proto) && !IsExtendedEcho(typ) && AllFit(exts) && Carried(proto, data, exts)
    ensures DecodeBody(proto, typ, EncodeBody(proto, true, data, exts))
         == (PaddedData(proto, data, exts), CanonicalAll(exts, proto))
  {
    if exts == [] {
      PlainRoundTripIff(proto, typ, data);
    } else {
      MultipartLaws.RoundTrip(proto, typ, data, exts);
    }
  }

  lemma EchoLeadingRead(id: int, seqNo: int, local: bool, tail: seq<byte>)
    ensures var b := EchoLeading(id, seqNo, local) + tail;
            U16(b) == id % 0x1_0000 && b[2] == seqNo % 0x100 && (b[3] % 2 == 1 <==> local)
  {
    U16Be16(id);
    PrefixDecides(Be16(id), [Low8(seqNo), if local then 1 else 0] + tail);
    assert EchoLeading(id, seqNo, local) + tail == Be16(id) + ([Low8(seqNo), if local then 1 else 0] + tail);
  }

  lemma EchoObjects(proto: int, typ: Type, exts: seq<Ext>, leading: seq<byte>)
    requires IsExtendedEcho(typ) && |leading| == 4 && AllFit(exts) && (exts == [] || Sendable(exts, proto))
    ensures DecodeBody(proto, typ, leading + Tail(exts, proto)) == ([], CanonicalAll(exts, proto))
  {
    if exts == [] {
      assert (leading + [])[4..] == [];
    } else {
      EchoRoundTrip(proto, typ, exts, leading);
    }
  }

  lemma EchoBodyRoundTrip(proto: int, id: int, seqNo: int, local: bool, exts: seq<Ext>)
    requires Known(proto) && AllFit(exts) && (exts == [] || Sendable(exts, proto))
    ensures var typ := if proto == ICMP then V4_EXTENDED_ECHO else V6_EXTENDED_ECHO;
            Decode(typ, EchoLeading(id, seqNo, local) + Tail(exts, proto))
            == Ok(ExtendedEchoRequest(id % 0x1_0000, seqNo % 0x100, local, CanonicalAll(exts, proto)))
  {
    var typ := if proto == ICMP then V4_EXTENDED_ECHO else V6_EXTENDED_ECHO;
    var leading, tail := EchoLeading(id, seqNo, local), Tail(exts, proto);
    EchoLeadingRead(id, seqNo, local, tail);
    EchoObjects(proto, typ, exts, leading);
    DecodeEcho(proto, leading + tail, CanonicalAll(exts, proto));
  }

  lemma DecodeEcho(proto: int, b: seq<byte>, exts: seq<Ext>)
    requires Known(proto) && |b| >= 4
    requires DecodeBody(proto, if proto == ICMP then V4_EXTENDED_ECHO else V6_EXTENDED_ECHO, b) == ([], exts)
    ensures Decode(if proto == ICMP then V4_EXTENDED_ECHO else V6_EXTENDED_ECHO, b)
         == Ok(ExtendedEchoRequest(U16(b), b[2], b[3] % 2 == 1, exts))
  {}

  /** On IPv6 the pointer takes all four leading octets, and the space meant for objects is zero data. */
  lemma ParamProbV6RoundTrip(pointer: nat, data: seq<byte>, n: nat)
    requires |data| <= n
    ensures Decode(V6_PARAM_PROB, Be32(pointer) + Pad(data, n))
         == Ok(ParamProb(pointer % 0x1_0000_0000, Pad(data, n), []))
  {
    U32Be32(pointer);
    PrefixDecides(Be32(pointer), Pad(data, n));
    assert (Be32(pointer) + Pad(data, n))[4..] == Pad(data, n);
  }

  /** What the bodies' own parsers make of a decoded multi-part body. */
  lemma DecodeError(body: Body, proto: int, b: seq<byte>, data: seq<byte>, exts: seq<Ext>)
    requires Known(proto) && (body.DstUnreach? || body.TimeExceeded?) && |b| >= 4
    requires DecodeBody(proto, TypeFor(body, proto), b) == (data, exts)
    ensures Decode(TypeFor(body, proto), b)
         == Ok(if body.DstUnreach? then DstUnreach(data, exts) else TimeExceeded(data, exts))
  {}

  lemma DecodeParamProb(b: seq<byte>, v: byte, data: seq<byte>, exts: seq<Ext>)
    requires |b| >= 4 && DecodeBody(ICMP, V4_PARAM_PROB, b) == (data, exts)
    ensures Decode(V4_PARAM_PROB, b[0 := v]) == Ok(ParamProb(v, data, exts))
  {
    PointerIsIndependent(b, v, V4_PARAM_PROB);
  }

  lemma ParamProbV4RoundTrip(pointer: nat, data: seq<byte>, exts: seq<Ext>, b: seq<byte>)
    requires AllFit(exts) && Carried(ICMP, data, exts) && b == EncodeBody(ICMP, true, data, exts)
    ensures Decode(V4_PARAM_PROB, b[0 := Low8(pointer)])
         == Ok(ParamProb(pointer % 0x100, PaddedData(ICMP, data, exts), CanonicalAll(exts, ICMP)))
  {
    DataRoundTrip(ICMP, V4_PARAM_PROB, data, exts);
    DecodeParamProb(b, Low8(pointer), PaddedData(ICMP, data, exts), CanonicalAll(exts, ICMP));
  }

  /** The body is marshalled, and its own parser gives it back in canonical form. */
  predicate ComesBack(body: Body, proto: int)
    requires Known(proto) && NamesFit(body) && !body.RawBody?
  {
    && Encode(body, proto).Ok?
    && HasBodyParser(TypeFor(body, proto))
    && Decode(TypeFor(body, proto), Encode(body, proto).value) == Ok(Canonical(body, proto))
  }

  lemma ErrorRoundTrip(body: Body, proto: int)
    requires Known(proto) && (body.DstUnreach? || body.TimeExceeded?) && NamesFit(body) && Returns(body, proto)
    ensures ComesBack(body, proto)
  {
    ErrorDecodes(body, proto, EncodeBody(proto, true, body.data, body.exts));
  }

  lemma ErrorDecodes(body: Body, proto: int, b: seq<byte>)
    requires Known(proto) && (body.DstUnreach? || body.TimeExceeded?)
    requires AllFit(body.exts) && Carried(proto, body.data, body.exts)
    requires b == EncodeBody(proto, true, body.data, body.exts)
    ensures Decode(TypeFor(body, proto), b) == Ok(Canonical(body, proto))
  {
    DataRoundTrip(proto, TypeFor(body, proto), body.data, body.exts);
    DecodeError(body, proto, b, PaddedData(proto, body.data, body.exts), CanonicalAll(body.exts, proto));
  }

  lemma EncodeParamProbV4(pointer: nat, data: seq<byte>, exts: seq<Ext>, b: seq<byte>)
    requires AllFit(exts) && Allowed(V4_PARAM_PROB, exts) && b == EncodeBody(ICMP, true, data, exts)
    ensures Encode(ParamProb(pointer, data, exts), ICMP) == Ok(b[0 := Low8(pointer)])
  {}

  lemma EncodeParamProbV6(pointer: nat, data: seq<byte>, exts: seq<Ext>, n: nat)
    requires AllFit(exts) && n == BodyLen(IPV6_ICMP, true, |data|, exts) - 4
    ensures Encode(ParamProb(pointer, data, exts), IPV6_ICMP) == Ok(Be32(pointer) + Pad(data, n))
  {}

  /** Putting a marshaller and a parser together. */
  lemma Together(body: Body, proto: int, b: seq<byte>)
    requires Known(proto) && NamesFit(body) && !body.RawBody? && HasBodyParser(TypeFor(body, proto))
    requires Encode(body, proto) == Ok(b) && Decode(TypeFor(body, proto), b) == Ok(Canonical(body, proto))
    ensures ComesBack(body, proto)
  {}

  lemma ParamProbV4Returns(pointer: nat, data: seq<byte>, exts: seq<Ext>, b: seq<byte>)
    requires AllFit(exts) && Allowed(V4_PARAM_PROB, exts) && Carried(ICMP, data, exts)
    requires b == EncodeBody(ICMP, true, data, exts)
    ensures ComesBack(ParamProb(pointer, data, exts), ICMP)
  {
    EncodeParamProbV4(pointer, data, exts, b);
    ParamProbV4RoundTrip(pointer, data, exts, b);
    Together(ParamProb(pointer, data, exts), ICMP, b[0 := Low8(pointer)]);
  }

  lemma ParamProbV6Returns(pointer: nat, data: seq<byte>, exts: seq<Ext>, n: nat)
    requires AllFit(exts) && n == BodyLen(IPV6_ICMP, true, |data|, exts) - 4
    ensures ComesBack(ParamProb(pointer, data, exts), IPV6_ICMP)
  {
    EncodeParamProbV6(pointer, data, exts, n);
    ParamProbV6RoundTrip(pointer, data, n);
    Together(ParamProb(pointer, data, exts), IPV6_ICMP, Be32(pointer) + Pad(data, n));
  }

  lemma RequestRoundTrip(body: Body, proto: int)
    requires Known(proto) && body.ExtendedEchoRequest? && NamesFit(body) && Returns(body, proto)
    ensures ComesBack(body, proto)
  {
    EchoBodyRoundTrip(proto, body.id, body.seqNo, body.local, body.exts);
  }

  /** Every such body comes back in canonical form through its own parser. */
  lemma RoundTrip(body: Body, proto: int)
    requires Known(proto) && NamesFit(body) && Returns(body, proto)
    ensures ComesBack(body, proto)
  {
    match body
    case DstUnreach(_, _) => ErrorRoundTrip(body, proto);
    case TimeExceeded(_, _) => ErrorRoundTrip(body, proto);
    case ParamProb(pointer, data, exts) =>
      if proto == IPV6_ICMP {
        ParamProbV6Returns(pointer, data, exts, BodyLen(proto, true, |data|, exts) - 4);
      } else {
        ParamProbV4Returns(pointer, data, exts, EncodeBody(proto, true, data, exts));
      }
    case ExtendedEchoRequest(_, _, _, _) => RequestRoundTrip(body, proto);
  }

  // ----- Fixed point ------------------------------------------------------

  lemma DataRemarshal(proto: int, data: seq<byte>, exts: seq<Ext>)
    requires Known(proto) && AllFit(exts) && Carried(proto, data, exts)
    ensures AllFit(CanonicalAll(exts, proto))
    ensures EncodeBody(proto, true, PaddedData(proto, data, exts), CanonicalAll(exts, proto))
         == EncodeBody(proto, true, data, exts)
  {
    if exts != [] {
      EncodesAgain(proto, data, exts);
    }
  }

  lemma PointerAgain(pointer: nat)
    ensures Be32(pointer % 0x1_0000_0000) == Be32(pointer) && Low8(pointer % 0x100) == Low8(pointer)
  {
    Be32Low(pointer);
  }

  lemma EchoLeadingAgain(id: int, seqNo: int, local: bool)
    ensures EchoLeading(id % 0x1_0000, seqNo % 0x100, local) == EchoLeading(id, seqNo, local)
  {
    Be16Low(id);
  }

  lemma PadTwice(data: seq<byte>, n: nat)
    requires |data| <= n
    ensures Pad(Pad(data, n), n) == Pad(data, n)
  {}

  lemma ErrorAgain(body: Body, proto: int)
    requires Known(proto) && (body.DstUnreach? || body.TimeExceeded?)
    requires AllFit(body.exts) && Carried(proto, body.data, body.exts)
    ensures AllFit(Canonical(body, proto).exts)
    ensures Encode(Canonical(body, proto), proto) == Encode(body, proto)
  {
    CanonicalAllowed(TypeFor(body, proto), body.exts, proto);
    DataRemarshal(proto, body.data, body.exts);
  }

  lemma ParamProbV4Again(pointer: nat, data: seq<byte>, exts: seq<Ext>)
    requires AllFit(exts) && Carried(ICMP, data, exts)
    ensures AllFit(CanonicalAll(exts, ICMP))
    ensures Encode(ParamProb(pointer % 0x100, PaddedData(ICMP, data, exts), CanonicalAll(exts, ICMP)), ICMP)
         == Encode(ParamProb(pointer, data, exts), ICMP)
  {
    PointerAgain(pointer);
    CanonicalAllowed(V4_PARAM_PROB, exts, ICMP);
    DataRemarshal(ICMP, data, exts);
  }

  lemma ParamProbV6Again(pointer: nat, data: seq<byte>, exts: seq<Ext>, n: nat)
    requires AllFit(exts) && n == BodyLen(IPV6_ICMP, true, |data|, exts) - 4
    ensures Encode(ParamProb(pointer % 0x1_0000_0000, Pad(data, n), []), IPV6_ICMP)
         == Encode(ParamProb(pointer, data, exts), IPV6_ICMP)
  {
    PointerAgain(pointer);
    PadTwice(data, n);
  }

  lemma EchoAgain(id: int, seqNo: int, local: bool, exts: seq<Ext>, proto: int)
    requires Known(proto) && AllFit(exts) && (exts == [] || Sendable(exts, proto))
    ensures AllFit(CanonicalAll(exts, proto))
    ensures Encode(ExtendedEchoRequest(id % 0x1_0000, seqNo % 0x100, local, CanonicalAll(exts, proto)), proto)
         == Encode(ExtendedEchoRequest(id, seqNo, local, exts), proto)
  {
    CanonicalAllowed(if proto == ICMP then V4_EXTENDED_ECHO else V6_EXTENDED_ECHO, exts, proto);
    TailAgain(proto, exts);
    EchoLeadingAgain(id, seqNo, local);
  }

  /** What was parsed from a marshalled body marshals to the same octets. */
  lemma RemarshalIsFixedPoint(body: Body, proto: int)
    requires Known(proto) && NamesFit(body) && Returns(body, proto)
    ensures NamesFit(Canonical(body, proto))
    ensures Encode(Canonical(body, proto), proto) == Encode(body, proto)
  {
    match body
    case DstUnreach(data, exts) => ErrorAgain(body, proto);
    case TimeExceeded(data, exts) => ErrorAgain(body, proto);
    case ParamProb(pointer, data, exts) =>
      if proto == ICMP {
        ParamProbV4Again(pointer, data, exts);
      } else {
        ParamProbV6Again(pointer, data, exts, BodyLen(proto, true, |data|, exts) - 4);
      }
    case ExtendedEchoRequest(id, seqNo, local, exts) => EchoAgain(id, seqNo, local, exts, proto);
  }
}
