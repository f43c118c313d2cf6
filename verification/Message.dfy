/** Whole ICMP messages (icmp/message.go, icmp/ipv6.go): header, body and checksum. */
module Message {
  import opened Bytes
  import opened Wrappers
  import opened Extension
  import opened Multipart
  import Checksum
  import B = Bodies
  import F = FixedBodies
  import I = InterfaceInfo

  datatype Content = Structured(body: B.Body) | FixedLayout(fixed: F.Fixed)

  datatype Message = Message(typ: Type, code: int, checksum: int, content: Option<Content>)

  function Proto(typ: Type): (r: int)
    ensures r == ICMP || r == IPV6_ICMP
  {
    if typ.V4? then ICMP else IPV6_ICMP
  }

  // ----- Pseudo-header ----------------------------------------------------

  const PSEUDO_HEADER_LEN := 40

  /** The 16-octet form of an address, zeros when it has none. */
  function Address16(ip: I.IP): (r: seq<byte>)
    ensures |r| == 16
  {
    match I.To16(ip)
    case Some(a) => a
    case None => Zeros(16)
  }

  /** RFC 8200, section 8.1, the length still zero: source, destination, length, zeros, next header. */
  method PseudoHeader(src: I.IP, dst: I.IP) returns (r: seq<byte>)
    ensures r == Address16(src) + Address16(dst) + [0, 0, 0, 0] + [0, 0, 0] + [IPV6_ICMP]
  {
    var b := Make(PSEUDO_HEADER_LEN);
    Copy(b, 0, match I.To16(src) case Some(a) => a case None => []);
    Copy(b, 16, match I.To16(dst) case Some(a) => a case None => []);
    b[b.Length - 1] := IPV6_ICMP;
    r := b[..];
  }

  // ----- Marshalling ------------------------------------------------------

  predicate NamesFit(m: Message) {
    match m.content
    case Some(Structured(body)) => B.NamesFit(body)
    case _ => true
  }

  function ContentLen(c: Content, proto: int): (r: nat) {
    match c
    case Structured(body) => B.Len(body, proto)
    case FixedLayout(f) => |F.Encode(f)|
  }

  function EncodeContent(c: Content, proto: int): (r: Result<seq<byte>>)
    requires c.Structured? ==> B.NamesFit(c.body)
    ensures r.Ok? ==> |r.value| == ContentLen(c, proto)
  {
    match c
    case Structured(body) => B.Encode(body, proto)
    case FixedLayout(f) => Ok(F.Encode(f))
  }

  method MarshalContent(c: Content, proto: int) returns (r: Result<seq<byte>>)
    requires c.Structured? ==> B.NamesFit(c.body)
    ensures r == EncodeContent(c, proto)
  {
    match c
    case Structured(body) => r := B.Marshal(body, proto);
    case FixedLayout(f) =>
      var b := F.Marshal(f);
      r := Ok(b);
  }

  /** The message before its checksum is filled in. */
  function Unsealed(m: Message): (r: Result<seq<byte>>)
    requires NamesFit(m)
    ensures r.Ok? ==> |r.value| >= 4 && r.value[2] == 0 && r.value[3] == 0
  {
    match m.content
    case None => Ok(Head(m))
    case Some(c) =>
      var mb :- EncodeContent(c, Proto(m.typ));
      Ok(Head(m) + mb)
  }

  function Head(m: Message): (r: seq<byte>)
    ensures |r| == 4 && r[2] == 0 && r[3] == 0
  {
    [Low8(m.typ.code), Low8(m.code), 0, 0]
  }

  /** A body of length zero has no octets, so not asking for them changes nothing. */
  lemma EmptyContent(m: Message)
    requires NamesFit(m) && m.content.Some? && ContentLen(m.content.value, Proto(m.typ)) == 0
    ensures Unsealed(m) == Ok(Head(m))
  {
    assert Head(m) + [] == Head(m);
  }

  /** The pseudo-header with the message's length filled in (RFC 4443, section 2.3). */
  function Filled(psh: seq<byte>, n: nat): (r: seq<byte>)
    requires |psh| == PSEUDO_HEADER_LEN
    ensures |r| == |psh|
  {
    psh[..32] + Be32(n) + psh[36..]
  }

  /** What the checksum covers. */
  function Covered(typ: Type, psh: Option<seq<byte>>, msg: seq<byte>): (r: seq<byte>)
    requires Usable(typ, psh)
  {
    if typ.V6? && psh.Some? then Filled(psh.value, |msg|) + msg else msg
  }

  /** A pseudo-header belongs to ICMPv6 and is complete. */
  predicate Usable(typ: Type, psh: Option<seq<byte>>) {
    psh.Some? ==> typ.V6? && |psh.value| == PSEUDO_HEADER_LEN
  }

  /** Without a pseudo-header an ICMPv6 message is left for the kernel to complete. */
  function Sealed(typ: Type, psh: Option<seq<byte>>, msg: seq<byte>): (r: seq<byte>)
    requires Usable(typ, psh) && |msg| >= 4
    ensures |r| == |msg|
  {
    if typ.V6? && psh.None? then msg else Checksum.Seal(msg, 2, Checksum.Sum(Covered(typ, psh, msg)))
  }

  function Encode(m: Message, psh: Option<seq<byte>>): (r: Result<seq<byte>>)
    requires NamesFit(m) && Usable(m.typ, psh)
    ensures r.Ok? ==> |r.value| >= 4
  {
    var msg :- Unsealed(m);
    Ok(Sealed(m.typ, psh, msg))
  }

  method Marshal(m: Message, psh: Option<seq<byte>>) returns (r: Result<seq<byte>>)
    requires NamesFit(m) && Usable(m.typ, psh)
    ensures r == Encode(m, psh)
  {
    var b := [Low8(m.typ.code), Low8(m.code), 0, 0];
    var p := if psh.Some? then psh.value else [];
    if Proto(m.typ) == IPV6_ICMP && psh.Some? {
      b := p + b;
    }
    var whole := Append(m, p, b);
    if whole.Err? {
      return Err(whole.error);
    }
    r := Finish(m.typ, psh, Unsealed(m).value, whole.value);
  }

  /** The middle of `Marshal`: the body's octets, unless it says it has none. */
  method Append(m: Message, ghost front: seq<byte>, b: seq<byte>) returns (r: Result<seq<byte>>)
    requires NamesFit(m) && b == front + Head(m)
    ensures Unsealed(m).Ok? ==> r == Ok(front + Unsealed(m).value)
    ensures Unsealed(m).Err? ==> r == Err(Unsealed(m).error)
  {
    if m.content.Some? && ContentLen(m.content.value, Proto(m.typ)) != 0 {
      var mb := MarshalContent(m.content.value, Proto(m.typ));
      UnsealedIs(m, mb);
      if mb.Err? {
        return Err(mb.error);
      }
      Assoc(front, Head(m), mb.value);
      return Ok(b + mb.value);
    }
    if m.content.Some? {
      EmptyContent(m);
    }
    return Ok(b);
  }

  lemma UnsealedIs(m: Message, mb: Result<seq<byte>>)
    requires NamesFit(m) && m.content.Some? && mb == EncodeContent(m.content.value, Proto(m.typ))
    ensures mb.Ok? ==> Unsealed(m) == Ok(Head(m) + mb.value)
    ensures mb.Err? ==> Unsealed(m) == Err(mb.error)
  {}

  /** The end of `Marshal`: the length into the pseudo-header, the checksum into the message. */
  method Finish(typ: Type, psh: Option<seq<byte>>, ghost msg: seq<byte>, b0: seq<byte>) returns (r: Result<seq<byte>>)
    requires Usable(typ, psh) && |msg| >= 4 && b0 == (if psh.Some? then psh.value else []) + msg
    ensures r == Ok(Sealed(typ, psh, msg))
  {
    var p := if psh.Some? then psh.value else [];
    var b := b0;
    assert psh.None? ==> b == msg;
    if Proto(typ) == IPV6_ICMP {
      if psh.None? {
        return Ok(b);
      }
      b := FillLength(p, msg, b);
    }
    var s := Checksum.Compute(b);
    SealAfter(if psh.Some? then Filled(p, |msg|) else [], msg, s);
    b := b[|p| + 2 := Xor(b[|p| + 2], Low8(s))][|p| + 3 := Xor(b[|p| + 3], Low8(s / 0x100))];
    return Ok(b[|p|..]);
  }

  /** The length of what follows the pseudo-header goes behind its two addresses. */
  method FillLength(psh: seq<byte>, ghost msg: seq<byte>, b0: seq<byte>) returns (b: seq<byte>)
    requires |psh| == PSEUDO_HEADER_LEN && b0 == psh + msg
    ensures b == Filled(psh, |msg|) + msg
  {
    var off, l := 32, |b0| - |psh|;
    b := b0[..off] + Be32(l) + b0[off + 4..];
  }

  lemma SealAfter(front: seq<byte>, msg: seq<byte>, s: uint16)
    requires |msg| >= 4
    ensures var n := |front|; var b := front + msg;
            b[n + 2 := Xor(b[n + 2], Low8(s))][n + 3 := Xor(b[n + 3], Low8(s / 0x100))]
              == front + Checksum.Seal(msg, 2, s)
  {}

  // ----- Checksums --------------------------------------------------------

  /**
   Sealed messages verify. The checksum over what it covers, with itself in place, is zero: for
   ICMPv4 the message alone, for ICMPv6 behind the pseudo-header with its length filled in.
   */
  lemma SealedIsZero(m: Message, psh: Option<seq<byte>>)
    requires NamesFit(m) && Usable(m.typ, psh) && (m.typ.V6? ==> psh.Some?)
    requires Encode(m, psh).Ok?
    ensures Checksum.Sum(Covered(m.typ, psh, Encode(m, psh).value)) == 0
  {
    var msg := Unsealed(m).value;
    var c := Covered(m.typ, psh, msg);
    if psh.Some? {
      var front := Filled(psh.value, |msg|);
      Checksum.SealedSumIsZero(c, PSEUDO_HEADER_LEN + 2);
      assert Checksum.Seal(c, PSEUDO_HEADER_LEN + 2, Checksum.Sum(c)) == front + Checksum.Seal(msg, 2, Checksum.Sum(c));
    } else {
      Checksum.SealedSumIsZero(c, 2);
    }
  }

  /** The message with the RFC 1071 checksum of what it covers stored in network order. */
  function WithRfc1071(msg: seq<byte>, covered: seq<byte>): (r: seq<byte>)
    requires |msg| >= 4
  {
    msg[..2] + Be16(Checksum.Rfc1071(covered)) + msg[4..]
  }

  /**
   The checksum field holds the RFC 1071 checksum, and nothing else is changed, if and only if the
   accumulator wraps harmlessly; up to MAX_COVERAGE octets it does not wrap at all.
   */
  lemma FieldIsRfc1071Iff(m: Message, psh: Option<seq<byte>>)
    requires NamesFit(m) && Usable(m.typ, psh) && (m.typ.V6? ==> psh.Some?) && Unsealed(m).Ok?
    ensures var msg := Unsealed(m).value; var c := Covered(m.typ, psh, msg);
            (Encode(m, psh) == Ok(WithRfc1071(msg, c)) <==> Checksum.WrapsHarmlessly(c)) &&
            (|c| <= Checksum.MAX_COVERAGE ==> Encode(m, psh) == Ok(WithRfc1071(msg, c)))
  {
    var msg := Unsealed(m).value;
    var c := Covered(m.typ, psh, msg);
    SealIsRfc1071Iff(msg, c);
  }

  lemma SealIsRfc1071Iff(msg: seq<byte>, c: seq<byte>)
    requires |msg| >= 4 && msg[2] == 0 && msg[3] == 0
    ensures Checksum.Seal(msg, 2, Checksum.Sum(c)) == WithRfc1071(msg, c) <==> Checksum.WrapsHarmlessly(c)
    ensures |c| <= Checksum.MAX_COVERAGE ==> Checksum.WrapsHarmlessly(c)
  {
    var s, rfc := Checksum.Sum(c), Checksum.Rfc1071(c);
    Checksum.SumIsRfc1071Iff(c);
    Checksum.SealIsPlace(msg, 2, s);
    if |c| <= Checksum.MAX_COVERAGE {
      Checksum.SumIsRfc1071(c);
    }
    SameField(msg, s, rfc);
  }

  lemma SameField(msg: seq<byte>, s: uint16, rfc: uint16)
    requires |msg| >= 4
    ensures Checksum.Place(msg, 2, s) == msg[..2] + Be16(rfc) + msg[4..] <==> s == Checksum.ByteSwap(rfc)
  {
    var x, y := Checksum.Place(msg, 2, s), msg[..2] + Be16(rfc) + msg[4..];
    assert x[2] == Low8(s) && x[3] == Low8(s / 0x100) && y[2] == Low8(rfc / 0x100) && y[3] == Low8(rfc);
    SwappedIff(s, rfc);
    if s == Checksum.ByteSwap(rfc) {
      assert x == y;
    }
  }

  lemma SwappedIff(s: uint16, rfc: uint16)
    ensures s == Checksum.ByteSwap(rfc) <==> Low8(s) == Low8(rfc / 0x100) && Low8(s / 0x100) == Low8(rfc)
  {}

  // ----- Parsing ----------------------------------------------------------

  /** The layout of the registered types whose bodies carry no extensions. */
  function LayoutFor(typ: Type): (r: Option<F.Layout>) {
    match typ
    case V4(code) =>
      if code == 8 || code == 0 then Some(F.EchoLayout)
      else if code == 43 then Some(F.ReplyLayout)
      else if code == 13 || code == 14 then Some(F.TimestampLayout)
      else None
    case V6(code) =>
      if code == 128 || code == 129 then Some(F.EchoLayout)
      else if code == 161 then Some(F.ReplyLayout)
      else if code == 2 then Some(F.TooBigLayout)
      else None
  }

  function DecodeContent(typ: Type, b: seq<byte>): (r: Result<Content>) {
    if B.HasBodyParser(typ) then (var body :- B.Decode(typ, b); Ok(Structured(body)))
    else match LayoutFor(typ)
      case Some(layout) => (var f :- F.Decode(layout, b); Ok(FixedLayout(f)))
      case None => Ok(Structured(B.RawBody(b)))
  }

  function Decode(proto: int, b: seq<byte>): (r: Result<Message>) {
    if |b| < 4 then Err(MessageTooShort)
    else if proto != ICMP && proto != IPV6_ICMP then Err(InvalidProtocol)
    else
      var typ := if proto == ICMP then V4(b[0]) else V6(b[0]);
      var content :- DecodeContent(typ, b[4..]);
      Ok(Message(typ, b[1], U16(b[2..4]), Some(content)))
  }

  method Parse(proto: int, b: seq<byte>) returns (r: Result<Message>)
    ensures r == Decode(proto, b)
  {
    if |b| < 4 {
      return Err(MessageTooShort);
    }
    var m := Message(V4(0), b[1], U16(b[2..4]), None);
    if proto == ICMP {
      m := m.(typ := V4(b[0]));
    } else if proto == IPV6_ICMP {
      m := m.(typ := V6(b[0]));
    } else {
      return Err(InvalidProtocol);
    }
    if B.HasBodyParser(m.typ) {
      var body := B.Parse(proto, m.typ, b[4..]);
      if body.Err? {
        return Err(body.error);
      }
      m := m.(content := Some(Structured(body.value)));
    } else {
      match LayoutFor(m.typ)
      case Some(layout) =>
        var f := F.Decode(layout, b[4..]);
        if f.Err? {
          return Err(f.error);
        }
        m := m.(content := Some(FixedLayout(f.value)));
      case None =>
        m := m.(content := Some(Structured(B.RawBody(b[4..]))));
    }
    return Ok(m);
  }

  // ----- Round trip -------------------------------------------------------

  /** The type is the one whose parser reads this kind of body, and the body comes back from it. */
  predicate Matches(typ: Type, c: Content) {
    match c
    case Structured(RawBody(_)) => !B.HasBodyParser(typ) && LayoutFor(typ).None?
    case Structured(body) => typ == B.TypeFor(body, Proto(typ)) && B.Returns(body, Proto(typ))
    case FixedLayout(f) => LayoutFor(typ) == Some(F.LayoutOf(f))
  }

  function Canonical(c: Content, proto: int): (r: Content)
    requires proto == ICMP || proto == IPV6_ICMP
  {
    match c
    case Structured(body) => Structured(B.Canonical(body, proto))
    case FixedLayout(f) => FixedLayout(F.Canonical(f))
  }

  lemma ContentRoundTrip(typ: Type, c: Content)
    requires Matches(typ, c) && (c.Structured? ==> B.NamesFit(c.body))
    ensures EncodeContent(c, Proto(typ)).Ok?
    ensures DecodeContent(typ, EncodeContent(c, Proto(typ)).value) == Ok(Canonical(c, Proto(typ)))
  {
    match c
    case Structured(body) =>
      if !body.RawBody? {
        B.RoundTrip(body, Proto(typ));
      }
    case FixedLayout(f) => F.RoundTrip(f);
  }

  lemma SealedParts(typ: Type, psh: Option<seq<byte>>, head: seq<byte>, body: seq<byte>)
    requires Usable(typ, psh) && |head| == 4
    ensures var s := Sealed(typ, psh, head + body);
            s[0] == head[0] && s[1] == head[1] && s[4..] == body
  {
    SealKeepsRest(head, body, Checksum.Sum(Covered(typ, psh, head + body)));
  }

  lemma SealKeepsRest(head: seq<byte>, body: seq<byte>, c: uint16)
    requires |head| == 4
    ensures var s := Checksum.Seal(head + body, 2, c);
            s[0] == head[0] && s[1] == head[1] && s[4..] == body && (head + body)[4..] == body
  {}

  lemma DecodeSealed(m: Message, c: Content, body: seq<byte>, s: seq<byte>)
    requires 0 <= m.typ.code < 0x100 && |s| >= 4 && s[0] == Head(m)[0] && s[1] == Head(m)[1] && s[4..] == body
    requires DecodeContent(m.typ, body) == Ok(c)
    ensures Decode(Proto(m.typ), s) == Ok(Message(m.typ, m.code % 0x100, U16(s[2..4]), Some(c)))
  {
    TypeComesBack(m.typ);
  }

  lemma TypeComesBack(typ: Type)
    requires 0 <= typ.code < 0x100
    ensures typ == if Proto(typ) == ICMP then V4(Low8(typ.code)) else V6(Low8(typ.code))
  {}

  /** A message whose body goes with its type can be marshalled. */
  lemma MatchingMarshals(m: Message, psh: Option<seq<byte>>)
    requires NamesFit(m) && Usable(m.typ, psh) && m.content.Some? && Matches(m.typ, m.content.value)
    ensures Encode(m, psh).Ok?
  {
    var c := m.content.value;
    ContentRoundTrip(m.typ, c);
  }

  /**
   Parsing the octets of a marshalled message gives its type, its code modulo 256, the checksum
   that was filled in, and the canonical body.
   */
  lemma RoundTrip(m: Message, psh: Option<seq<byte>>, b: seq<byte>)
    requires NamesFit(m) && Usable(m.typ, psh) && Encode(m, psh) == Ok(b)
    requires 0 <= m.typ.code < 0x100 && m.content.Some? && Matches(m.typ, m.content.value)
    ensures |b| >= 4
    ensures Decode(Proto(m.typ), b)
         == Ok(Message(m.typ, m.code % 0x100, U16(b[2..4]), Some(Canonical(m.content.value, Proto(m.typ)))))
  {
    var c := m.content.value;
    ContentRoundTrip(m.typ, c);
    var mb := EncodeContent(c, Proto(m.typ)).value;
    SealedParts(m.typ, psh, Head(m), mb);
    DecodeSealed(m, Canonical(c, Proto(m.typ)), mb, b);
  }

  // ----- Fixed point ------------------------------------------------------

  lemma ContentAgain(typ: Type, c: Content)
    requires Matches(typ, c) && (c.Structured? ==> B.NamesFit(c.body))
    ensures var c' := Canonical(c, Proto(typ));
            EncodeContent(c, Proto(typ)).Ok?
            && (c'.Structured? ==> B.NamesFit(c'.body)) && EncodeContent(c', Proto(typ)) == EncodeContent(c, Proto(typ))
  {
    match c
    case Structured(body) =>
      if !body.RawBody? {
        B.RoundTrip(body, Proto(typ));
        B.RemarshalIsFixedPoint(body, Proto(typ));
      }
    case FixedLayout(f) => F.CanonicalEncodes(f);
  }

  lemma SameEncoding(m: Message, m': Message, psh: Option<seq<byte>>, c: Content, c': Content, body: seq<byte>)
    requires Usable(m.typ, psh) && NamesFit(m) && m.content == Some(c)
    requires m'.typ == m.typ && Head(m') == Head(m) && m'.content == Some(c') && NamesFit(m')
    requires EncodeContent(c, Proto(m.typ)) == EncodeContent(c', Proto(m.typ)) == Ok(body)
    ensures Encode(m', psh) == Encode(m, psh)
  {}

  lemma SameHead(m: Message, m': Message)
    requires m'.typ == m.typ && m'.code == m.code % 0x100
    ensures Head(m') == Head(m)
  {}

  /** Marshalling what was parsed from a marshalled message gives the same octets, checksum included. */
  lemma RemarshalIsFixedPoint(m: Message, psh: Option<seq<byte>>, b: seq<byte>, m': Message)
    requires NamesFit(m) && Usable(m.typ, psh) && Encode(m, psh) == Ok(b)
    requires 0 <= m.typ.code < 0x100 && m.content.Some? && Matches(m.typ, m.content.value)
    requires Decode(Proto(m.typ), b) == Ok(m')
    ensures NamesFit(m') && Usable(m'.typ, psh) && Encode(m', psh) == Ok(b)
  {
    var c := m.content.value;
    var c' := Canonical(c, Proto(m.typ));
    assert m'.typ == m.typ && Head(m') == Head(m) && m'.content == Some(c') by {
      RoundTrip(m, psh, b);
      SameHead(m, m');
    }
    ContentAgain(m.typ, c);
    SameEncoding(m, m', psh, c, c', EncodeContent(c, Proto(m.typ)).value);
  }
}
