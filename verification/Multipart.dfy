/**
 Multi-part message bodies (icmp/multipart.go): four leading octets, the padded original
 datagram, and an extension structure; RFC 4884, sections 4, 5 and 7.
 */
module Multipart {
  import opened Bytes
  import opened Wrappers
  import opened Extension
  import Checksum

  const ICMP := 1
  const IPV6_ICMP := 58

  // ----- Lengths ----------------------------------------------------------

  function RoundUp(n: nat, align: nat): (r: nat)
    requires align == 4 || align == 8
    ensures n <= r < n + align
    ensures if align == 4 then r % 4 == 0 else r % 8 == 0
  {
    if align == 4 then RoundUp4(n) else RoundUp8(n)
  }

  /** The unit of the length attribute. */
  function Align(proto: int): (r: nat)
    ensures r == 4 || r == 8
  {
    if proto == ICMP then 4 else 8
  }

  /** The padded original datagram has at least 128 octets and a whole number of units. */
  function OrigDatagramLen(proto: int, n: nat): (r: nat)
    ensures n <= r
    ensures proto == ICMP || proto == IPV6_ICMP ==> r >= 128 && r % Align(proto) == 0
  {
    if proto == ICMP || proto == IPV6_ICMP then
      if n < 128 then 128 else RoundUp(n, Align(proto))
    else n
  }

  predicate HasRaw(exts: seq<Ext>) {
    exists e :: e in exts && e.Raw?
  }

  function DataLen(proto: int, withOrig: bool, n: nat, exts: seq<Ext>): (r: nat)
    ensures n <= r
  {
    if ListLen(exts, proto) > 0 && withOrig then OrigDatagramLen(proto, n) else n
  }

  function BodyLen(proto: int, withOrig: bool, n: nat, exts: seq<Ext>): (r: nat)
    ensures r >= 4 + DataLen(proto, withOrig, n, exts)
  {
    4 + DataLen(proto, withOrig, n, exts) + (if exts == [] then 0 else 4 + ListLen(exts, proto))
  }

  lemma {:induction false} ListLenSnoc(exts: seq<Ext>, e: Ext, proto: int)
    ensures ListLen(exts + [e], proto) == ListLen(exts, proto) + Len(e, proto)
  {
    if exts == [] {
      assert exts + [e] == [e];
    } else {
      assert (exts + [e])[1..] == exts[1..] + [e];
      ListLenSnoc(exts[1..], e, proto);
    }
  }

  /** A non-empty list without raw objects takes space, so the header's presence needs no other test. */
  lemma HeaderIsCounted(exts: seq<Ext>, proto: int)
    ensures ListLen(exts, proto) > 0 || HasRaw(exts) <==> exts != []
  {
    if exts != [] && !HasRaw(exts) {
      assert exts[0] in exts;
    }
  }

  method BodyDataLen(proto: int, withOrig: bool, b: seq<byte>, exts: seq<Ext>) returns (bodyLen: nat, dataLen: nat)
    ensures dataLen == DataLen(proto, withOrig, |b|, exts)
    ensures bodyLen == BodyLen(proto, withOrig, |b|, exts)
  {
    bodyLen := 4;
    var extLen: nat, rawExt := 0, false;
    for i := 0 to |exts|
      invariant extLen == ListLen(exts[..i], proto)
      invariant rawExt <==> exists k :: 0 <= k < i && exts[k].Raw?
    {
      extLen := extLen + Len(exts[i], proto);
      if exts[i].Raw? {
        rawExt := true;
      }
      ListLenSnoc(exts[..i], exts[i], proto);
      assert exts[..i + 1] == exts[..i] + [exts[i]];
    }
    assert exts[..|exts|] == exts;
    if extLen > 0 && withOrig {
      dataLen := OrigDatagramLen(proto, |b|);
    } else {
      dataLen := |b|;
    }
    HeaderIsCounted(exts, proto);
    if extLen > 0 || rawExt {
      bodyLen := bodyLen + 4;
    }
    bodyLen := bodyLen + dataLen + extLen;
  }

  // ----- The body on the wire ---------------------------------------------

  /** The leading octets: the length attribute in units, in octet 1 (ICMPv4) or 0 (ICMPv6). */
  function Leading(proto: int, withOrig: bool, dataLen: nat, exts: seq<Ext>): (r: seq<byte>)
    ensures |r| == 4
  {
    if exts == [] || !withOrig then [0, 0, 0, 0]
    else if proto == ICMP then [0, Low8(dataLen / 4), 0, 0]
    else if proto == IPV6_ICMP then [Low8(dataLen / 8), 0, 0, 0]
    else [0, 0, 0, 0]
  }

  function Tail(exts: seq<Ext>, proto: int): (r: seq<byte>)
    requires AllFit(exts)
    ensures |r| == if exts == [] then 0 else 4 + ListLen(exts, proto)
  {
    if exts == [] then [] else Structure(EncodeAll(exts, proto))
  }

  function EncodeBody(proto: int, withOrig: bool, data: seq<byte>, exts: seq<Ext>): (r: seq<byte>)
    requires AllFit(exts)
    ensures |r| == BodyLen(proto, withOrig, |data|, exts)
  {
    var n := DataLen(proto, withOrig, |data|, exts);
    Leading(proto, withOrig, n, exts) + Pad(data, n) + Tail(exts, proto)
  }

  method MarshalBody(proto: int, withOrig: bool, data: seq<byte>, exts: seq<Ext>) returns (b: array<byte>)
    requires AllFit(exts)
    ensures fresh(b) && b[..] == EncodeBody(proto, withOrig, data, exts)
  {
    var bodyLen, dataLen := BodyDataLen(proto, withOrig, data, exts);
    b := MarshalParts(proto, withOrig, data, exts, bodyLen, dataLen);
  }

  /** The rest of the marshaller, once the two lengths are known. */
  method MarshalParts(proto: int, withOrig: bool, data: seq<byte>, exts: seq<Ext>, bodyLen: nat, dataLen: nat)
    returns (b: array<byte>)
    requires AllFit(exts) && |data| <= dataLen
    requires bodyLen == 4 + dataLen + if exts == [] then 0 else 4 + ListLen(exts, proto)
    ensures fresh(b) && b[..] == Leading(proto, withOrig, dataLen, exts) + Pad(data, dataLen) + Tail(exts, proto)
  {
    b := MakeWithData(bodyLen, data, dataLen);
    ghost var padded := Pad(data, dataLen);
    if |exts| > 0 {
      ghost var tail := Structure(EncodeAll(exts, proto));
      MarshalStructure(proto, exts, b, 4 + dataLen, [0, 0, 0, 0] + padded, EncodeAll(exts, proto));
      Assoc([0, 0, 0, 0], padded, tail);
      if withOrig {
        MarshalLength(proto, dataLen, b, exts, padded + tail);
      }
      Assoc(Leading(proto, withOrig, dataLen, exts), padded, tail);
    } else {
      assert b[..] == [0, 0, 0, 0] + padded + [];
    }
  }

  lemma Assoc(x: seq<byte>, y: seq<byte>, z: seq<byte>)
    ensures x + y + z == x + (y + z)
  {}

  /** Copying the data into the fresh buffer pads it with zeros. */
  method MakeWithData(bodyLen: nat, data: seq<byte>, ghost dataLen: nat) returns (b: array<byte>)
    requires |data| <= dataLen && 4 + dataLen <= bodyLen
    ensures fresh(b)
    ensures b[..] == [0, 0, 0, 0] + Pad(data, dataLen) + Zeros(bodyLen - 4 - dataLen)
  {
    b := Make(bodyLen);
    Copy(b, 4, data);
  }

  /** The length octet is written last, over the already sealed body. */
  method MarshalLength(proto: int, dataLen: nat, b: array<byte>, exts: seq<Ext>, ghost rest: seq<byte>)
    requires exts != [] && b[..] == [0, 0, 0, 0] + rest
    modifies b
    ensures b[..] == Leading(proto, true, dataLen, exts) + rest
  {
    if proto == ICMP {
      b[1] := Low8(dataLen / 4);
    } else if proto == IPV6_ICMP {
      b[0] := Low8(dataLen / 8);
    }
  }

  /** The extension header, the object loop, and the checksum over both. */
  method MarshalStructure(proto: int, exts: seq<Ext>, b: array<byte>, start: nat,
                          ghost front: seq<byte>, ghost objects: seq<byte>)
    requires AllFit(exts) && objects == EncodeAll(exts, proto) && start == |front|
    requires b[..] == front + Zeros(4 + |objects|)
    modifies b
    ensures b[..] == front + Structure(objects)
  {
    b[start] := VERSION * 0x10;
    HeaderThenObjects(front, objects, start + 4, b[..]);
    MarshalAll(exts, proto, b, start + 4);
    SealTail(b, start, front, Unsealed(objects));
  }

  lemma HeaderThenObjects(front: seq<byte>, objects: seq<byte>, off: nat, headed: seq<byte>)
    requires off == |front| + 4 && headed == (front + Zeros(4 + |objects|))[|front| := VERSION * 0x10]
    ensures ZeroFrom(headed, off, |objects|)
    ensures Write(headed, off, objects) == front + Unsealed(objects)
  {}

  method SealTail(b: array<byte>, start: nat, ghost front: seq<byte>, ghost u: seq<byte>)
    requires start == |front| && |u| >= 4 && b[..] == front + u
    modifies b
    ensures b[..] == front + Checksum.Seal(u, 2, Checksum.Sum(u))
  {
    assert b[start..] == u;
    var s := Checksum.Compute(b[start..]);
    SealInPlace(front, u, 2, s);
    b[start + 2] := Xor(b[start + 2], Low8(s));
    b[start + 3] := Xor(b[start + 3], Low8(s / 0x100));
  }

  lemma SealInPlace(front: seq<byte>, u: seq<byte>, p: nat, s: uint16)
    requires p + 2 <= |u|
    ensures front + Checksum.Seal(u, p, s)
         == (front + u)[|front| + p := Xor(u[p], Low8(s))][|front| + p + 1 := Xor(u[p + 1], Low8(s / 0x100))]
  {}

  // ----- Parsing ----------------------------------------------------------

  /** The original datagram's length according to the length attribute. */
  function LengthAttribute(proto: int, b: seq<byte>): (r: nat)
    requires |b| >= 4
  {
    if proto == ICMP then 4 * b[1] as int else if proto == IPV6_ICMP then 8 * b[0] as int else 0
  }

  /** The data and the objects; when there is no acceptable structure, everything is data. */
  function DecodeAfterLeading(typ: Type, body: seq<byte>, l: nat): (r: (seq<byte>, seq<Ext>)) {
    match DecodeExtensions(typ, body, l)
    case Ok((exts, n)) => (body[..n], exts)
    case Err(_) => (body, [])
  }

  function DecodeBody(proto: int, typ: Type, b: seq<byte>): (r: (seq<byte>, seq<Ext>))
    requires |b| >= 4
  {
    DecodeAfterLeading(typ, b[4..], LengthAttribute(proto, b))
  }

  method ParseBody(proto: int, typ: Type, b: seq<byte>) returns (data: seq<byte>, exts: seq<Ext>)
    requires |b| >= 4
    ensures (data, exts) == DecodeBody(proto, typ, b)
  {
    var l: nat := 0;
    if proto == ICMP {
      l := 4 * b[1] as int;
    } else if proto == IPV6_ICMP {
      l := 8 * b[0] as int;
    }
    assert l == LengthAttribute(proto, b);
    if |b| == 4 {
      assert b[4..] == [];
      return [], [];
    }
    data, exts := ParseAfterLeading(typ, b, l);
  }

  method ParseAfterLeading(typ: Type, b: seq<byte>, l0: nat) returns (data: seq<byte>, exts: seq<Ext>)
    requires |b| > 4
    ensures (data, exts) == DecodeAfterLeading(typ, b[4..], l0)
  {
    var l: int := l0;
    var r := ParseExtensions(typ, b[4..], l0);
    if r.Err? {
      l, exts := |b| - 4, [];
      assert b[4..][..l] == b[4..];
    } else {
      exts, l := r.value.0, r.value.1;
    }
    data := [];
    if l > 0 {
      data := b[4..4 + l];
    }
    assert data == b[4..][..l];
  }
}
