/**
 Extension objects as a list (icmp/extension.go, and the object loop of icmp/multipart.go);
 extension structure of RFC 4884, sections 7 and 8.
 */
module Extension {
  import opened Bytes
  import opened Wrappers
  import Checksum
  import M = Mpls
  import I = InterfaceInfo
  import D = InterfaceIdent

  datatype Ext =
    | MplsStack(stack: M.LabelStack)
    | IfInfo(info: I.Info)
    | IfIdent(ident: D.Ident)
    | Raw(data: seq<byte>)

  /** An ICMPv4 or ICMPv6 message type. */
  datatype Type = V4(code: int) | V6(code: int)

  const V4_DST_UNREACH := V4(3)
  const V4_TIME_EXCEEDED := V4(11)
  const V4_PARAM_PROB := V4(12)
  const V4_EXTENDED_ECHO := V4(42)
  const V6_DST_UNREACH := V6(1)
  const V6_TIME_EXCEEDED := V6(3)
  const V6_PARAM_PROB := V6(4)
  const V6_EXTENDED_ECHO := V6(160)

  predicate IsExtendedEcho(typ: Type) {
    typ == V4_EXTENDED_ECHO || typ == V6_EXTENDED_ECHO
  }

  predicate IsMultipart(typ: Type) {
    typ in {V4_DST_UNREACH, V4_TIME_EXCEEDED, V4_PARAM_PROB, V6_DST_UNREACH, V6_TIME_EXCEEDED}
  }

  // ----- One object -------------------------------------------------------

  function Len(e: Ext, proto: int): (r: nat)
    ensures !e.Raw? ==> r >= 4
  {
    match e
    case MplsStack(ls) => M.Len(ls)
    case IfInfo(ifi) => I.Len(ifi, proto)
    case IfIdent(ifi) => D.Len(ifi)
    case Raw(data) => |data|
  }

  /** Names do not run over the end of their objects. */
  predicate NameFits(e: Ext) {
    match e
    case IfInfo(ifi) => I.NameFits(ifi)
    case IfIdent(ifi) => D.NameFits(ifi)
    case _ => true
  }

  function Encode(e: Ext, proto: int): (r: seq<byte>)
    requires NameFits(e)
    ensures |r| == Len(e, proto)
  {
    match e
    case MplsStack(ls) => M.Encode(ls)
    case IfInfo(ifi) => I.Encode(ifi, proto)
    case IfIdent(ifi) => D.Encode(ifi)
    case Raw(data) => data
  }

  /** Marshals one object into a zeroed region; nothing outside the object's own octets changes. */
  method Marshal(e: Ext, proto: int, b: array<byte>, off: nat) returns (next: nat)
    requires NameFits(e) && ZeroFrom(b[..], off, Len(e, proto))
    modifies b
    ensures next == off + Len(e, proto)
    ensures b[..] == Write(old(b[..]), off, Encode(e, proto))
  {
    match e
    case MplsStack(ls) =>
      M.Marshal(ls, b, off);
      next := off + M.Len(ls);
    case IfInfo(ifi) =>
      var attrs, l := I.AttrsAndLen(ifi, proto);
      I.Marshal(ifi, proto, b, off, attrs, l);
      next := off + l;
    case IfIdent(ifi) =>
      D.Marshal(ifi, b, off);
      next := off + D.Len(ifi);
    case Raw(data) =>
      Copy(b, off, data);
      next := off + |data|;
  }

  function DecodeObject(b: seq<byte>): (r: Result<Ext>)
    requires |b| >= 4
  {
    if b[2] == M.CLASS then Ok(MplsStack(M.Decode(b)))
    else if b[2] == I.CLASS then (var ifi :- I.Decode(b); Ok(IfInfo(ifi)))
    else if b[2] == D.CLASS then (var ifi :- D.Decode(b); Ok(IfIdent(ifi)))
    else Ok(Raw(b))
  }

  method ParseObject(b: seq<byte>) returns (r: Result<Ext>)
    requires |b| >= 4
    ensures r == DecodeObject(b)
  {
    if b[2] == M.CLASS {
      var ls := M.Parse(b);
      r := Ok(MplsStack(ls));
    } else if b[2] == I.CLASS {
      var ifi := I.Parse(b);
      r := if ifi.Ok? then Ok(IfInfo(ifi.value)) else Err(ifi.error);
    } else if b[2] == D.CLASS {
      var ifi := D.Parse(b);
      r := if ifi.Ok? then Ok(IfIdent(ifi.value)) else Err(ifi.error);
    } else {
      r := Ok(Raw(b));
    }
  }

  /** Objects that a parser recognises as the objects they are. */
  predicate Encodable(e: Ext, proto: int) {
    match e
    case MplsStack(ls) => M.Len(ls) < 0x1_0000
    case IfInfo(ifi) => I.Encodable(ifi, proto)
    case IfIdent(ifi) => D.Encodable(ifi)
    case Raw(data) => |data| >= 4 && U16(data) == |data| && data[2] !in {M.CLASS, I.CLASS, D.CLASS}
  }

  /** What a parser makes of the object: fields cut to their widths, unsent fields dropped. */
  function Canonical(e: Ext, proto: int): (r: Ext) {
    match e
    case MplsStack(ls) => MplsStack(M.Canonical(ls))
    case IfInfo(ifi) => IfInfo(I.Canonical(ifi, proto))
    case IfIdent(ifi) => IfIdent(D.Canonical(ifi))
    case Raw(data) => e
  }

  /** An object that the wire carries completely: every field has its type's value or fits its width. */
  predicate WellFormed(e: Ext, proto: int) {
    match e
    case MplsStack(ls) => M.WellFormed(ls)
    case IfInfo(ifi) => I.WellFormed(ifi, proto)
    case IfIdent(ifi) => D.WellFormed(ifi)
    case Raw(_) => Encodable(e, proto)
  }

  /** Such an object is its own canonical form. */
  lemma WellFormedIsCanonical(e: Ext, proto: int)
    requires WellFormed(e, proto)
    ensures Encodable(e, proto) && Canonical(e, proto) == e
  {
    match e
    case MplsStack(ls) => M.WellFormedIsCanonical(ls);
    case IfInfo(ifi) => I.WellFormedIsCanonical(ifi, proto);
    case IfIdent(ifi) => D.WellFormedIsCanonical(ifi);
    case Raw(_) =>
  }

  lemma HeaderLength(len: nat, cls: byte, typ: int, rest: seq<byte>)
    requires len < 0x1_0000
    ensures U16(ObjectHeader(len, cls, typ) + rest) == len
    ensures (ObjectHeader(len, cls, typ) + rest)[2] == cls
  {
    U16Be16(len);
  }

  /** Every encodable object announces its own length. */
  lemma ObjectLength(e: Ext, proto: int)
    requires Encodable(e, proto) && NameFits(e)
    ensures 4 <= |Encode(e, proto)| && U16(Encode(e, proto)) == |Encode(e, proto)|
  {
    match e
    case MplsStack(ls) => HeaderLength(M.Len(ls), M.CLASS, M.TYPE_INCOMING, M.EncodeLabels(ls.labels));
    case IfInfo(ifi) =>
      I.LenBySum(ifi, proto);
      I.FieldsFit(ifi, proto, I.AttrsIn(ifi, proto));
      HeaderLength(I.Len(ifi, proto), I.CLASS, ifi.typ, I.EncodeFields(I.Fields(ifi, proto, I.AttrsIn(ifi, proto))));
    case IfIdent(ifi) => HeaderLength(D.Len(ifi), D.CLASS, ifi.typ, D.EncodeBody(ifi));
    case Raw(data) =>
  }

  /** Parsing one marshalled object gives its canonical form. */
  lemma ObjectRoundTrip(e: Ext, proto: int)
    requires Encodable(e, proto) && NameFits(e)
    ensures |Encode(e, proto)| >= 4 && DecodeObject(Encode(e, proto)) == Ok(Canonical(e, proto))
  {
    match e
    case MplsStack(ls) => M.RoundTrip(ls);
    case IfInfo(ifi) => I.RoundTrip(ifi, proto);
    case IfIdent(ifi) => D.RoundTrip(ifi);
    case Raw(data) =>
  }

  /** Canonical objects encode as the objects they came from. */
  lemma CanonicalEncodes(e: Ext, proto: int)
    requires Encodable(e, proto) && NameFits(e)
    ensures WellFormed(Canonical(e, proto), proto) && NameFits(Canonical(e, proto))
    ensures Encode(Canonical(e, proto), proto) == Encode(e, proto)
  {
    match e
    case MplsStack(ls) => M.CanonicalEncodes(ls); M.CanonicalWellFormed(ls);
    case IfInfo(ifi) => I.CanonicalEncodes(ifi, proto); I.CanonicalWellFormed(ifi, proto);
    case IfIdent(ifi) => D.CanonicalEncodes(ifi); D.CanonicalWellFormed(ifi);
    case Raw(data) =>
  }

  // ----- The object list --------------------------------------------------

  predicate AllFit(exts: seq<Ext>) {
    forall e :: e in exts ==> NameFits(e)
  }

  predicate AllEncodable(exts: seq<Ext>, proto: int) {
    forall e :: e in exts ==> Encodable(e, proto)
  }

  predicate AllWellFormed(exts: seq<Ext>, proto: int) {
    forall e :: e in exts ==> WellFormed(e, proto)
  }

  function ListLen(exts: seq<Ext>, proto: int): (r: nat) {
    if exts == [] then 0 else Len(exts[0], proto) + ListLen(exts[1..], proto)
  }

  /** The objects one after the other, with nothing between them. */
  function EncodeAll(exts: seq<Ext>, proto: int): (r: seq<byte>)
    requires AllFit(exts)
    ensures |r| == ListLen(exts, proto)
  {
    if exts == [] then [] else Encode(exts[0], proto) + EncodeAll(exts[1..], proto)
  }

  function CanonicalAll(exts: seq<Ext>, proto: int): (r: seq<Ext>)
    ensures |r| == |exts|
  {
    if exts == [] then [] else [Canonical(exts[0], proto)] + CanonicalAll(exts[1..], proto)
  }

  /** The object loop: the objects tile the zeroed region exactly. */
  method MarshalAll(exts: seq<Ext>, proto: int, b: array<byte>, start: nat)
    requires AllFit(exts) && ZeroFrom(b[..], start, ListLen(exts, proto))
    modifies b
    ensures b[..] == Write(old(b[..]), start, EncodeAll(exts, proto))
  {
    var off: nat, rest := start, exts;
    while rest != []
      invariant AllFit(rest) && ZeroFrom(b[..], off, ListLen(rest, proto))
      invariant Write(b[..], off, EncodeAll(rest, proto)) == Write(old(b[..]), start, EncodeAll(exts, proto))
      decreases |rest|
    {
      ghost var before, off0, e, n := b[..], off, Encode(rest[0], proto), ListLen(rest[1..], proto);
      off := Marshal(rest[0], proto, b, off);
      rest := rest[1..];
      StillZero(before, off0, e, off, n);
      WriteAppend(before, off0, e, off, EncodeAll(rest, proto));
    }
    assert Write(b[..], off, []) == b[..];
  }

  /** Reads objects until the octets run out or an object's length makes no sense. */
  function DecodeObjects(b: seq<byte>): (r: Result<seq<Ext>>)
    decreases |b|
  {
    if |b| < 4 || 4 > U16(b) || U16(b) > |b| then Ok([])
    else
      var e :- DecodeObject(b[..U16(b)]);
      var es :- DecodeObjects(b[U16(b)..]);
      Ok([e] + es)
  }

  /** Terminates on any input: each object takes at least four octets. */
  method ParseObjects(b0: seq<byte>) returns (r: Result<seq<Ext>>)
    ensures r == DecodeObjects(b0)
  {
    var exts, b: seq<byte> := [], b0;
    ghost var all := DecodeObjects(b0);
    while |b| >= 4
      invariant DecodeObjects(b).Err? == all.Err?
      invariant all.Err? ==> DecodeObjects(b) == all
      invariant all.Ok? ==> exts + DecodeObjects(b).value == all.value
      decreases |b|
    {
      var ol := U16(b);
      if 4 > ol || ol > |b| {
        break;
      }
      var ext := ParseObject(b[..ol]);
      if ext.Err? {
        return Err(ext.error);
      }
      exts := exts + [ext.value];
      b := b[ol..];
    }
    assert DecodeObjects(b) == Ok([]);
    assert exts + [] == exts;
    return Ok(exts);
  }

  lemma DecodeOneMore(x: seq<byte>, e: Ext, rest: seq<byte>)
    requires |x| >= 4 && U16(x) == |x| && DecodeObject(x) == Ok(e) && DecodeObjects(rest).Ok?
    ensures DecodeObjects(x + rest) == Ok([e] + DecodeObjects(rest).value)
  {
    PrefixDecides(x, rest);
    assert (x + rest)[..|x|] == x && (x + rest)[|x|..] == rest;
  }

  /** The parse loop recovers the whole list, in order. */
  lemma {:induction false} ListRoundTrip(exts: seq<Ext>, proto: int)
    requires AllEncodable(exts, proto) && AllFit(exts)
    ensures DecodeObjects(EncodeAll(exts, proto)) == Ok(CanonicalAll(exts, proto))
  {
    if exts != [] {
      ListRoundTrip(exts[1..], proto);
      ObjectLength(exts[0], proto);
      ObjectRoundTrip(exts[0], proto);
      DecodeOneMore(Encode(exts[0], proto), Canonical(exts[0], proto), EncodeAll(exts[1..], proto));
    }
  }

  lemma {:induction false} CanonicalAllEncodes(exts: seq<Ext>, proto: int)
    requires AllEncodable(exts, proto) && AllFit(exts)
    ensures AllWellFormed(CanonicalAll(exts, proto), proto) && AllFit(CanonicalAll(exts, proto))
    ensures EncodeAll(CanonicalAll(exts, proto), proto) == EncodeAll(exts, proto)
  {
    if exts != [] {
      CanonicalEncodes(exts[0], proto);
      CanonicalAllEncodes(exts[1..], proto);
      assert CanonicalAll(exts, proto)[1..] == CanonicalAll(exts[1..], proto);
    }
  }

  lemma {:induction false} WellFormedAllCanonical(exts: seq<Ext>, proto: int)
    requires AllWellFormed(exts, proto)
    ensures CanonicalAll(exts, proto) == exts
  {
    if exts != [] {
      assert exts[0] in exts;
      WellFormedIsCanonical(exts[0], proto);
      WellFormedAllCanonical(exts[1..], proto);
    }
  }

  lemma {:induction false} ListLenPositive(exts: seq<Ext>, proto: int)
    requires exts != [] && AllEncodable(exts, proto)
    ensures ListLen(exts, proto) >= 4
  {
    assert exts[0] in exts;
  }

  // ----- The extension header ---------------------------------------------

  const VERSION := 2

  /** The header and the objects, the checksum octets still zero. */
  function Unsealed(objects: seq<byte>): (r: seq<byte>)
    ensures |r| == 4 + |objects|
  {
    [VERSION * 0x10, 0, 0, 0] + objects
  }

  /** The extension structure as marshalled. */
  function Structure(objects: seq<byte>): (r: seq<byte>)
    ensures |r| == 4 + |objects|
  {
    Checksum.Seal(Unsealed(objects), 2, Checksum.Sum(Unsealed(objects)))
  }

  /** Version 2, and a checksum that is absent (zero) or right. */
  predicate ValidHeader(b: seq<byte>)
    requires |b| >= 4
  {
    b[0] / 0x10 == VERSION && (U16(b[2..4]) == 0 || Checksum.Sum(b) == 0)
  }

  method ValidExtensionHeader(b: seq<byte>) returns (ok: bool)
    requires |b| >= 4
    ensures ok == ValidHeader(b)
  {
    var v := b[0] / 0x10;
    var s := U16(b[2..4]);
    if s != 0 {
      s := Checksum.Compute(b);
    }
    ok := !(v != VERSION || s != 0);
  }

  /** Every marshalled structure, of any length, is accepted, also when its checksum is zero. */
  lemma StructureIsValid(objects: seq<byte>)
    ensures ValidHeader(Structure(objects))
    ensures Structure(objects)[4..] == objects
  {
    var u := Unsealed(objects);
    Checksum.SealedSumIsZero(u, 2);
    assert Structure(objects)[0] == VERSION * 0x10;
    assert Structure(objects)[4..] == u[4..] == objects;
  }

  /**
   Error detection: once a structure with a non-zero checksum field is valid, changing any one
   octet makes it invalid, unless the change empties the checksum field.
   */
  lemma OneOctetChangeIsDetected(b: seq<byte>, i: nat, v: byte)
    requires 4 <= |b| && ValidHeader(b) && U16(b[2..4]) != 0
    requires i < |b| && v != b[i]
    ensures ValidHeader(b[i := v]) <==> (i == 2 && v == 0 && b[3] == 0) || (i == 3 && v == 0 && b[2] == 0)
  {
    Checksum.OneOctetChangeDetected(b, i, v);
    assert b[2..4] == [b[2], b[3]];
    assert b[i := v][2..4] == [b[i := v][2], b[i := v][3]];
  }

  // ----- Finding and reading the structure --------------------------------

  /** Where the extension structure starts, from the length attribute `l` or at 128 for old senders. */
  function Locate(typ: Type, b: seq<byte>, l: nat): (r: Result<nat>)
    ensures r.Ok? ==> r.value + 8 <= |b| && ValidHeader(b[r.value..])
    ensures r.Ok? ==> r.value == if IsExtendedEcho(typ) then 0 else if r.value == l then l else 128
  {
    if IsExtendedEcho(typ) then
      if |b| < 8 || !ValidHeader(b) then Err(NoExtension) else assert b[0..] == b; Ok(0)
    else
      var l1 := if 128 > l || l + 8 > |b| then 128 else l;
      if l1 + 8 > |b| then Err(NoExtension)
      else if ValidHeader(b[l1..]) then Ok(l1)
      else if l1 == 128 || !ValidHeader(b[128..]) then Err(NoExtension)
      else Ok(128)
  }

  function DecodeAt(start: Result<nat>, b: seq<byte>): (r: Result<(seq<Ext>, nat)>)
    requires start.Ok? ==> start.value + 4 <= |b|
  {
    var l :- start;
    var exts :- DecodeObjects(b[l + 4..]);
    Ok((exts, l))
  }

  /** The objects and the length of the original datagram before them. */
  function DecodeExtensions(typ: Type, b: seq<byte>, l: nat): (r: Result<(seq<Ext>, nat)>) {
    DecodeAt(Locate(typ, b, l), b)
  }

  method ParseExtensions(typ: Type, b: seq<byte>, l0: nat) returns (r: Result<(seq<Ext>, nat)>)
    ensures r == DecodeExtensions(typ, b, l0)
  {
    var start := FindStructure(typ, b, l0);
    r := ParseAt(start, b);
  }

  /** The second half of `parseExtensions`. */
  method ParseAt(start: Result<nat>, b: seq<byte>) returns (r: Result<(seq<Ext>, nat)>)
    requires start.Ok? ==> start.value + 4 <= |b|
    ensures r == DecodeAt(start, b)
  {
    if start.Err? {
      return Err(start.error);
    }
    var exts := ParseObjects(b[start.value + 4..]);
    if exts.Err? {
      return Err(exts.error);
    }
    return Ok((exts.value, start.value));
  }

  /** The first half of `parseExtensions`: repairing the length attribute. */
  method FindStructure(typ: Type, b: seq<byte>, l0: nat) returns (r: Result<nat>)
    ensures r == Locate(typ, b, l0)
  {
    var l := l0;
    if IsExtendedEcho(typ) {
      if |b| < 8 {
        return Err(NoExtension);
      }
      var ok := ValidExtensionHeader(b);
      if !ok {
        return Err(NoExtension);
      }
      l := 0;
    } else {
      if 128 > l || l + 8 > |b| {
        l := 128;
      }
      if l + 8 > |b| {
        return Err(NoExtension);
      }
      var ok := ValidExtensionHeader(b[l..]);
      if !ok {
        if l == 128 {
          return Err(NoExtension);
        }
        l := 128;
        ok := ValidExtensionHeader(b[l..]);
        if !ok {
          return Err(NoExtension);
        }
      }
    }
    return Ok(l);
  }

  // ----- Which objects a message may carry --------------------------------

  function IdentCount(exts: seq<Ext>): (r: nat) {
    if exts == [] then 0 else (if exts[0].IfIdent? then 1 else 0) + IdentCount(exts[1..])
  }

  predicate Allowed(typ: Type, exts: seq<Ext>) {
    if IsMultipart(typ) then forall e :: e in exts ==> !e.IfIdent?
    else IsExtendedEcho(typ) && (forall e :: e in exts ==> e.IfIdent? || e.Raw?)
         && (IdentCount(exts) == 1 ==> |exts| == 1)
  }

  lemma {:induction false} IdentCountAppend(exts: seq<Ext>, e: Ext)
    ensures IdentCount(exts + [e]) == IdentCount(exts) + if e.IfIdent? then 1 else 0
  {
    if exts == [] {
      assert exts + [e] == [e];
    } else {
      assert (exts + [e])[1..] == exts[1..] + [e];
      IdentCountAppend(exts[1..], e);
    }
  }

  method ValidExtensions(typ: Type, exts: seq<Ext>) returns (ok: bool)
    ensures ok == Allowed(typ, exts)
  {
    if IsMultipart(typ) {
      for i := 0 to |exts|
        invariant forall k :: 0 <= k < i ==> !exts[k].IfIdent?
      {
        if exts[i].IfIdent? {
          return false;
        }
      }
      return true;
    } else if IsExtendedEcho(typ) {
      var n := 0;
      for i := 0 to |exts|
        invariant forall k :: 0 <= k < i ==> exts[k].IfIdent? || exts[k].Raw?
        invariant n == IdentCount(exts[..i])
      {
        assert exts[i] in exts;
        match exts[i] {
          case IfIdent(_) => n := n + 1;
          case Raw(_) =>
          case _ => return false;
        }
        IdentCountAppend(exts[..i], exts[i]);
        assert exts[..i + 1] == exts[..i] + [exts[i]];
      }
      assert exts[..|exts|] == exts;
      if n == 1 && |exts| > 1 {
        return false;
      }
      return true;
    } else {
      return false;
    }
  }

  /** What a request is meant to carry: one identification object alone, or raw objects only. */
  predicate Intended(exts: seq<Ext>) {
    (forall e :: e in exts ==> e.IfIdent? || e.Raw?) && (IdentCount(exts) == 0 || |exts| == 1)
  }

  /**
   The lists accepted for a request are those intended and, besides them, all lists with two or
   more identification objects, also next to raw objects.
   */
  lemma LaxerThanIntended(typ: Type, exts: seq<Ext>)
    requires IsExtendedEcho(typ)
    ensures Allowed(typ, exts) <==>
            Intended(exts) || ((forall e :: e in exts ==> e.IfIdent? || e.Raw?) && IdentCount(exts) >= 2)
    ensures Allowed(typ, exts) ==> (!Intended(exts) <==> IdentCount(exts) >= 2)
  {
    IdentCountBound(exts);
  }

  lemma {:induction false} IdentCountBound(exts: seq<Ext>)
    ensures IdentCount(exts) <= |exts|
  {
    if exts != [] {
      IdentCountBound(exts[1..]);
    }
  }

  /** There are such lists. */
  lemma TwoIdentsAreAllowed(x: D.Ident, y: D.Ident)
    ensures Allowed(V4_EXTENDED_ECHO, [IfIdent(x), IfIdent(y)]) && !Intended([IfIdent(x), IfIdent(y)])
  {
    var exts := [IfIdent(x), IfIdent(y)];
    assert exts[1..] == [IfIdent(y)] && exts[1..][1..] == [];
    assert IdentCount(exts) == 1 + IdentCount(exts[1..]) == 2 + IdentCount(exts[1..][1..]);
  }

  lemma {:induction false} CanonicalKinds(exts: seq<Ext>, proto: int)
    ensures IdentCount(CanonicalAll(exts, proto)) == IdentCount(exts)
    ensures forall k :: 0 <= k < |exts| ==> CanonicalAll(exts, proto)[k] == Canonical(exts[k], proto)
  {
    if exts != [] {
      CanonicalKinds(exts[1..], proto);
      assert CanonicalAll(exts, proto)[1..] == CanonicalAll(exts[1..], proto);
    }
  }

  lemma CanonicalIdents(exts: seq<Ext>, proto: int)
    ensures (forall e :: e in CanonicalAll(exts, proto) ==> !e.IfIdent?) <==> (forall e :: e in exts ==> !e.IfIdent?)
  {
    CanonicalKinds(exts, proto);
    var cs := CanonicalAll(exts, proto);
    assert forall k :: 0 <= k < |exts| ==> exts[k] in exts && cs[k] in cs && cs[k] == Canonical(exts[k], proto);
  }

  lemma CanonicalRequests(exts: seq<Ext>, proto: int)
    ensures (forall e :: e in CanonicalAll(exts, proto) ==> e.IfIdent? || e.Raw?)
       <==> (forall e :: e in exts ==> e.IfIdent? || e.Raw?)
  {
    CanonicalKinds(exts, proto);
    var cs := CanonicalAll(exts, proto);
    assert forall k :: 0 <= k < |exts| ==> exts[k] in exts && cs[k] in cs && cs[k] == Canonical(exts[k], proto);
  }

  /** A message may carry the canonical objects exactly when it may carry the objects. */
  lemma CanonicalAllowed(typ: Type, exts: seq<Ext>, proto: int)
    ensures Allowed(typ, CanonicalAll(exts, proto)) <==> Allowed(typ, exts)
  {
    CanonicalIdents(exts, proto);
    CanonicalRequests(exts, proto);
    CanonicalKinds(exts, proto);
  }
}
