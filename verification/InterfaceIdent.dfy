/** Interface identification objects (icmp/interface.go lines 233-320); RFC 8335, section 2.1. */
module InterfaceIdent {
  import opened Bytes
  import opened Wrappers

  datatype Ident = Ident(cls: int, typ: int, name: seq<byte>, index: int, afi: int, addr: seq<byte>)

  const CLASS := 3
  const BY_NAME := 1
  const BY_INDEX := 2
  const BY_ADDRESS := 3

  function Min(a: nat, b: nat): (r: nat) {
    if a < b then a else b
  }

  function Len(ifi: Ident): (r: nat)
    ensures r >= 4
  {
    if ifi.typ == BY_NAME then 4 + RoundUp4(Min(|ifi.name|, 255))
    else if ifi.typ == BY_INDEX then 8
    else if ifi.typ == BY_ADDRESS then 8 + RoundUp4(|ifi.addr|)
    else 4
  }

  /** The name is stored inside the object: 256 octets fit, although the length counts 255. */
  predicate NameFits(ifi: Ident) {
    ifi.typ == BY_NAME ==> |ifi.name| <= 256
  }

  function EncodeBody(ifi: Ident): (r: seq<byte>)
    requires NameFits(ifi)
    ensures |r| == Len(ifi) - 4
  {
    if ifi.typ == BY_NAME then Pad(ifi.name, Len(ifi) - 4)
    else if ifi.typ == BY_INDEX then Be32(ifi.index)
    else if ifi.typ == BY_ADDRESS then
      Be16(ifi.afi) + [Low8(|ifi.addr|), 0] + Pad(ifi.addr, Len(ifi) - 8)
    else []
  }

  function Encode(ifi: Ident): (r: seq<byte>)
    requires NameFits(ifi)
    ensures |r| == Len(ifi)
  {
    ObjectHeader(Len(ifi), CLASS, ifi.typ) + EncodeBody(ifi)
  }

  /** Marshals into a zeroed region of a buffer that may reach beyond the object; nothing outside it changes. */
  method Marshal(ifi: Ident, b: array<byte>, start: nat)
    requires NameFits(ifi) && ZeroFrom(b[..], start, Len(ifi))
    modifies b
    ensures b[..] == Write(old(b[..]), start, Encode(ifi))
  {
    ghost var before := b[..];
    ghost var header := ObjectHeader(Len(ifi), CLASS, ifi.typ);
    StillZero(before, start, header, start + 4, Len(ifi) - 4);
    StoreHeader(b, start, Len(ifi), CLASS, ifi.typ);
    MarshalBody(ifi, b, start + 4);
    WriteAppend(before, start, header, start + 4, EncodeBody(ifi));
  }

  /** The switch on the sub-type. */
  method MarshalBody(ifi: Ident, b: array<byte>, p: nat)
    requires NameFits(ifi) && ZeroFrom(b[..], p, Len(ifi) - 4)
    modifies b
    ensures b[..] == Write(old(b[..]), p, EncodeBody(ifi))
  {
    ghost var before := b[..];
    if ifi.typ == BY_NAME {
      WriteBeforeZeros(before, p, ifi.name, Len(ifi) - 4 - |ifi.name|);
      Copy(b, p, ifi.name);
    } else if ifi.typ == BY_INDEX {
      Store(b, p, Be32(ifi.index));
    } else if ifi.typ == BY_ADDRESS {
      MarshalAddress(ifi, b, p);
    }
  }

  method MarshalAddress(ifi: Ident, b: array<byte>, p: nat)
    requires ifi.typ == BY_ADDRESS && ZeroFrom(b[..], p, Len(ifi) - 4)
    modifies b
    ensures b[..] == Write(old(b[..]), p, EncodeBody(ifi))
  {
    ghost var before := b[..];
    ghost var head := Be16(ifi.afi) + [Low8(|ifi.addr|), 0];
    Store(b, p, Be16(ifi.afi));
    b[p + 2] := Low8(|ifi.addr|);
    assert b[..] == Write(before, p, head);
    Copy(b, p + 4, ifi.addr);
    WriteAppend(before, p, head, p + 4, ifi.addr);
    WriteBeforeZeros(before, p, head + ifi.addr, Len(ifi) - 8 - |ifi.addr|);
    assert head + ifi.addr + Zeros(Len(ifi) - 8 - |ifi.addr|) == EncodeBody(ifi);
  }

  function Decode(b: seq<byte>): (r: Result<Ident>)
    requires |b| >= 4
  {
    var ifi := Ident(b[2], b[3], [], 0, 0, []);
    if ifi.typ == BY_NAME then Ok(ifi.(name := TrimNul(b[4..])))
    else if ifi.typ == BY_INDEX then
      if |b[4..]| < 4 then Err(InvalidExtension) else Ok(ifi.(index := U32(b[4..8])))
    else if ifi.typ == BY_ADDRESS then
      if |b[4..]| < 4 then Err(InvalidExtension)
      else if |b[8..]| < b[6] then Err(InvalidExtension)
      else Ok(ifi.(afi := U16(b[4..6]), addr := b[8..8 + b[6] as int]))
    else Ok(ifi)
  }

  method Parse(b: seq<byte>) returns (r: Result<Ident>)
    requires |b| >= 4
    ensures r == Decode(b)
  {
    var ifi := Ident(b[2], b[3], [], 0, 0, []);
    if ifi.typ == BY_NAME {
      ifi := ifi.(name := TrimNul(b[4..]));
    } else if ifi.typ == BY_INDEX {
      if |b[4..]| < 4 {
        return Err(InvalidExtension);
      }
      ifi := ifi.(index := U32(b[4..8]));
    } else if ifi.typ == BY_ADDRESS {
      if |b[4..]| < 4 {
        return Err(InvalidExtension);
      }
      ifi := ifi.(afi := U16(b[4..6]));
      var l: int := b[6];
      if |b[8..]| < l {
        return Err(InvalidExtension);
      }
      ifi := ifi.(addr := b[8..8 + l]);
    }
    return Ok(ifi);
  }

  /** Objects whose encoding a parser reads back. */
  predicate Encodable(ifi: Ident) {
    && 0 <= ifi.typ < 0x100
    && (ifi.typ == BY_NAME ==> |ifi.name| <= 256 && Trimmed(ifi.name))
    && (ifi.typ == BY_ADDRESS ==> |ifi.addr| <= 255)
  }

  /** The struct that a parser builds from the encoding: only the identified form is carried. */
  function Canonical(ifi: Ident): (r: Ident) {
    Ident(CLASS, ifi.typ,
          if ifi.typ == BY_NAME then ifi.name else [],
          if ifi.typ == BY_INDEX then ifi.index % 0x1_0000_0000 else 0,
          if ifi.typ == BY_ADDRESS then ifi.afi % 0x1_0000 else 0,
          if ifi.typ == BY_ADDRESS then ifi.addr else [])
  }

  /** An identification that the wire carries completely: fields of the other forms are empty. */
  predicate WellFormed(ifi: Ident) {
    && Encodable(ifi) && ifi.cls == CLASS
    && (ifi.typ != BY_NAME ==> ifi.name == [])
    && (if ifi.typ == BY_INDEX then 0 <= ifi.index < 0x1_0000_0000 else ifi.index == 0)
    && (if ifi.typ == BY_ADDRESS then 0 <= ifi.afi < 0x1_0000 else ifi.afi == 0 && ifi.addr == [])
  }

  lemma WellFormedIsCanonical(ifi: Ident)
    requires WellFormed(ifi)
    ensures Canonical(ifi) == ifi
  {}

  lemma CanonicalWellFormed(ifi: Ident)
    requires Encodable(ifi)
    ensures WellFormed(Canonical(ifi))
  {}

  lemma ByNameRoundTrip(ifi: Ident, e: seq<byte>)
    requires Encodable(ifi) && ifi.typ == BY_NAME
    requires |e| >= 4 && e[2] == CLASS && e[3] == ifi.typ && e[4..] == EncodeBody(ifi)
    ensures Decode(e) == Ok(Canonical(ifi))
  {
    NameComesBack(ifi, e[4..]);
  }

  lemma NameComesBack(ifi: Ident, body: seq<byte>)
    requires Encodable(ifi) && ifi.typ == BY_NAME && body == EncodeBody(ifi)
    ensures TrimNul(body) == ifi.name
  {
    TrimNulPad(ifi.name, Len(ifi) - 4 - |ifi.name|);
  }

  lemma ByIndexRoundTrip(ifi: Ident, e: seq<byte>)
    requires Encodable(ifi) && ifi.typ == BY_INDEX
    requires |e| >= 4 && e[2] == CLASS && e[3] == ifi.typ && e[4..] == EncodeBody(ifi)
    ensures Decode(e) == Ok(Canonical(ifi))
  {
    assert e[4..8] == Be32(ifi.index);
    U32Be32(ifi.index);
  }

  lemma ByAddressRoundTrip(ifi: Ident, e: seq<byte>)
    requires Encodable(ifi) && ifi.typ == BY_ADDRESS
    requires |e| >= 4 && e[2] == CLASS && e[3] == ifi.typ && e[4..] == EncodeBody(ifi)
    ensures Decode(e) == Ok(Canonical(ifi))
  {
    var body := EncodeBody(ifi);
    var n := |ifi.addr|;
    assert e[4..6] == body[0..2] == Be16(ifi.afi);
    assert e[6] == body[2] == n;
    assert e[8..8 + n] == body[4..4 + n] == ifi.addr;
    U16Be16(ifi.afi);
  }

  /** Parsing a marshalled object restores the canonical struct. */
  lemma RoundTrip(ifi: Ident)
    requires Encodable(ifi)
    ensures Decode(Encode(ifi)) == Ok(Canonical(ifi))
  {
    var e := Encode(ifi);
    assert e[2] == CLASS && e[3] == ifi.typ;
    assert e[4..] == EncodeBody(ifi);
    if ifi.typ == BY_NAME {
      ByNameRoundTrip(ifi, e);
    } else if ifi.typ == BY_INDEX {
      ByIndexRoundTrip(ifi, e);
    } else if ifi.typ == BY_ADDRESS {
      ByAddressRoundTrip(ifi, e);
    }
  }

  /** The parsed struct is marshalled to the octets it was parsed from. */
  lemma CanonicalEncodes(ifi: Ident)
    requires Encodable(ifi)
    ensures Encodable(Canonical(ifi)) && Encode(Canonical(ifi)) == Encode(ifi)
  {
    U32Be32(ifi.index);
    Be32Low(ifi.index);
    Be16Low(ifi.afi);
  }
}
