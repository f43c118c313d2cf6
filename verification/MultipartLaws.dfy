/** What the multi-part codec guarantees: round trips, totality, and where they end. */
module MultipartLaws {
  import opened Bytes
  import opened Wrappers
  import opened Extension
  import opened Multipart
  import I = InterfaceInfo

  predicate Known(proto: int) {
    proto == ICMP || proto == IPV6_ICMP
  }

  /** A non-empty list of encodable objects. */
  predicate Sendable(exts: seq<Ext>, proto: int) {
    exts != [] && AllEncodable(exts, proto) && AllFit(exts)
  }

  /** The largest original datagram that the one-octet length attribute can describe. */
  function MaxData(proto: int): (r: nat) {
    255 * Align(proto)
  }

  // ----- The pieces of a marshalled body ----------------------------------

  lemma EncodeBodyIs(proto: int, data: seq<byte>, exts: seq<Ext>, n: nat)
    requires Known(proto) && Sendable(exts, proto) && n == OrigDatagramLen(proto, |data|)
    ensures EncodeBody(proto, true, data, exts) == Leading(proto, true, n, exts) + Pad(data, n) + Tail(exts, proto)
  {
    ListLenPositive(exts, proto);
  }

  lemma AfterLeading(proto: int, data: seq<byte>, exts: seq<Ext>)
    requires Known(proto) && Sendable(exts, proto)
    ensures var n := OrigDatagramLen(proto, |data|);
            EncodeBody(proto, true, data, exts)[4..] == Pad(data, n) + Structure(EncodeAll(exts, proto))
  {
    var n := OrigDatagramLen(proto, |data|);
    EncodeBodyIs(proto, data, exts, n);
    FourOff(Leading(proto, true, n, exts), Pad(data, n), Tail(exts, proto));
  }

  lemma FourOff(lead: seq<byte>, padded: seq<byte>, tail: seq<byte>)
    requires |lead| == 4
    ensures (lead + padded + tail)[4..] == padded + tail
  {}

  /** The length attribute that the parser reads back: the units modulo 256. */
  lemma LengthReadBack(proto: int, data: seq<byte>, exts: seq<Ext>)
    requires Known(proto) && Sendable(exts, proto)
    ensures var n := OrigDatagramLen(proto, |data|);
            LengthAttribute(proto, EncodeBody(proto, true, data, exts)) == Align(proto) * (n / Align(proto) % 0x100)
  {
    ListLenPositive(exts, proto);
  }

  /** Padding to the unit keeps data within the attribute's reach, and data beyond it beyond. */
  lemma PaddedWithinReach(proto: int, len: nat)
    requires Known(proto)
    ensures var n := OrigDatagramLen(proto, len);
            if len <= MaxData(proto)
            then Align(proto) * (n / Align(proto) % 0x100) == n
            else Align(proto) * (n / Align(proto) % 0x100) < n && 128 < n
  {
    var n := OrigDatagramLen(proto, len);
    if proto == ICMP {
      assert n == 4 * (n / 4);
    } else {
      assert n == 8 * (n / 8);
    }
  }

  lemma LocatedAt(typ: Type, padded: seq<byte>, objects: seq<byte>)
    requires !IsExtendedEcho(typ) && |padded| >= 128
    requires 4 <= |objects|
    ensures Locate(typ, padded + Structure(objects), |padded|) == Ok(|padded|)
    ensures (padded + Structure(objects))[|padded| + 4..] == objects
  {
    var b := padded + Structure(objects);
    StructureIsValid(objects);
    assert b[|padded|..] == Structure(objects);
    assert b[|padded| + 4..] == Structure(objects)[4..];
  }

  lemma DecodeLocated(proto: int, typ: Type, b: seq<byte>, padded: seq<byte>, objects: seq<byte>, exts: seq<Ext>)
    requires |b| >= 4 && b[4..] == padded + Structure(objects) && LengthAttribute(proto, b) == |padded|
    requires Locate(typ, b[4..], |padded|) == Ok(|padded|) && b[4..][|padded| + 4..] == objects
    requires DecodeObjects(objects) == Ok(exts)
    ensures DecodeBody(proto, typ, b) == (padded, exts)
  {
    assert b[4..][..|padded|] == padded;
  }

  // ----- Round trip -------------------------------------------------------

  /**
   Parsing a marshalled body gives the zero-padded data and the canonical objects, in order,
   as long as the data is within reach of the length attribute.
   */
  lemma RoundTrip(proto: int, typ: Type, data: seq<byte>, exts: seq<Ext>)
    requires Known(proto) && !IsExtendedEcho(typ) && Sendable(exts, proto)
    requires |data| <= MaxData(proto)
    ensures DecodeBody(proto, typ, EncodeBody(proto, true, data, exts))
         == (Pad(data, OrigDatagramLen(proto, |data|)), CanonicalAll(exts, proto))
  {
    var n := OrigDatagramLen(proto, |data|);
    var padded, objects := Pad(data, n), EncodeAll(exts, proto);
    ListLenPositive(exts, proto);
    AfterLeading(proto, data, exts);
    LengthReadBack(proto, data, exts);
    PaddedWithinReach(proto, |data|);
    LocatedAt(typ, padded, objects);
    ListRoundTrip(exts, proto);
    DecodeLocated(proto, typ, EncodeBody(proto, true, data, exts), padded, objects, CanonicalAll(exts, proto));
  }

  /** With well-formed objects the parser returns the very list that was marshalled. */
  lemma WellFormedRoundTrip(proto: int, typ: Type, data: seq<byte>, exts: seq<Ext>)
    requires Known(proto) && !IsExtendedEcho(typ) && Sendable(exts, proto) && AllWellFormed(exts, proto)
    requires |data| <= MaxData(proto)
    ensures DecodeBody(proto, typ, EncodeBody(proto, true, data, exts))
         == (Pad(data, OrigDatagramLen(proto, |data|)), exts)
  {
    RoundTrip(proto, typ, data, exts);
    WellFormedAllCanonical(exts, proto);
  }

  /** Longer data never comes back: the length octet has wrapped. So the limit is exact. */
  lemma RoundTripIff(proto: int, typ: Type, data: seq<byte>, exts: seq<Ext>)
    requires Known(proto) && !IsExtendedEcho(typ) && Sendable(exts, proto)
    ensures DecodeBody(proto, typ, EncodeBody(proto, true, data, exts)).0 == Pad(data, OrigDatagramLen(proto, |data|))
            <==> |data| <= MaxData(proto)
  {
    if |data| <= MaxData(proto) {
      RoundTrip(proto, typ, data, exts);
    } else {
      AfterLeading(proto, data, exts);
      LengthReadBack(proto, data, exts);
      PaddedWithinReach(proto, |data|);
    }
  }

  /** Re-marshalling what was parsed from a marshalled body gives the same octets. */
  lemma RemarshalIsFixedPoint(proto: int, typ: Type, data: seq<byte>, exts: seq<Ext>)
    requires Known(proto) && !IsExtendedEcho(typ) && Sendable(exts, proto)
    requires |data| <= MaxData(proto)
    ensures var b := EncodeBody(proto, true, data, exts);
            var (data', exts') := DecodeBody(proto, typ, b);
            AllFit(exts') && EncodeBody(proto, true, data', exts') == b
  {
    RoundTrip(proto, typ, data, exts);
    EncodesAgain(proto, data, exts);
  }

  lemma TailAgain(proto: int, exts: seq<Ext>)
    requires exts == [] || Sendable(exts, proto)
    ensures AllFit(CanonicalAll(exts, proto)) && AllFit(exts)
    ensures Tail(CanonicalAll(exts, proto), proto) == Tail(exts, proto)
  {
    if exts != [] {
      CanonicalAllEncodes(exts, proto);
    }
  }

  lemma CanonicalSendable(exts: seq<Ext>, proto: int)
    requires Sendable(exts, proto)
    ensures Sendable(CanonicalAll(exts, proto), proto)
  {
    CanonicalAllEncodes(exts, proto);
    SameListLen(exts, proto);
  }

  lemma EncodesAgain(proto: int, data: seq<byte>, exts: seq<Ext>)
    requires Known(proto) && Sendable(exts, proto)
    ensures AllFit(CanonicalAll(exts, proto))
    ensures EncodeBody(proto, true, Pad(data, OrigDatagramLen(proto, |data|)), CanonicalAll(exts, proto))
         == EncodeBody(proto, true, data, exts)
  {
    var n := OrigDatagramLen(proto, |data|);
    EncodeBodyIs(proto, data, exts, n);
    CanonicalSendable(exts, proto);
    PadAgain(proto, |data|);
    EncodeBodyIs(proto, Pad(data, n), CanonicalAll(exts, proto), n);
    TailAgain(proto, exts);
    assert Pad(Pad(data, n), n) == Pad(data, n);
  }

  lemma SameListLen(exts: seq<Ext>, proto: int)
    requires AllEncodable(exts, proto) && AllFit(exts)
    ensures ListLen(CanonicalAll(exts, proto), proto) == ListLen(exts, proto)
  {
    CanonicalAllEncodes(exts, proto);
    assert |EncodeAll(CanonicalAll(exts, proto), proto)| == |EncodeAll(exts, proto)|;
  }

  /** Padding is idempotent. */
  lemma PadAgain(proto: int, len: nat)
    requires Known(proto)
    ensures OrigDatagramLen(proto, OrigDatagramLen(proto, len)) == OrigDatagramLen(proto, len)
  {}

  // ----- Extension structures and later writes ----------------------------

  lemma AfterAnyLeading(lead: seq<byte>, padded: seq<byte>, tail: seq<byte>, other: seq<byte>)
    requires |lead| == 4 && |other| == 4
    ensures var b := lead + padded + tail;
            b[4 + |padded|..] == tail && (other + b[4..])[4 + |padded|..] == tail
  {}

  lemma HeaderBehind(lead: seq<byte>, padded: seq<byte>, s: seq<byte>, other: seq<byte>, b: seq<byte>, n: nat)
    requires |lead| == 4 && |other| == 4 && |s| >= 4 && ValidHeader(s)
    requires b == lead + padded + s && n == 4 + |padded|
    ensures ValidHeader((other + b[4..])[n..]) && (other + b[4..])[n..] == b[n..]
  {
    AfterAnyLeading(lead, padded, s, other);
  }

  /**
   The structure of a marshalled body stays valid whatever is written to the four leading octets
   afterwards: the length attribute, a pointer, or an identifier and a sequence number.
   */
  lemma HeaderSurvivesLeadingWrites(proto: int, withOrig: bool, data: seq<byte>, exts: seq<Ext>, leading: seq<byte>,
                                    b: seq<byte>, n: nat)
    requires Sendable(exts, proto) && |leading| == 4
    requires b == EncodeBody(proto, withOrig, data, exts) && n == 4 + DataLen(proto, withOrig, |data|, exts)
    ensures ValidHeader((leading + b[4..])[n..]) && (leading + b[4..])[n..] == b[n..]
  {
    var s := Structure(EncodeAll(exts, proto));
    StructureIsValid(EncodeAll(exts, proto));
    HeaderBehind(Leading(proto, withOrig, n - 4, exts), Pad(data, n - 4), s, leading, b, n);
  }

  lemma DecodeRequest(proto: int, typ: Type, b: seq<byte>, s: seq<byte>, exts: seq<Ext>)
    requires IsExtendedEcho(typ) && |b| >= 4 && b[4..] == s && |s| >= 8 && ValidHeader(s)
    requires DecodeObjects(s[4..]) == Ok(exts)
    ensures DecodeBody(proto, typ, b) == ([], exts)
  {
    assert DecodeAt(Ok(0), s) == Ok((exts, 0));
  }

  /** A request's objects come back whatever its leading octets are. */
  lemma EchoRoundTrip(proto: int, typ: Type, exts: seq<Ext>, leading: seq<byte>)
    requires IsExtendedEcho(typ) && Sendable(exts, proto) && |leading| == 4
    ensures DecodeBody(proto, typ, leading + Structure(EncodeAll(exts, proto))) == ([], CanonicalAll(exts, proto))
  {
    ListLenPositive(exts, proto);
    StructureIsValid(EncodeAll(exts, proto));
    ListRoundTrip(exts, proto);
    var s := Structure(EncodeAll(exts, proto));
    assert (leading + s)[4..] == s;
    DecodeRequest(proto, typ, leading + s, s, CanonicalAll(exts, proto));
  }

  // ----- Any input --------------------------------------------------------

  /**
   The parser accepts every body of at least four octets. Its data is a prefix of what follows
   the leading octets, cut short only where a valid extension header starts; and when nothing
   is cut off there are no objects.
   */
  lemma DataIsPrefix(proto: int, typ: Type, b: seq<byte>)
    requires |b| >= 4
    ensures var (data, exts) := DecodeBody(proto, typ, b);
            data <= b[4..] &&
            (if |data| == |b| - 4 then exts == []
                else |data| + 8 <= |b| - 4 && ValidHeader(b[4 + |data|..])
                     && DecodeObjects(b[8 + |data|..]) == Ok(exts))
  {
    var body := b[4..];
    match DecodeExtensions(typ, body, LengthAttribute(proto, b))
    case Ok((exts, n)) =>
      assert body[n..] == b[4 + n..];
      assert body[n + 4..] == b[8 + n..];
    case Err(_) =>
  }

  /**
   A body without extensions gives its data back exactly when the data is shorter than 136
   octets, has no valid extension header at offset 128, or has one there that is followed by an
   object that does not parse.
   */
  lemma PlainRoundTripIff(proto: int, typ: Type, data: seq<byte>)
    requires !IsExtendedEcho(typ)
    ensures DecodeBody(proto, typ, EncodeBody(proto, true, data, [])) == (data, []) <==>
            |data| < 136 || !ValidHeader(data[128..]) || DecodeObjects(data[132..]).Err?
  {
    var b := EncodeBody(proto, true, data, []);
    assert b[4..] == data;
    assert LengthAttribute(proto, b) == 0;
    if |data| >= 136 {
      assert data[128..][4..] == data[132..];
    }
  }

  /** The third case is real: data that looks like a structure with a broken object is kept whole. */
  lemma BrokenObjectKeepsData()
    ensures var data := Zeros(128) + [0x20, 0, 0, 0] + [0, 5, 2, 8, 0];
            ValidHeader(data[128..]) && DecodeObjects(data[132..]).Err?
  {
    var broken: seq<byte> := [0, 5, 2, 8, 0];
    var data := Zeros(128) + [0x20, 0, 0, 0] + broken;
    assert data[132..] == broken;
    assert data[128..] == [0x20, 0, 0, 0] + broken;
    assert data[128..][2..4] == [0, 0];
    assert broken[..5] == broken && broken[4..] == [0];
    assert I.AttrsOf(8) == [I.IfIndex];
    assert I.DecodeField([0], I.IfIndex) == Err(MessageTooShort);
    assert I.DecodeFields([0], [I.IfIndex]) == Err(MessageTooShort);
  }
}
