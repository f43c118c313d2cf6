/** Interface information objects (icmp/interface.go lines 13-231); RFC 5837, section 4. */
module InterfaceInfo {
  import opened Bytes
  import opened Wrappers

  type IP = seq<byte>

  datatype NetInterface = NetInterface(index: int, mtu: int, name: seq<byte>)

  datatype IPAddress = IPAddress(ip: IP, zone: seq<byte>)

  datatype Info = Info(cls: int, typ: int, iface: Option<NetInterface>, addr: Option<IPAddress>)

  const CLASS := 2
  const ATTR_MTU := 1
  const ATTR_NAME := 2
  const ATTR_IP_ADDR := 4
  const ATTR_IF_INDEX := 8

  /** An attribute kind; its place in this list is its place in the loops over `attrs`. */
  datatype Attr = IfIndex | IPAddr | Name | Mtu

  /** The source's `attrs` bit set, as the list of its set bits in the order the loops take them. */
  type Attrs = seq<Attr>

  function Prepend(has: bool, a: Attr, tail: Attrs): (r: Attrs) {
    if has then [a] + tail else tail
  }

  function Listed(ifIndex: bool, ipAddr: bool, name: bool, mtu: bool): (r: Attrs) {
    Prepend(ifIndex, IfIndex, Prepend(ipAddr, IPAddr, Prepend(name, Name, Prepend(mtu, Mtu, []))))
  }

  /** The bit set as an integer. */
  function Bits(ifIndex: bool, ipAddr: bool, name: bool, mtu: bool): (r: nat)
    ensures r < 16
  {
    (if ifIndex then ATTR_IF_INDEX else 0) + (if ipAddr then ATTR_IP_ADDR else 0)
    + (if name then ATTR_NAME else 0) + (if mtu then ATTR_MTU else 0)
  }

  /** `typ & bit != 0`, for one of the four attribute bits. */
  predicate Has(typ: int, bit: nat)
    requires bit > 0
  {
    typ / bit % 2 == 1
  }

  /** The attributes whose bits are set in a sub-type. */
  function AttrsOf(typ: int): (r: Attrs) {
    Listed(Has(typ, ATTR_IF_INDEX), Has(typ, ATTR_IP_ADDR), Has(typ, ATTR_NAME), Has(typ, ATTR_MTU))
  }

  /** A sub-type whose low four bits are the given ones lists exactly those attributes. */
  lemma AttrsOfBits(ifIndex: bool, ipAddr: bool, name: bool, mtu: bool, typ: int)
    requires typ % 16 == Bits(ifIndex, ipAddr, name, mtu)
    ensures AttrsOf(typ) == Listed(ifIndex, ipAddr, name, mtu)
  {
    HasOfBits(ifIndex, ipAddr, name, mtu, typ);
  }

  lemma SplitBits(q: int, x: nat, a: nat, n: nat, m: nat, typ: int)
    requires x <= 1 && a <= 1 && n <= 1 && m <= 1
    requires typ == 16 * q + 8 * x + 4 * a + 2 * n + m
    ensures typ / 8 % 2 == x && typ / 4 % 2 == a && typ / 2 % 2 == n && typ % 2 == m
  {
    DivBy8(typ, 2 * q + x, 4 * a + 2 * n + m);
    DivBy4(typ, 2 * (2 * q + x) + a, 2 * n + m);
    DivBy2(typ, 2 * (4 * q + 2 * x + a) + n, m);
    DivBy2(2 * q + x, q, x);
    DivBy2(2 * (2 * q + x) + a, 2 * q + x, a);
    DivBy2(2 * (4 * q + 2 * x + a) + n, 4 * q + 2 * x + a, n);
  }

  lemma DivBy2(n: int, h: int, r: int)
    requires n == 2 * h + r && 0 <= r < 2
    ensures n / 2 == h && n % 2 == r
  {}

  lemma DivBy4(n: int, h: int, r: int)
    requires n == 4 * h + r && 0 <= r < 4
    ensures n / 4 == h
  {}

  lemma DivBy8(n: int, h: int, r: int)
    requires n == 8 * h + r && 0 <= r < 8
    ensures n / 8 == h
  {}

  /** The bits themselves. */
  lemma HasOfBits(ifIndex: bool, ipAddr: bool, name: bool, mtu: bool, typ: int)
    requires typ % 16 == Bits(ifIndex, ipAddr, name, mtu)
    ensures Has(typ, ATTR_IF_INDEX) == ifIndex && Has(typ, ATTR_IP_ADDR) == ipAddr
    ensures Has(typ, ATTR_NAME) == name && Has(typ, ATTR_MTU) == mtu
  {
    SplitBits(typ / 16, if ifIndex then 1 else 0, if ipAddr then 1 else 0, if name then 1 else 0,
              if mtu then 1 else 0, typ);
  }

  // ----- net.IP -----------------------------------------------------------

  predicate IsMapped(ip: IP) {
    |ip| == 16 && ip[..10] == Zeros(10) && ip[10] == 0xff && ip[11] == 0xff
  }

  function To4(ip: IP): (r: Option<IP>)
    ensures r.Some? ==> |r.value| == 4
  {
    if |ip| == 4 then Some(ip) else if IsMapped(ip) then Some(ip[12..]) else None
  }

  function To16(ip: IP): (r: Option<IP>)
    ensures r.Some? ==> |r.value| == 16
  {
    if |ip| == 4 then Some(Zeros(10) + [0xff, 0xff] + ip) else if |ip| == 16 then Some(ip) else None
  }

  /** The address has the form that `proto` puts on the wire. */
  predicate Native(ip: IP, proto: int) {
    (proto == 1 && To4(ip).Some?) || (proto == 58 && To16(ip).Some? && To4(ip).None?)
  }

  /** The octets of a native address. */
  function Wire(ip: IP, proto: int): (r: IP)
    requires Native(ip, proto)
    ensures |r| == if proto == 1 then 4 else 16
  {
    if proto == 1 then To4(ip).value else To16(ip).value
  }

  // ----- Attributes of a struct -------------------------------------------

  function NameLen(name: seq<byte>): (r: nat)
    ensures 4 <= r <= 64 && r % 4 == 0
    ensures |name| <= 63 ==> |name| < r
  {
    if |name| > 63 then 64 else RoundUp4(1 + |name|)
  }

  predicate HasIndex(ifi: Info) {
    ifi.iface.Some? && ifi.iface.value.index > 0
  }

  predicate HasName(ifi: Info) {
    HasIndex(ifi) && ifi.iface.value.name != []
  }

  predicate HasMtu(ifi: Info) {
    HasIndex(ifi) && ifi.iface.value.mtu > 0
  }

  predicate HasAddr(ifi: Info, proto: int) {
    ifi.addr.Some? && Native(ifi.addr.value.ip, proto)
  }

  /** The present attributes. */
  function AttrsIn(ifi: Info, proto: int): (r: Attrs) {
    Listed(HasIndex(ifi), HasAddr(ifi, proto), HasName(ifi), HasMtu(ifi))
  }

  /** The value of one attribute, the address in its wire form. */
  datatype Field = FIndex(index: int) | FAddr(ip: IP) | FName(name: seq<byte>) | FMtu(mtu: int)

  predicate Present(ifi: Info, proto: int, a: Attr) {
    match a
    case IfIndex => HasIndex(ifi)
    case IPAddr => HasAddr(ifi, proto)
    case Name => HasName(ifi)
    case Mtu => HasMtu(ifi)
  }

  function FieldOf(ifi: Info, proto: int, a: Attr): (r: Field)
    requires Present(ifi, proto, a)
  {
    match a
    case IfIndex => FIndex(ifi.iface.value.index)
    case IPAddr => FAddr(Wire(ifi.addr.value.ip, proto))
    case Name => FName(ifi.iface.value.name)
    case Mtu => FMtu(ifi.iface.value.mtu)
  }

  predicate AllPresent(ifi: Info, proto: int, attrs: Attrs) {
    forall a :: a in attrs ==> Present(ifi, proto, a)
  }

  /** The values of the attributes in `attrs`, in their order. */
  function Fields(ifi: Info, proto: int, attrs: Attrs): (r: seq<Field>)
    requires AllPresent(ifi, proto, attrs)
    ensures |r| == |attrs|
  {
    if attrs == [] then [] else [FieldOf(ifi, proto, attrs[0])] + Fields(ifi, proto, attrs[1..])
  }

  function FieldLen(f: Field): (r: nat)
    ensures r >= 4
  {
    match f
    case FAddr(ip) => 4 + |ip|
    case FName(name) => NameLen(name)
    case _ => 4
  }

  function FieldsLen(fs: seq<Field>): (r: nat)
    ensures fs != [] ==> r >= 4
  {
    if fs == [] then 0 else FieldLen(fs[0]) + FieldsLen(fs[1..])
  }

  function Len(ifi: Info, proto: int): (r: nat)
    ensures 4 <= r
  {
    4 + FieldsLen(Fields(ifi, proto, AttrsIn(ifi, proto)))
  }

  function KindOf(f: Field): (r: Attr) {
    match f
    case FIndex(_) => IfIndex
    case FAddr(_) => IPAddr
    case FName(_) => Name
    case FMtu(_) => Mtu
  }

  /** An optional attribute in front adds its own length. */
  lemma OptionalLen(ifi: Info, proto: int, has: bool, a: Attr, tail: Attrs)
    requires AllPresent(ifi, proto, tail) && (has ==> Present(ifi, proto, a))
    ensures var attrs := Prepend(has, a, tail);
            AllPresent(ifi, proto, attrs) &&
            FieldsLen(Fields(ifi, proto, attrs)) ==
            (if has then FieldLen(FieldOf(ifi, proto, a)) else 0) + FieldsLen(Fields(ifi, proto, tail))
  {
    if has {
      assert ([a] + tail)[1..] == tail;
      assert Fields(ifi, proto, [a] + tail)[1..] == Fields(ifi, proto, tail);
    }
  }

  /** The object length, attribute by attribute. */
  lemma LenBySum(ifi: Info, proto: int)
    ensures Len(ifi, proto) ==
            4 + (if HasIndex(ifi) then 4 else 0) + (if HasName(ifi) then NameLen(ifi.iface.value.name) else 0)
            + (if HasMtu(ifi) then 4 else 0) + (if HasAddr(ifi, proto) then 4 + (if proto == 1 then 4 else 16) else 0)
    ensures Len(ifi, proto) <= 96
  {
    var d := Prepend(HasMtu(ifi), Mtu, []);
    var c := Prepend(HasName(ifi), Name, d);
    var b := Prepend(HasAddr(ifi, proto), IPAddr, c);
    OptionalLen(ifi, proto, HasMtu(ifi), Mtu, []);
    OptionalLen(ifi, proto, HasName(ifi), Name, d);
    OptionalLen(ifi, proto, HasAddr(ifi, proto), IPAddr, c);
    OptionalLen(ifi, proto, HasIndex(ifi), IfIndex, b);
  }

  /** One accumulating pass over the attributes gives the bits and the object's length. */
  method AttrsAndLen(ifi: Info, proto: int) returns (attrs: Attrs, l: nat)
    ensures attrs == AttrsIn(ifi, proto) && l == Len(ifi, proto)
  {
    var hasIndex, hasAddr, hasName, hasMtu := false, false, false, false;
    l := 4;
    if ifi.iface.Some? && ifi.iface.value.index > 0 {
      hasIndex, l := true, l + 4;
      if |ifi.iface.value.name| > 0 {
        hasName, l := true, l + NameLen(ifi.iface.value.name);
      }
      if ifi.iface.value.mtu > 0 {
        hasMtu, l := true, l + 4;
      }
    }
    if ifi.addr.Some? {
      if proto == 1 {
        if To4(ifi.addr.value.ip).Some? {
          hasAddr, l := true, l + 4 + 4;
        }
      } else if proto == 58 {
        if To16(ifi.addr.value.ip).Some? && To4(ifi.addr.value.ip).None? {
          hasAddr, l := true, l + 4 + 16;
        }
      }
    }
    attrs := Listed(hasIndex, hasAddr, hasName, hasMtu);
    LenBySum(ifi, proto);
  }

  // ----- The octets of an object ------------------------------------------

  /** Address family numbers: 1 for IPv4, 2 for IPv6. */
  function Afi(ip: IP): (r: byte) {
    if |ip| == 4 then 1 else 2
  }

  /** A name of at most 63 octets stays inside its own object. */
  predicate Fitting(f: Field) {
    f.FName? ==> |f.name| <= 63
  }

  predicate AllFitting(fs: seq<Field>) {
    forall f :: f in fs ==> Fitting(f)
  }

  /** One attribute on the wire: RFC 5837, sections 4.1 to 4.3. */
  function EncodeField(f: Field): (r: seq<byte>)
    requires Fitting(f)
    ensures |r| == FieldLen(f)
  {
    match f
    case FIndex(x) => Be32(x)
    case FAddr(ip) => [0, Afi(ip), 0, 0] + ip
    case FName(name) => [NameLen(name)] + Pad(name, NameLen(name) - 1)
    case FMtu(x) => Be32(x)
  }

  function EncodeFields(fs: seq<Field>): (r: seq<byte>)
    requires AllFitting(fs)
    ensures |r| == FieldsLen(fs)
  {
    if fs == [] then [] else EncodeField(fs[0]) + EncodeFields(fs[1..])
  }

  predicate NameFits(ifi: Info) {
    HasName(ifi) ==> |ifi.iface.value.name| <= 63
  }

  lemma {:induction false} FieldsFit(ifi: Info, proto: int, attrs: Attrs)
    requires AllPresent(ifi, proto, attrs) && NameFits(ifi)
    ensures AllFitting(Fields(ifi, proto, attrs))
  {
    if attrs != [] {
      assert attrs[0] in attrs;
      FieldsFit(ifi, proto, attrs[1..]);
      assert Fitting(FieldOf(ifi, proto, attrs[0]));
    }
  }

  function Encode(ifi: Info, proto: int): (r: seq<byte>)
    requires NameFits(ifi)
    ensures |r| == Len(ifi, proto)
  {
    FieldsFit(ifi, proto, AttrsIn(ifi, proto));
    ObjectHeader(Len(ifi, proto), CLASS, ifi.typ) + EncodeFields(Fields(ifi, proto, AttrsIn(ifi, proto)))
  }

  // ----- Marshalling ------------------------------------------------------

  /** Marshals into a zeroed region of a buffer that may reach beyond the object; nothing outside it changes. */
  method Marshal(ifi: Info, proto: int, b: array<byte>, start: nat, attrs: Attrs, l: nat)
    requires attrs == AttrsIn(ifi, proto) && l == Len(ifi, proto) && NameFits(ifi)
    requires ZeroFrom(b[..], start, l)
    modifies b
    ensures b[..] == Write(old(b[..]), start, Encode(ifi, proto))
  {
    ghost var before := b[..];
    ghost var header := ObjectHeader(l, CLASS, ifi.typ);
    FieldsFit(ifi, proto, attrs);
    StillZero(before, start, header, start + 4, l - 4);
    StoreHeader(b, start, l, CLASS, ifi.typ);
    MarshalFields(Fields(ifi, proto, attrs), b, start + 4);
    WriteAppend(before, start, header, start + 4, EncodeFields(Fields(ifi, proto, attrs)));
  }

  /** The attribute loop, over the values that the struct has for the attributes. */
  method MarshalFields(fs: seq<Field>, b: array<byte>, start: nat)
    requires AllFitting(fs) && ZeroFrom(b[..], start, FieldsLen(fs))
    modifies b
    ensures b[..] == Write(old(b[..]), start, EncodeFields(fs))
  {
    var p: nat, attrs := start, fs;
    while b.Length - p > 0 && attrs != []
      invariant AllFitting(attrs) && ZeroFrom(b[..], p, FieldsLen(attrs))
      invariant Write(b[..], p, EncodeFields(attrs)) == Write(old(b[..]), start, EncodeFields(fs))
      decreases |attrs|
    {
      ghost var before, p0, e, n := b[..], p, EncodeField(attrs[0]), FieldsLen(attrs[1..]);
      p := MarshalField(attrs[0], b, p, n);
      attrs := attrs[1..];
      StillZero(before, p0, e, p, n);
      WriteAppend(before, p0, e, p, EncodeFields(attrs));
    }
    assert Write(b[..], p, []) == b[..];
  }

  /** The body of the attribute loop; returns the offset after the attribute. */
  method MarshalField(f: Field, b: array<byte>, p: nat, ghost n: nat) returns (q: nat)
    requires Fitting(f) && ZeroFrom(b[..], p, FieldLen(f) + n)
    modifies b
    ensures q == p + FieldLen(f)
    ensures b[..] == Write(old(b[..]), p, EncodeField(f))
  {
    match f
    case FIndex(x) => q := MarshalInt(x, b, p);
    case FAddr(ip) => q := MarshalIPAddr(ip, b, p);
    case FName(name) => q := MarshalName(name, b, p);
    case FMtu(x) => q := MarshalInt(x, b, p);
  }

  /** `marshalIfIndex` and `marshalMTU`. */
  method MarshalInt(x: int, b: array<byte>, p: nat) returns (q: nat)
    requires p + 4 <= b.Length
    modifies b
    ensures q == p + 4 && b[..] == Write(old(b[..]), p, Be32(x))
  {
    Store(b, p, Be32(x));
    q := p + 4;
  }

  /** The two octets after the address family are not written; they are zero already. */
  method MarshalIPAddr(ip: IP, b: array<byte>, p: nat) returns (q: nat)
    requires ZeroFrom(b[..], p, 4 + |ip|)
    modifies b
    ensures q == p + 4 + |ip|
    ensures b[..] == Write(old(b[..]), p, EncodeField(FAddr(ip)))
  {
    Store(b, p, Be16(Afi(ip)));
    Store(b, p + 4, ip);
    q := p + 4 + |ip|;
  }

  /** Go's `copy` would go on past the object if the name were longer. */
  method MarshalName(name: seq<byte>, b: array<byte>, p: nat) returns (q: nat)
    requires |name| <= 63 && ZeroFrom(b[..], p, NameLen(name))
    modifies b
    ensures q == p + NameLen(name)
    ensures b[..] == Write(old(b[..]), p, EncodeField(FName(name)))
  {
    ghost var before := b[..];
    var l: byte := NameLen(name);
    b[p] := l;
    Copy(b, p + 1, name);
    q := p + l;
    WriteAppend(before, p, [l], p + 1, name);
    WriteBeforeZeros(before, p, [l] + name, l - 1 - |name|);
    assert [l] + name + Zeros(l - 1 - |name|) == EncodeField(FName(name));
  }

  // ----- Parsing ----------------------------------------------------------

  /** Reads one attribute; returns its value and the unread octets. */
  function DecodeField(b: seq<byte>, a: Attr): (r: Result<(Field, seq<byte>)>) {
    match a
    case IfIndex => if |b| < 4 then Err(MessageTooShort) else Ok((FIndex(U32(b)), b[4..]))
    case IPAddr => DecodeIPAddr(b)
    case Name => DecodeName(b)
    case Mtu => if |b| < 4 then Err(MessageTooShort) else Ok((FMtu(U32(b)), b[4..]))
  }

  /** An unknown address family leaves the address empty and consumes four octets. */
  function DecodeIPAddr(b: seq<byte>): (r: Result<(Field, seq<byte>)>) {
    if |b| < 4 then Err(MessageTooShort)
    else if U16(b) == 1 then
      if |b| < 8 then Err(MessageTooShort) else Ok((FAddr(b[4..8]), b[8..]))
    else if U16(b) == 2 then
      if |b| < 20 then Err(MessageTooShort) else Ok((FAddr(b[4..20]), b[20..]))
    else Ok((FAddr([]), b[4..]))
  }

  function DecodeName(b: seq<byte>): (r: Result<(Field, seq<byte>)>) {
    if 4 > |b| || |b| < b[0] then Err(MessageTooShort)
    else if b[0] % 4 != 0 || 4 > b[0] || b[0] > 64 then Err(InvalidExtension)
    else Ok((FName(TrimNul(Pad(b[1..b[0]], 63))), b[b[0]..]))
  }

  /** The attribute loop stops early, without an error, when the octets run out. */
  function DecodeFields(b: seq<byte>, attrs: Attrs): (r: Result<seq<Field>>)
    decreases |attrs|
  {
    if |b| == 0 || attrs == [] then Ok([])
    else
      var (f, rest) :- DecodeField(b, attrs[0]);
      var fs :- DecodeFields(rest, attrs[1..]);
      Ok([f] + fs)
  }

  /** The struct with one more value stored in it. */
  function SetField(ifi: Info, f: Field): (r: Info)
    ensures r.cls == ifi.cls && r.typ == ifi.typ && r.iface.Some? == ifi.iface.Some? && r.addr.Some? == ifi.addr.Some?
  {
    match f
    case FIndex(x) => if ifi.iface.Some? then ifi.(iface := Some(ifi.iface.value.(index := x))) else ifi
    case FAddr(ip) => if ifi.addr.Some? then ifi.(addr := Some(ifi.addr.value.(ip := ip))) else ifi
    case FName(s) => if ifi.iface.Some? then ifi.(iface := Some(ifi.iface.value.(name := s))) else ifi
    case FMtu(x) => if ifi.iface.Some? then ifi.(iface := Some(ifi.iface.value.(mtu := x))) else ifi
  }

  function SetFields(ifi: Info, fs: seq<Field>): (r: Info)
    decreases |fs|
  {
    if fs == [] then ifi else SetFields(SetField(ifi, fs[0]), fs[1..])
  }

  /** The struct before any attribute is read: the sub-type decides which parts exist. */
  function Blank(cls: int, typ: int): (r: Info) {
    Info(cls, typ,
         if Has(typ, ATTR_IF_INDEX) || Has(typ, ATTR_NAME) || Has(typ, ATTR_MTU) then Some(NetInterface(0, 0, []))
         else None,
         if Has(typ, ATTR_IP_ADDR) then Some(IPAddress([], [])) else None)
  }

  /** An IPv6 address is given the interface name as its zone. */
  function SetZone(ifi: Info): (r: Info) {
    if ifi.iface.Some? && ifi.iface.value.name != [] && ifi.addr.Some?
       && To16(ifi.addr.value.ip).Some? && To4(ifi.addr.value.ip).None?
    then ifi.(addr := Some(ifi.addr.value.(zone := ifi.iface.value.name)))
    else ifi
  }

  function Decode(b: seq<byte>): (r: Result<Info>)
    requires |b| >= 4
  {
    var fs :- DecodeFields(b[4..], AttrsOf(b[3]));
    Ok(SetZone(SetFields(Blank(b[2], b[3]), fs)))
  }

  method Parse(b: seq<byte>) returns (r: Result<Info>)
    requires |b| >= 4
    ensures r == Decode(b)
  {
    var ifi := Blank(b[2], b[3]);
    var attrs, rest := AttrsOf(ifi.typ), b[4..];
    ghost var all := DecodeFields(rest, attrs);
    while |rest| > 0 && attrs != []
      invariant DecodeFields(rest, attrs).Err? == all.Err?
      invariant all.Err? ==> DecodeFields(rest, attrs) == all
      invariant all.Ok? ==> SetFields(ifi, DecodeFields(rest, attrs).value) == SetFields(Blank(b[2], b[3]), all.value)
      decreases |attrs|
    {
      var next := DecodeField(rest, attrs[0]);
      if next.Err? {
        return Err(next.error);
      }
      ghost var tail := DecodeFields(next.value.1, attrs[1..]);
      assert tail.Ok? ==> ([next.value.0] + tail.value)[1..] == tail.value;
      ifi := SetField(ifi, next.value.0);
      attrs, rest := attrs[1..], next.value.1;
    }
    if ifi.iface.Some? && ifi.iface.value.name != [] && ifi.addr.Some?
       && To16(ifi.addr.value.ip).Some? && To4(ifi.addr.value.ip).None? {
      ifi := ifi.(addr := Some(ifi.addr.value.(zone := ifi.iface.value.name)));
    }
    return Ok(ifi);
  }

  lemma {:induction false} SetFieldsKeepZone(ifi: Info, fs: seq<Field>)
    ensures SetFields(ifi, fs).addr.Some? == ifi.addr.Some?
    ensures ifi.addr.Some? ==> SetFields(ifi, fs).addr.value.zone == ifi.addr.value.zone
    decreases |fs|
  {
    if fs != [] {
      SetFieldsKeepZone(SetField(ifi, fs[0]), fs[1..]);
    }
  }

  /** In any parsed object the zone is the name when there are an IPv6 address and a name, and empty otherwise. */
  lemma ZoneIsNameForIPv6(b: seq<byte>)
    requires |b| >= 4 && Decode(b).Ok? && Decode(b).value.addr.Some?
    ensures var r := Decode(b).value;
            var v6 := |r.addr.value.ip| == 16 && !IsMapped(r.addr.value.ip);
            r.addr.value.zone == if v6 && r.iface.Some? then r.iface.value.name else []
  {
    SetFieldsKeepZone(Blank(b[2], b[3]), DecodeFields(b[4..], AttrsOf(b[3])).value);
  }

  // ----- Round trip -------------------------------------------------------

  /** The values that the wire carries unchanged. */
  predicate Carried(f: Field) {
    match f
    case FIndex(x) => 0 <= x < 0x1_0000_0000
    case FAddr(ip) => |ip| == 4 || |ip| == 16
    case FName(name) => |name| <= 63 && Trimmed(name)
    case FMtu(x) => 0 <= x < 0x1_0000_0000
  }

  lemma IntRoundTrip(x: int, rest: seq<byte>)
    requires 0 <= x < 0x1_0000_0000
    ensures DecodeField(EncodeField(FIndex(x)) + rest, IfIndex) == Ok((FIndex(x), rest))
    ensures DecodeField(EncodeField(FMtu(x)) + rest, Mtu) == Ok((FMtu(x), rest))
  {
    var b := Be32(x);
    assert U32(b) == x by {
      U32Be32(x);
    }
    PrefixDecides(b, rest);
    assert (b + rest)[4..] == rest;
  }

  lemma IPAddrRoundTrip(ip: IP, rest: seq<byte>)
    requires |ip| == 4 || |ip| == 16
    ensures DecodeField(EncodeField(FAddr(ip)) + rest, IPAddr) == Ok((FAddr(ip), rest))
  {
    var b := [0, Afi(ip), 0, 0] + ip + rest;
    assert U16(b) == Afi(ip);
    assert b[4..4 + |ip|] == ip && b[4 + |ip|..] == rest;
  }

  lemma NameRoundTrip(name: seq<byte>, rest: seq<byte>)
    requires |name| <= 63 && Trimmed(name)
    ensures DecodeField(EncodeField(FName(name)) + rest, Name) == Ok((FName(name), rest))
  {
    var l: byte := NameLen(name);
    var padded := Pad(name, l - 1);
    SplitName(l, padded, rest);
    TrimPadded(name, l - 1);
    assert DecodeName([l] + padded + rest) == Ok((FName(name), rest));
  }

  lemma TrimPadded(name: seq<byte>, k: nat)
    requires |name| <= k <= 63 && Trimmed(name)
    ensures TrimNul(Pad(Pad(name, k), 63)) == name
  {
    PadPad(name, k, 63);
    TrimNulPad(name, 63 - |name|);
  }

  lemma PadPad(name: seq<byte>, k: nat, n: nat)
    requires |name| <= k <= n
    ensures Pad(Pad(name, k), n) == name + Zeros(n - |name|)
  {}

  lemma SplitName(l: byte, padded: seq<byte>, rest: seq<byte>)
    requires 4 <= l && |padded| == l - 1
    ensures var b := [l] + padded + rest;
            b[0] == l && b[1..l] == padded && b[l..] == rest
  {}

  /** Reading an attribute undoes writing it, whatever follows. */
  lemma FieldRoundTrip(f: Field, rest: seq<byte>)
    requires Carried(f)
    ensures DecodeField(EncodeField(f) + rest, KindOf(f)) == Ok((f, rest))
  {
    match f
    case FIndex(x) => IntRoundTrip(x, rest);
    case FAddr(ip) => IPAddrRoundTrip(ip, rest);
    case FName(name) => NameRoundTrip(name, rest);
    case FMtu(x) => IntRoundTrip(x, rest);
  }

  function Kinds(fs: seq<Field>): (r: Attrs) {
    if fs == [] then [] else [KindOf(fs[0])] + Kinds(fs[1..])
  }

  lemma DecodeOneMore(b: seq<byte>, attrs: Attrs, f: Field, rest: seq<byte>, fs: seq<Field>)
    requires b != [] && attrs != []
    requires DecodeField(b, attrs[0]) == Ok((f, rest)) && DecodeFields(rest, attrs[1..]) == Ok(fs)
    ensures DecodeFields(b, attrs) == Ok([f] + fs)
  {}

  lemma {:induction false} FieldsRoundTrip(fs: seq<Field>)
    requires forall f :: f in fs ==> Carried(f)
    ensures AllFitting(fs) && DecodeFields(EncodeFields(fs), Kinds(fs)) == Ok(fs)
  {
    assert forall f :: f in fs ==> Carried(f) && Fitting(f);
    if fs != [] {
      var rest := EncodeFields(fs[1..]);
      FieldRoundTrip(fs[0], rest);
      FieldsRoundTrip(fs[1..]);
      assert Kinds(fs) == [KindOf(fs[0])] + Kinds(fs[1..]);
      assert Kinds(fs)[1..] == Kinds(fs[1..]);
      DecodeOneMore(EncodeField(fs[0]) + rest, Kinds(fs), fs[0], rest, fs[1..]);
      assert fs == [fs[0]] + fs[1..];
    }
  }

  // ----- The canonical struct ---------------------------------------------

  /**
   Objects whose encoding a parser reads back: the sub-type's low bits are the computed attribute
   bits, integers have 32 bits, and the name fits and does not start or end with NUL.
   */
  predicate Encodable(ifi: Info, proto: int) {
    && ifi.typ % 16 == Bits(HasIndex(ifi), HasAddr(ifi, proto), HasName(ifi), HasMtu(ifi))
    && (HasIndex(ifi) ==>
          var i := ifi.iface.value;
          i.index < 0x1_0000_0000 && i.mtu < 0x1_0000_0000 && |i.name| <= 63 && Trimmed(i.name))
  }

  /** The struct that a parser builds from the encoding: what the wire does not carry is dropped. */
  function Canonical(ifi: Info, proto: int): (r: Info) {
    var iface :=
      if HasIndex(ifi) then
        Some(NetInterface(ifi.iface.value.index, if HasMtu(ifi) then ifi.iface.value.mtu else 0, ifi.iface.value.name))
      else None;
    var zone := if HasName(ifi) && proto != 1 then ifi.iface.value.name else [];
    Info(CLASS, ifi.typ % 0x100, iface,
         if HasAddr(ifi, proto) then Some(IPAddress(Wire(ifi.addr.value.ip, proto), zone)) else None)
  }

  lemma {:induction false} FieldsCarried(ifi: Info, proto: int, attrs: Attrs)
    requires Encodable(ifi, proto) && AllPresent(ifi, proto, attrs)
    ensures Kinds(Fields(ifi, proto, attrs)) == attrs
    ensures forall f :: f in Fields(ifi, proto, attrs) ==> Carried(f)
  {
    if attrs != [] {
      assert attrs[0] in attrs;
      FieldsCarried(ifi, proto, attrs[1..]);
      assert Fields(ifi, proto, attrs)[1..] == Fields(ifi, proto, attrs[1..]);
      assert Carried(FieldOf(ifi, proto, attrs[0]));
    }
  }

  /** An optional attribute in front is stored first. */
  lemma OptionalSet(ifi: Info, proto: int, has: bool, a: Attr, tail: Attrs, acc: Info)
    requires AllPresent(ifi, proto, tail) && (has ==> Present(ifi, proto, a))
    ensures var attrs := Prepend(has, a, tail);
            AllPresent(ifi, proto, attrs) &&
            SetFields(acc, Fields(ifi, proto, attrs)) ==
            SetFields(if has then SetField(acc, FieldOf(ifi, proto, a)) else acc, Fields(ifi, proto, tail))
  {
    if has {
      assert ([a] + tail)[1..] == tail;
      assert Fields(ifi, proto, [a] + tail)[1..] == Fields(ifi, proto, tail);
    }
  }

  /** Storing all present attributes in a blank struct gives the canonical one. */
  lemma SetAll(ifi: Info, proto: int)
    requires Encodable(ifi, proto)
    ensures SetZone(SetFields(Blank(CLASS, ifi.typ % 0x100), Fields(ifi, proto, AttrsIn(ifi, proto))))
         == Canonical(ifi, proto)
  {
    var d := Prepend(HasMtu(ifi), Mtu, []);
    var c := Prepend(HasName(ifi), Name, d);
    var b := Prepend(HasAddr(ifi, proto), IPAddr, c);
    var i0 := Blank(CLASS, ifi.typ % 0x100);
    var i1 := if HasIndex(ifi) then SetField(i0, FieldOf(ifi, proto, IfIndex)) else i0;
    var i2 := if HasAddr(ifi, proto) then SetField(i1, FieldOf(ifi, proto, IPAddr)) else i1;
    var i3 := if HasName(ifi) then SetField(i2, FieldOf(ifi, proto, Name)) else i2;
    OptionalSet(ifi, proto, HasMtu(ifi), Mtu, [], i3);
    OptionalSet(ifi, proto, HasName(ifi), Name, d, i2);
    OptionalSet(ifi, proto, HasAddr(ifi, proto), IPAddr, c, i1);
    OptionalSet(ifi, proto, HasIndex(ifi), IfIndex, b, i0);
    BlankOf(ifi, proto);
  }

  lemma BlankOf(ifi: Info, proto: int)
    requires Encodable(ifi, proto)
    ensures Blank(CLASS, ifi.typ % 0x100)
         == Info(CLASS, ifi.typ % 0x100, if HasIndex(ifi) then Some(NetInterface(0, 0, [])) else None,
                 if HasAddr(ifi, proto) then Some(IPAddress([], [])) else None)
    ensures AttrsOf(ifi.typ % 0x100) == AttrsIn(ifi, proto)
  {
    LowNibble(ifi.typ);
    AttrsOfBits(HasIndex(ifi), HasAddr(ifi, proto), HasName(ifi), HasMtu(ifi), ifi.typ % 0x100);
    HasOfBits(HasIndex(ifi), HasAddr(ifi, proto), HasName(ifi), HasMtu(ifi), ifi.typ % 0x100);
  }

  /**
   Every attribute combination comes back: parsing a marshalled object restores the canonical
   struct, in which the zone is the name exactly when an IPv6 address and a name are present.
   */
  lemma RoundTrip(ifi: Info, proto: int)
    requires Encodable(ifi, proto)
    ensures Decode(Encode(ifi, proto)) == Ok(Canonical(ifi, proto))
  {
    var attrs := AttrsIn(ifi, proto);
    var fs := Fields(ifi, proto, attrs);
    FieldsFit(ifi, proto, attrs);
    FieldsCarried(ifi, proto, attrs);
    FieldsRoundTrip(fs);
    BlankOf(ifi, proto);
    SetAll(ifi, proto);
    var e := Encode(ifi, proto);
    assert e[4..] == EncodeFields(fs);
    assert e[2] == CLASS && e[3] == ifi.typ % 0x100;
  }

  /** The parsed struct is marshalled to the octets it was parsed from. */
  lemma CanonicalEncodes(ifi: Info, proto: int)
    requires Encodable(ifi, proto)
    ensures Encodable(Canonical(ifi, proto), proto)
    ensures Encode(Canonical(ifi, proto), proto) == Encode(ifi, proto)
  {
    var c := Canonical(ifi, proto);
    if HasAddr(ifi, proto) {
      WireIsNative(ifi, proto);
    }
    SameAttributes(ifi, proto);
    LowNibble(ifi.typ);
    forall a | a in AttrsIn(ifi, proto)
      ensures FieldOf(ifi, proto, a) == FieldOf(c, proto, a)
    {
    }
    SameFields(ifi, c, proto, AttrsIn(ifi, proto));
    LenBySum(ifi, proto);
    LenBySum(c, proto);
  }

  lemma LowNibble(typ: int)
    ensures typ % 0x100 % 16 == typ % 16 && typ % 0x100 % 0x100 == typ % 0x100
  {
    assert typ == 16 * (16 * (typ / 0x100)) + typ % 0x100;
  }

  lemma SameAttributes(ifi: Info, proto: int)
    ensures var c := Canonical(ifi, proto);
            HasIndex(c) == HasIndex(ifi) && HasName(c) == HasName(ifi) && HasMtu(c) == HasMtu(ifi)
            && HasAddr(c, proto) == HasAddr(ifi, proto)
  {}

  lemma WireIsNative(ifi: Info, proto: int)
    requires HasAddr(ifi, proto)
    ensures Native(Wire(ifi.addr.value.ip, proto), proto)
    ensures Wire(Wire(ifi.addr.value.ip, proto), proto) == Wire(ifi.addr.value.ip, proto)
  {}

  lemma {:induction false} SameFields(x: Info, y: Info, proto: int, attrs: Attrs)
    requires AllPresent(x, proto, attrs) && AllPresent(y, proto, attrs)
    requires forall a :: a in attrs ==> FieldOf(x, proto, a) == FieldOf(y, proto, a)
    ensures Fields(x, proto, attrs) == Fields(y, proto, attrs)
  {
    if attrs != [] {
      SameFields(x, y, proto, attrs[1..]);
    }
  }

  /** A struct that the wire carries completely. */
  predicate WellFormed(ifi: Info, proto: int) {
    && Encodable(ifi, proto) && ifi.cls == CLASS && 0 <= ifi.typ < 0x100
    && (ifi.iface.Some? ==> ifi.iface.value.index > 0 && ifi.iface.value.mtu >= 0)
    && (ifi.addr.Some? ==>
          && (if proto == 1 then |ifi.addr.value.ip| == 4
              else proto == 58 && |ifi.addr.value.ip| == 16 && !IsMapped(ifi.addr.value.ip))
          && ifi.addr.value.zone == if proto == 58 && ifi.iface.Some? then ifi.iface.value.name else [])
  }

  /** Such a struct is canonical. */
  lemma WellFormedIsCanonical(ifi: Info, proto: int)
    requires WellFormed(ifi, proto)
    ensures Canonical(ifi, proto) == ifi
  {}

  lemma CanonicalWellFormed(ifi: Info, proto: int)
    requires Encodable(ifi, proto)
    ensures WellFormed(Canonical(ifi, proto), proto)
  {
    CanonicalEncodes(ifi, proto);
    if HasAddr(ifi, proto) {
      WireIsNative(ifi, proto);
    }
  }

  /** Parsing the encoding of a well-formed struct gives the very same struct. */
  lemma WellFormedRoundTrip(ifi: Info, proto: int)
    requires WellFormed(ifi, proto)
    ensures Decode(Encode(ifi, proto)) == Ok(ifi)
  {
    WellFormedIsCanonical(ifi, proto);
    RoundTrip(ifi, proto);
  }
}
