/**
 Message bodies without extensions (icmp/echo.go, icmp/timestamp.go, icmp/packettoobig.go).
 They are modelled so that a whole message can be parsed whatever its type.
 */
module FixedBodies {
  import opened Bytes
  import opened Wrappers

  datatype Fixed =
    | Echo(id: int, seqNo: int, data: seq<byte>)
    | ExtendedEchoReply(id: int, seqNo: int, state: int, active: bool, v4: bool, v6: bool)
    | Timestamp(id: int, seqNo: int, originate: int, receive: int, transmit: int)
    | PacketTooBig(mtu: int, data: seq<byte>)

  datatype Layout = EchoLayout | ReplyLayout | TimestampLayout | TooBigLayout

  function LayoutOf(f: Fixed): (r: Layout) {
    match f
    case Echo(_, _, _) => EchoLayout
    case ExtendedEchoReply(_, _, _, _, _, _) => ReplyLayout
    case Timestamp(_, _, _, _, _) => TimestampLayout
    case PacketTooBig(_, _) => TooBigLayout
  }

  function Bit(b: bool): (r: nat)
    ensures r <= 1
  {
    if b then 1 else 0
  }

  function Flags(state: int, active: bool, v4: bool, v6: bool): (r: byte) {
    state % 8 * 32 + Bit(active) * 4 + Bit(v4) * 2 + Bit(v6)
  }

  function Encode(f: Fixed): (r: seq<byte>)
    ensures |r| >= 4
  {
    match f
    case Echo(id, seqNo, data) => Be16(id) + Be16(seqNo) + data
    case ExtendedEchoReply(id, seqNo, state, active, v4, v6) => Be16(id) + [Low8(seqNo), Flags(state, active, v4, v6)]
    case Timestamp(id, seqNo, originate, receive, transmit) =>
      Be16(id) + Be16(seqNo) + Be32(originate) + Be32(receive) + Be32(transmit)
    case PacketTooBig(mtu, data) => Be32(mtu) + data
  }

  method Marshal(f: Fixed) returns (r: seq<byte>)
    ensures r == Encode(f)
  {
    match f
    case Echo(id, seqNo, data) =>
      var b := Make(4 + |data|);
      Store(b, 0, Be16(id));
      Store(b, 2, Be16(seqNo));
      Copy(b, 4, data);
      r := b[..];
    case ExtendedEchoReply(id, seqNo, state, active, v4, v6) =>
      var b := Make(4);
      Store(b, 0, Be16(id));
      b[2] := Low8(seqNo);
      var flags := Low8(state * 32) / 32 * 32;
      StateBits(state);
      flags := flags + Bit(active) * 4;
      flags := flags + Bit(v4) * 2;
      b[3] := flags + Bit(v6);
      r := b[..];
    case Timestamp(_, _, _, _, _) => r := MarshalTimestamp(f);
    case PacketTooBig(mtu, data) =>
      var b := Make(4 + |data|);
      Store(b, 0, Be32(mtu));
      Copy(b, 4, data);
      r := b[..];
  }

  method MarshalTimestamp(f: Fixed) returns (r: seq<byte>)
    requires f.Timestamp?
    ensures r == Encode(f)
  {
    var b := Make(16);
    Store(b, 0, Be16(f.id));
    Store(b, 2, Be16(f.seqNo));
    Store(b, 4, Be32(f.originate));
    Store(b, 8, Be32(f.receive));
    Store(b, 12, Be32(f.transmit));
    r := b[..];
  }

  /** `byte(state<<5) & 0xe0` keeps the low three bits of the state. */
  lemma StateBits(state: int)
    ensures Low8(state * 32) / 32 * 32 == state % 8 * 32
  {
    var q, r := state / 8, state % 8;
    assert state * 32 == 0x100 * q + 32 * r;
    Low8Shift(q, 32 * r);
  }

  function Decode(layout: Layout, b: seq<byte>): (r: Result<Fixed>) {
    if |b| < 4 || (layout == TimestampLayout && |b| < 16) then Err(MessageTooShort)
    else match layout
      case EchoLayout => Ok(Echo(U16(b), U16(b[2..]), b[4..]))
      case ReplyLayout =>
        Ok(ExtendedEchoReply(U16(b), b[2], b[3] / 32, b[3] / 4 % 2 == 1, b[3] / 2 % 2 == 1, b[3] % 2 == 1))
      case TimestampLayout => Ok(Timestamp(U16(b), U16(b[2..]), U32(b[4..]), U32(b[8..]), U32(b[12..])))
      case TooBigLayout => Ok(PacketTooBig(U32(b), b[4..]))
  }

  /** The integers cut to the widths of their fields. */
  function Canonical(f: Fixed): (r: Fixed) {
    match f
    case Echo(id, seqNo, data) => Echo(id % 0x1_0000, seqNo % 0x1_0000, data)
    case ExtendedEchoReply(id, seqNo, state, active, v4, v6) =>
      ExtendedEchoReply(id % 0x1_0000, seqNo % 0x100, state % 8, active, v4, v6)
    case Timestamp(id, seqNo, o, r, t) =>
      Timestamp(id % 0x1_0000, seqNo % 0x1_0000, o % 0x1_0000_0000, r % 0x1_0000_0000, t % 0x1_0000_0000)
    case PacketTooBig(mtu, data) => PacketTooBig(mtu % 0x1_0000_0000, data)
  }

  lemma Read16(x: int, rest: seq<byte>)
    ensures U16(Be16(x) + rest) == x % 0x1_0000
    ensures (Be16(x) + rest)[2..] == rest
  {
    U16Be16(x);
    PrefixDecides(Be16(x), rest);
  }

  lemma Read32(x: int, rest: seq<byte>)
    ensures U32(Be32(x) + rest) == x % 0x1_0000_0000
    ensures (Be32(x) + rest)[4..] == rest
  {
    U32Be32(x);
    PrefixDecides(Be32(x), rest);
  }

  lemma FlagsRead(state: int, active: bool, v4: bool, v6: bool)
    ensures var b := Flags(state, active, v4, v6);
            b / 32 == state % 8 && (b / 4 % 2 == 1 <==> active) && (b / 2 % 2 == 1 <==> v4) && (b % 2 == 1 <==> v6)
  {}

  lemma EchoRoundTrip(id: int, seqNo: int, data: seq<byte>)
    ensures Decode(EchoLayout, Be16(id) + Be16(seqNo) + data) == Ok(Echo(id % 0x1_0000, seqNo % 0x1_0000, data))
  {
    var b := Be16(id) + Be16(seqNo) + data;
    assert b == Be16(id) + (Be16(seqNo) + data);
    Read16(id, Be16(seqNo) + data);
    Read16(seqNo, data);
    assert b[4..] == data;
  }

  lemma TimestampFields(b: seq<byte>, id: int, seqNo: int, o: int, r: int, t: int)
    requires b == Be16(id) + Be16(seqNo) + Be32(o) + Be32(r) + Be32(t)
    ensures U16(b) == id % 0x1_0000 && U16(b[2..]) == seqNo % 0x1_0000
    ensures U32(b[4..]) == o % 0x1_0000_0000 && U32(b[8..]) == r % 0x1_0000_0000 && U32(b[12..]) == t % 0x1_0000_0000
  {
    FieldsAt(b, Be16(id), Be16(seqNo), Be32(o), Be32(r), Be32(t));
    Read16(id, b[2..]);
    Read16(seqNo, b[4..]);
    Read32(o, b[8..]);
    Read32(r, b[12..]);
    U32Be32(t);
  }

  lemma FieldsAt(b: seq<byte>, i: seq<byte>, s: seq<byte>, o: seq<byte>, r: seq<byte>, t: seq<byte>)
    requires |i| == |s| == 2 && |o| == |r| == |t| == 4 && b == i + s + o + r + t
    ensures b == i + b[2..] && b[2..] == s + b[4..] && b[4..] == o + b[8..] && b[8..] == r + b[12..] && b[12..] == t
  {}

  /** Every such body comes back, its integers cut to their fields. */
  lemma RoundTrip(f: Fixed)
    ensures Decode(LayoutOf(f), Encode(f)) == Ok(Canonical(f))
  {
    match f
    case Echo(id, seqNo, data) => EchoRoundTrip(id, seqNo, data);
    case ExtendedEchoReply(id, seqNo, state, active, v4, v6) =>
      Read16(id, [Low8(seqNo), Flags(state, active, v4, v6)]);
      FlagsRead(state, active, v4, v6);
    case Timestamp(id, seqNo, o, r, t) => TimestampFields(Encode(f), id, seqNo, o, r, t);
    case PacketTooBig(mtu, data) => Read32(mtu, data);
  }

  lemma CanonicalEncodes(f: Fixed)
    ensures Encode(Canonical(f)) == Encode(f)
  {
    match f
    case Echo(id, seqNo, _) => Be16Low(id); Be16Low(seqNo);
    case ExtendedEchoReply(id, _, _, _, _, _) => Be16Low(id);
    case Timestamp(id, seqNo, o, r, t) =>
      Be16Low(id);
      Be16Low(seqNo);
      Be32Low(o);
      Be32Low(r);
      Be32Low(t);
    case PacketTooBig(mtu, _) => Be32Low(mtu);
  }
}
