/** MPLS label stack objects (icmp/mpls.go); entry layout of RFC 3032, section 2.1. */
module Mpls {
  import opened Bytes

  datatype Label = Label(value: int, tc: int, s: bool, ttl: int)

  datatype LabelStack = LabelStack(cls: int, typ: int, labels: seq<Label>)

  const CLASS := 1
  const TYPE_INCOMING := 1

  function Len(ls: LabelStack): (r: nat) {
    4 + 4 * |ls.labels|
  }

  /** One entry: label 20 bits, traffic class 3 bits, bottom of stack 1 bit, time to live 8 bits. */
  function EncodeLabel(l: Label): (r: seq<byte>)
    ensures |r| == 4
  {
    [Low8(l.value / 0x1000),
     Low8(l.value / 0x10),
     l.value % 0x10 * 0x10 + l.tc % 8 * 2 + if l.s then 1 else 0,
     Low8(l.ttl)]
  }

  function DecodeLabel(b: seq<byte>): (r: Label)
    requires |b| >= 4
  {
    Label(b[0] as int * 0x1000 + b[1] as int * 0x10 + b[2] / 0x10, b[2] % 0x10 / 2, b[2] % 2 == 1, b[3])
  }

  function EncodeLabels(ls: seq<Label>): (r: seq<byte>)
    ensures |r| == 4 * |ls|
  {
    if ls == [] then [] else EncodeLabel(ls[0]) + EncodeLabels(ls[1..])
  }

  function DecodeLabels(b: seq<byte>): (r: seq<Label>) {
    if |b| < 4 then [] else [DecodeLabel(b)] + DecodeLabels(b[4..])
  }

  /** The object on the wire; class and sub-type are fixed whatever the struct holds. */
  function Encode(ls: LabelStack): (r: seq<byte>)
    ensures |r| == Len(ls)
  {
    ObjectHeader(Len(ls), CLASS, TYPE_INCOMING) + EncodeLabels(ls.labels)
  }

  function Decode(b: seq<byte>): (r: LabelStack)
    requires |b| >= 4
  {
    LabelStack(b[2], b[3], DecodeLabels(b[4..]))
  }

  /** Each field cut to its width. */
  function CanonicalLabel(l: Label): (r: Label) {
    Label(l.value % 0x10_0000, l.tc % 8, l.s, l.ttl % 0x100)
  }

  function CanonicalLabels(ls: seq<Label>): (r: seq<Label>)
    ensures |r| == |ls|
  {
    seq(|ls|, i requires 0 <= i < |ls| => CanonicalLabel(ls[i]))
  }

  function Canonical(ls: LabelStack): (r: LabelStack) {
    LabelStack(CLASS, TYPE_INCOMING, CanonicalLabels(ls.labels))
  }

  /** The three pieces of a label value make up its low twenty bits. */
  lemma JoinValue(v: int)
    ensures Low8(v / 0x1000) as int * 0x1000 + Low8(v / 0x10) as int * 0x10 + v % 0x10 == v % 0x10_0000
  {
    var a := v / 0x10;
    var c := a / 0x100;
    assert c == v / 0x1000;
    assert v == 0x10 * a + v % 0x10;
    assert a == 0x100 * c + Low8(a);
    assert c == 0x100 * (c / 0x100) + Low8(c);
    assert v == 0x10_0000 * (c / 0x100) + (Low8(c) as int * 0x1000 + Low8(a) as int * 0x10 + v % 0x10);
  }

  lemma SplitThirdOctet(h: int, t: int, s: bool, x: int)
    requires 0 <= h < 0x10 && 0 <= t < 8
    requires x == h * 0x10 + t * 2 + if s then 1 else 0
    ensures x / 0x10 == h && x % 0x10 / 2 == t && (x % 2 == 1 <==> s)
  {}

  /** The four fields share no bit: decoding an entry gives each field cut to its width. */
  lemma LabelRoundTrip(l: Label)
    ensures DecodeLabel(EncodeLabel(l)) == CanonicalLabel(l)
  {
    JoinValue(l.value);
    SplitThirdOctet(l.value % 0x10, l.tc % 8, l.s, EncodeLabel(l)[2]);
  }

  /** The three octets of the label value depend on its low twenty bits only. */
  lemma LowTwentyBits(v: int)
    ensures Low8(v % 0x10_0000 / 0x1000) == Low8(v / 0x1000)
    ensures Low8(v % 0x10_0000 / 0x10) == Low8(v / 0x10)
    ensures v % 0x10_0000 % 0x10 == v % 0x10
  {
    var q, r := v / 0x10_0000, v % 0x10_0000;
    assert v / 0x1000 == 0x100 * q + r / 0x1000;
    Low8Shift(q, r / 0x1000);
    assert v / 0x10 == 0x100 * (0x100 * q) + r / 0x10;
    Low8Shift(0x100 * q, r / 0x10);
    LowNibble(0x1_0000 * q, r);
  }

  lemma LowNibble(m: int, r: int)
    ensures (0x10 * m + r) % 0x10 == r % 0x10
  {}

  /** A cut entry is encoded as the entry it came from. */
  lemma CanonicalLabelEncodes(l: Label)
    ensures EncodeLabel(CanonicalLabel(l)) == EncodeLabel(l)
  {
    var c := CanonicalLabel(l);
    LowTwentyBits(l.value);
    assert c.tc % 8 == l.tc % 8 && Low8(c.ttl) == Low8(l.ttl);
    assert EncodeLabel(c)[2] == EncodeLabel(l)[2];
  }

  lemma {:induction false} LabelsRoundTrip(ls: seq<Label>)
    ensures DecodeLabels(EncodeLabels(ls)) == CanonicalLabels(ls)
  {
    if ls != [] {
      assert EncodeLabels(ls)[4..] == EncodeLabels(ls[1..]);
      assert DecodeLabel(EncodeLabels(ls)) == DecodeLabel(EncodeLabel(ls[0]));
      LabelRoundTrip(ls[0]);
      LabelsRoundTrip(ls[1..]);
      assert CanonicalLabels(ls) == [CanonicalLabel(ls[0])] + CanonicalLabels(ls[1..]);
    } else {
      assert CanonicalLabels(ls) == [];
    }
  }

  /** A label stack of any length comes back with every field cut to its width. */
  lemma RoundTrip(ls: LabelStack)
    ensures Decode(Encode(ls)) == Canonical(ls)
  {
    assert Encode(ls)[4..] == EncodeLabels(ls.labels);
    LabelsRoundTrip(ls.labels);
  }

  lemma {:induction false} CanonicalLabelsEncode(ls: seq<Label>)
    ensures EncodeLabels(CanonicalLabels(ls)) == EncodeLabels(ls)
  {
    if ls != [] {
      CanonicalLabelEncodes(ls[0]);
      CanonicalLabelsEncode(ls[1..]);
      assert CanonicalLabels(ls)[1..] == CanonicalLabels(ls[1..]);
    }
  }

  /** What was decoded is encoded to the same octets, out-of-range fields included. */
  lemma CanonicalEncodes(ls: LabelStack)
    ensures Encode(Canonical(ls)) == Encode(ls)
  {
    CanonicalLabelsEncode(ls.labels);
  }

  /** A stack that the wire carries completely. */
  predicate WellFormed(ls: LabelStack) {
    && ls.cls == CLASS && ls.typ == TYPE_INCOMING && Len(ls) < 0x1_0000
    && forall l :: l in ls.labels ==> 0 <= l.value < 0x10_0000 && 0 <= l.tc < 8 && 0 <= l.ttl < 0x100
  }

  lemma WellFormedIsCanonical(ls: LabelStack)
    requires WellFormed(ls)
    ensures Canonical(ls) == ls
  {
    forall i | 0 <= i < |ls.labels| ensures CanonicalLabels(ls.labels)[i] == ls.labels[i] {
      assert ls.labels[i] in ls.labels;
    }
  }

  lemma CanonicalWellFormed(ls: LabelStack)
    requires Len(ls) < 0x1_0000
    ensures WellFormed(Canonical(ls))
  {}

  lemma {:induction false} EncodeLabelsSnoc(ls: seq<Label>, l: Label)
    ensures EncodeLabels(ls + [l]) == EncodeLabels(ls) + EncodeLabel(l)
  {
    if ls == [] {
      assert ls + [l] == [l];
    } else {
      EncodeLabelsSnoc(ls[1..], l);
      assert (ls + [l])[1..] == ls[1..] + [l];
    }
  }

  /** Marshals `ls` into `b[start..]`. */
  method Marshal(ls: LabelStack, b: array<byte>, start: nat)
    requires start + Len(ls) <= b.Length
    modifies b
    ensures b[..] == Write(old(b[..]), start, Encode(ls))
  {
    ghost var before := b[..];
    ghost var head := ObjectHeader(Len(ls), CLASS, TYPE_INCOMING);
    StoreHeader(b, start, Len(ls), CLASS, TYPE_INCOMING);
    var off := start + 4;
    assert head + EncodeLabels(ls.labels[..0]) == head;
    for n := 0 to |ls.labels|
      invariant off == start + 4 + 4 * n
      invariant b[..] == Write(before, start, head + EncodeLabels(ls.labels[..n]))
    {
      MarshalLabel(ls.labels[n], b, off);
      WriteAppend(before, start, head + EncodeLabels(ls.labels[..n]), off, EncodeLabel(ls.labels[n]));
      off := off + 4;
      assert ls.labels[..n + 1] == ls.labels[..n] + [ls.labels[n]];
      EncodeLabelsSnoc(ls.labels[..n], ls.labels[n]);
      assert head + EncodeLabels(ls.labels[..n + 1])
          == head + EncodeLabels(ls.labels[..n]) + EncodeLabel(ls.labels[n]);
    }
    assert ls.labels[..|ls.labels|] == ls.labels;
  }

  /** The body of the loop over the entries. */
  method MarshalLabel(ll: Label, b: array<byte>, off: nat)
    requires off + 4 <= b.Length
    modifies b
    ensures b[..] == Write(old(b[..]), off, EncodeLabel(ll))
  {
    b[off], b[off + 1], b[off + 2] := Low8(ll.value / 0x1000), Low8(ll.value / 0x10), ll.value % 0x10 * 0x10;
    // The low four bits are still clear, so each `|=` is an addition.
    b[off + 2] := b[off + 2] + ll.tc % 8 * 2;
    if ll.s {
      b[off + 2] := b[off + 2] + 1;
    }
    b[off + 3] := Low8(ll.ttl);
  }

  /** Parses one whole object. */
  method Parse(b: seq<byte>) returns (ls: LabelStack)
    requires |b| >= 4
    ensures ls == Decode(b)
  {
    ls := LabelStack(b[2], b[3], []);
    var rest := b[4..];
    while |rest| >= 4
      invariant ls.cls == b[2] && ls.typ == b[3]
      invariant ls.labels + DecodeLabels(rest) == DecodeLabels(b[4..])
    {
      var ll := Label(rest[0] as int * 0x1000 + rest[1] as int * 0x10 + rest[2] / 0x10,
                      rest[2] % 0x10 / 2, false, rest[3]);
      if rest[2] % 2 != 0 {
        ll := ll.(s := true);
      }
      assert ll == DecodeLabel(rest);
      ls := ls.(labels := ls.labels + [ll]);
      rest := rest[4..];
    }
  }
}
