/**
 The Internet checksum as icmp/message.go computes it: a uint32 sum of little-endian
 words, two folds, and a complement. The reference is RFC 1071, section 1: one's-complement
 addition of big-endian words.
 */
module Checksum {
  import opened Bytes

  /** The exact sum of the little-endian 16-bit words of `b`, an odd last octet counted as it is. */
  function WordSum(b: seq<byte>): (r: nat) {
    if |b| == 0 then 0
    else if |b| == 1 then b[0]
    else Word(b[1], b[0]) + WordSum(b[2..])
  }

  /** The two folds and the complement applied to the 32-bit accumulator. */
  function FoldTwice(s: uint32): (r: uint16) {
    var t := s / 0x1_0000 + s % 0x1_0000;
    var u := t + t / 0x1_0000;
    0xffff - u % 0x1_0000
  }

  /** The value returned by `checksum`; the accumulator wraps at 32 bits. */
  function Sum(b: seq<byte>): (r: uint16) {
    FoldTwice(WordSum(b) % 0x1_0000_0000)
  }

  /** The largest buffer whose words cannot overflow the accumulator: 65537 words. */
  const MAX_COVERAGE := 131074

  /** Go's `x + y` on uint32. */
  function Add32(x: uint32, y: uint32): (r: uint32)
    ensures r == (x + y) % 0x1_0000_0000
    ensures r + 0x1_0000_0000 * Carry(x, y) == x + y
  {
    if x as int + y < 0x1_0000_0000 then x + y else x + y - 0x1_0000_0000
  }

  /** Whether the addition wraps. */
  function Carry(x: uint32, y: uint32): (r: nat) {
    if x as int + y < 0x1_0000_0000 then 0 else 1
  }

  lemma FirstWord(b: seq<byte>, i: nat)
    requires i + 1 < |b|
    ensures WordSum(b[i..]) == Word(b[i + 1], b[i]) + WordSum(b[i + 2..])
  {
    assert b[i..][2..] == b[i + 2..];
  }

  method Compute(b: seq<byte>) returns (c: uint16)
    ensures c == Sum(b)
  {
    var csumcv := |b| - 1;
    var s: uint32 := 0;
    var i := 0;
    ghost var words, wraps := 0, 0;
    while i < csumcv
      invariant i == 2 * words <= |b|
      invariant s + 0x1_0000_0000 * wraps + WordSum(b[i..]) == WordSum(b)
    {
      var w := Word(b[i + 1], b[i]);
      FirstWord(b, i);
      wraps := wraps + Carry(s, w);
      s := Add32(s, w);
      i, words := i + 2, words + 1;
    }
    LastWord(b, i, words);
    if csumcv % 2 == 0 {
      wraps := wraps + Carry(s, b[csumcv]);
      s := Add32(s, b[csumcv]);
    }
    Unwrap(s, wraps, WordSum(b));
    c := Fold(s);
  }

  /** What the loop leaves: an odd last octet, or nothing. */
  lemma LastWord(b: seq<byte>, i: nat, words: nat)
    requires i == 2 * words && |b| - 1 <= i <= |b|
    ensures if (|b| - 1) % 2 == 0 then i == |b| - 1 && WordSum(b[i..]) == b[i] else WordSum(b[i..]) == 0
  {}

  lemma Unwrap(s: uint32, wraps: int, total: nat)
    requires s + 0x1_0000_0000 * wraps == total
    ensures s == total % 0x1_0000_0000
  {}

  method Fold(sum: uint32) returns (c: uint16)
    ensures c == FoldTwice(sum)
  {
    var s := sum;
    s := s / 0x1_0000 + s % 0x1_0000;
    s := s + s / 0x1_0000;
    c := 0xffff - s % 0x1_0000;
  }

  /** The word sum of a buffer of n words is at most 65535 n. */
  lemma {:induction false} WordSumBound(b: seq<byte>)
    ensures WordSum(b) <= 0xffff * ((|b| + 1) / 2)
  {
    if |b| >= 2 {
      WordSumBound(b[2..]);
    }
  }

  /** No 32-bit overflow up to MAX_COVERAGE octets. */
  lemma NoOverflow(b: seq<byte>)
    requires |b| <= MAX_COVERAGE
    ensures WordSum(b) < 0x1_0000_0000
  {
    WordSumBound(b);
  }

  /** A non-zero sum folds to the representative in 1..65535 of its class modulo 65535. */
  function Reduce(s: nat): (r: uint16) {
    if s == 0 then 0 else (s - 1) % 0xffff + 1
  }

  /** Two folds are enough: they reduce any 32-bit sum modulo 65535. */
  lemma TwoFoldsSuffice(s: uint32)
    ensures FoldTwice(s) == 0xffff - Reduce(s)
  {
    var h, l := s / 0x1_0000, s % 0x1_0000;
    assert s == 0xffff * h + (h + l);
  }

  /** A sum reduces to 65535 exactly when it is a non-zero multiple of 65535. */
  lemma ReduceAllOnes(s: nat)
    ensures Reduce(s) == 0xffff <==> s != 0 && s % 0xffff == 0
  {
    if s != 0 {
      var q, r := (s - 1) / 0xffff, (s - 1) % 0xffff;
      assert s == 0xffff * q + (r + 1);
    }
  }

  /** Within the bound, the checksum is the complement of the reduced word sum. */
  lemma SumIsReduced(b: seq<byte>)
    requires |b| <= MAX_COVERAGE
    ensures Sum(b) == 0xffff - Reduce(WordSum(b))
  {
    NoOverflow(b);
    var s := WordSum(b);
    assert s % 0x1_0000_0000 == s;
    TwoFoldsSuffice(s);
  }

  /** What the 32-bit accumulator holds in the end. */
  function Accumulated(b: seq<byte>): (r: uint32) {
    WordSum(b) % 0x1_0000_0000
  }

  /** For any length the checksum is zero exactly when the accumulator ends at a non-zero multiple of 65535. */
  lemma SumZeroIff(b: seq<byte>)
    ensures Sum(b) == 0 <==> Accumulated(b) != 0 && Accumulated(b) % 0xffff == 0
  {
    TwoFoldsSuffice(Accumulated(b));
    ReduceAllOnes(Accumulated(b));
  }

  // ----- RFC 1071 ---------------------------------------------------------

  /** One's-complement addition: the carry out of bit 15 comes back into bit 0. */
  function OnesAdd(x: uint16, y: uint16): (r: uint16) {
    if x + y < 0x1_0000 then x + y else x + y - 0xffff
  }

  /** The one's-complement sum of the big-endian words, an odd last octet padded with a zero octet. */
  function OnesSum(b: seq<byte>): (r: uint16) {
    if |b| == 0 then 0
    else if |b| == 1 then Word(b[0], 0)
    else OnesAdd(Word(b[0], b[1]), OnesSum(b[2..]))
  }

  function Rfc1071(b: seq<byte>): (r: uint16) {
    0xffff - OnesSum(b)
  }

  function ByteSwap(x: uint16): (r: uint16) {
    0x100 * (x % 0x100) + x / 0x100
  }

  /** The one's-complement sum is the byte swap of the folded little-endian sum. */
  lemma {:induction false} OnesSumIsSwappedSum(b: seq<byte>)
    ensures OnesSum(b) == ByteSwap(Reduce(WordSum(b)))
  {
    if |b| >= 2 {
      OnesSumIsSwappedSum(b[2..]);
      SwapAdd(Word(b[1], b[0]), WordSum(b[2..]));
      SwapWord(b[1], b[0]);
    } else if |b| == 1 {
      SwapWord(0, b[0]);
    }
  }

  lemma SwapWord(hi: byte, lo: byte)
    ensures ByteSwap(Word(hi, lo)) == Word(lo, hi)
    ensures Reduce(Word(hi, lo)) == Word(hi, lo)
  {}

  lemma SwapAdd(w: uint16, s: nat)
    ensures OnesAdd(ByteSwap(w), ByteSwap(Reduce(s))) == ByteSwap(Reduce(w + s))
  {
    ReduceAdd(w, s);
    SwapOnesAdd(w, Reduce(s));
  }

  lemma ReduceAdd(w: uint16, s: nat)
    ensures Reduce(w + s) == OnesAdd(w, Reduce(s))
  {}

  lemma SwapOnesAdd(x: uint16, y: uint16)
    ensures OnesAdd(ByteSwap(x), ByteSwap(y)) == ByteSwap(OnesAdd(x, y))
  {
    var z, p, q := OnesAdd(x, y), ByteSwap(x), ByteSwap(y);
    SwapTimes256(x);
    SwapTimes256(y);
    SwapTimes256(z);
    var carry: int := if x + y == z then 0 else 1;
    var carry': int := if p as int + q < 0x1_0000 then 0 else 1;
    SameResidue(OnesAdd(p, q), ByteSwap(z), z / 0x100 - x / 0x100 - y / 0x100 + 0x100 * carry - carry');
  }

  /** Congruent 16-bit values are equal unless one of them is the other zero. */
  lemma SameResidue(a: uint16, b: uint16, k: int)
    requires a - b == 0xffff * k
    requires a == 0 <==> b == 0
    ensures a == b
  {}

  /** Swapping octets multiplies by 256 modulo 65535. */
  lemma SwapTimes256(x: uint16)
    ensures 0x100 * x - ByteSwap(x) == 0xffff * (x / 0x100)
    ensures ByteSwap(x) == 0 <==> x == 0
  {}

  /**
   Up to MAX_COVERAGE octets, odd lengths included, the code's checksum is the byte swap of the
   RFC 1071 checksum, so storing it low octet first puts the RFC's value on the wire.
   */
  lemma SumIsRfc1071(b: seq<byte>)
    requires |b| <= MAX_COVERAGE
    ensures Sum(b) == ByteSwap(Rfc1071(b))
    ensures [Low8(Sum(b)), Low8(Sum(b) / 0x100)] == Be16(Rfc1071(b))
  {
    var x := Reduce(WordSum(b));
    assert Sum(b) == 0xffff - x by {
      SumIsReduced(b);
    }
    assert Rfc1071(b) == 0xffff - ByteSwap(x) by {
      OnesSumIsSwappedSum(b);
    }
    SwapComplement(x, Sum(b), Rfc1071(b));
  }

  lemma SwapComplement(x: uint16, c: uint16, rfc: uint16)
    requires c == 0xffff - x && rfc == 0xffff - ByteSwap(x)
    ensures c == ByteSwap(rfc)
    ensures [Low8(c), Low8(c / 0x100)] == Be16(rfc)
  {
    var h, l := x / 0x100, x % 0x100;
    Octets(c, 0xff - h, 0xff - l);
    Octets(rfc, 0xff - l, 0xff - h);
  }

  lemma Octets(x: uint16, h: byte, l: byte)
    requires x == 0x100 * h as int + l
    ensures x / 0x100 == h && x % 0x100 == l && Low8(x) == l && Low8(x / 0x100) == h
  {}

  // ----- The bound is sharp -----------------------------------------------

  /** Two sums reduce alike exactly when they are congruent modulo 65535 and agree on being zero. */
  lemma ReduceAlike(s: nat, t: nat, k: int, r: int)
    requires s - t == 0xffff * k + r && 0 <= r < 0xffff
    ensures Reduce(s) == Reduce(t) <==> r == 0 && (s == 0 <==> t == 0)
  {
    if s != 0 && t != 0 {
      var a, b := (s - 1) / 0xffff, (t - 1) / 0xffff;
      assert s - 1 == 0xffff * a + (Reduce(s) - 1);
      assert t - 1 == 0xffff * b + (Reduce(t) - 1);
      assert Reduce(s) - Reduce(t) == 0xffff * (k - a + b) + r;
    }
  }

  /** The accumulator wrapped a multiple of 65535 times, and did not wrap to zero. */
  predicate WrapsHarmlessly(b: seq<byte>) {
    (WordSum(b) / 0x1_0000_0000) % 0xffff == 0 && (WordSum(b) % 0x1_0000_0000 == 0 ==> WordSum(b) == 0)
  }

  /** On buffers of any length the code agrees with RFC 1071 if and only if the accumulator wraps harmlessly. */
  lemma SumIsRfc1071Iff(b: seq<byte>)
    ensures Sum(b) == ByteSwap(Rfc1071(b)) <==> WrapsHarmlessly(b)
  {
    var w := WordSum(b);
    var q, r := w / 0x1_0000_0000, w % 0x1_0000_0000;
    assert w == 0x1_0000_0000 * q + r;
    assert Sum(b) == 0xffff - Reduce(r) by {
      TwoFoldsSuffice(r);
    }
    assert Rfc1071(b) == 0xffff - ByteSwap(Reduce(w)) by {
      OnesSumIsSwappedSum(b);
    }
    SwapComplement(Reduce(w), 0xffff - Reduce(w), Rfc1071(b));
    ReduceAlike(w, r, 0x1_0001 * q + q / 0xffff, q % 0xffff);
  }

  function Ones(n: nat): (b: seq<byte>)
    ensures |b| == n
  {
    seq(n, _ => 0xff)
  }

  lemma {:induction false} WordSumOnes(n: nat)
    ensures WordSum(Ones(n)) == 0xffff * (n / 2) + 0xff * (n % 2)
  {
    if n >= 2 {
      assert Ones(n)[2..] == Ones(n - 2);
      WordSumOnes(n - 2);
    }
  }

  /** One octet more than MAX_COVERAGE already overflows: the wrapped sum loses a carry. */
  lemma BoundIsSharp()
    ensures Sum(Ones(MAX_COVERAGE + 1)) != ByteSwap(Rfc1071(Ones(MAX_COVERAGE + 1)))
  {
    WordSumOnes(MAX_COVERAGE + 1);
    SumIsRfc1071Iff(Ones(MAX_COVERAGE + 1));
  }

  // ----- Storing a checksum, and changing an octet ------------------------

  /** What changing the octet at `i` adds to the word sum: even places weigh 1, odd places 256. */
  lemma {:induction false} WordSumUpdate(b: seq<byte>, i: nat, v: byte)
    requires i < |b|
    ensures WordSum(b[i := v]) == WordSum(b) + (if i % 2 == 0 then v - b[i] else 0x100 * (v - b[i]))
  {
    if i >= 2 {
      assert b[i := v][2..] == b[2..][i - 2 := v];
      WordSumUpdate(b[2..], i - 2, v);
    } else {
      assert |b| >= 2 ==> b[i := v][2..] == b[2..];
    }
  }

  /** `b` with the checksum `c` combined into the two octets at `p`, low octet first. */
  function Seal(b: seq<byte>, p: nat, c: uint16): (r: seq<byte>)
    requires p + 2 <= |b|
    ensures |r| == |b|
  {
    b[p := Xor(b[p], Low8(c))][p + 1 := Xor(b[p + 1], Low8(c / 0x100))]
  }

  /** `b` with the checksum octets at `p` overwritten by `c`, low octet first. */
  function Place(b: seq<byte>, p: nat, c: uint16): (r: seq<byte>)
    requires p + 2 <= |b|
    ensures |r| == |b|
  {
    b[p := Low8(c)][p + 1 := Low8(c / 0x100)]
  }

  /** On zero octets the exclusive-or is a plain store. */
  lemma SealIsPlace(b: seq<byte>, p: nat, c: uint16)
    requires p + 2 <= |b| && b[p] == 0 && b[p + 1] == 0
    ensures Seal(b, p, c) == Place(b, p, c)
  {
    XorZero(Low8(c));
    XorZero(Low8(c / 0x100));
  }

  lemma SplitWord(c: uint16)
    ensures c == Word(Low8(c / 0x100), Low8(c))
  {}

  lemma PlaceWordSum(b: seq<byte>, p: nat, c: uint16)
    requires p + 2 <= |b| && p % 2 == 0 && b[p] == 0 && b[p + 1] == 0
    ensures WordSum(Place(b, p, c)) == WordSum(b) + c
  {
    SplitWord(c);
    StoreLow(b, p, Low8(c));
    StoreHigh(b[p := Low8(c)], p + 1, Low8(c / 0x100));
  }

  lemma StoreLow(b: seq<byte>, p: nat, l: byte)
    requires p < |b| && p % 2 == 0 && b[p] == 0
    ensures WordSum(b[p := l]) == WordSum(b) + l
  {
    WordSumUpdate(b, p, l);
  }

  lemma StoreHigh(b: seq<byte>, p: nat, h: byte)
    requires p < |b| && p % 2 == 1 && b[p] == 0
    ensures WordSum(b[p := h]) == WordSum(b) + 0x100 * h as int
  {
    WordSumUpdate(b, p, h);
  }

  /**
   Sealing a buffer of any length whose checksum octets are zero makes its checksum zero, even
   where the accumulator wraps: adding the checksum itself never wraps it again.
   */
  lemma SealedSumIsZero(b: seq<byte>, p: nat)
    requires p + 2 <= |b| && p % 2 == 0
    requires b[p] == 0 && b[p + 1] == 0
    ensures Sum(Seal(b, p, Sum(b))) == 0
  {
    var c := Sum(b);
    SealIsPlace(b, p, c);
    PlaceWordSum(b, p, c);
    TwoFoldsSuffice(Accumulated(b));
    PlacedIsZero(b, Place(b, p, c), c);
  }

  lemma PlacedIsZero(b: seq<byte>, placed: seq<byte>, c: uint16)
    requires c == 0xffff - Reduce(Accumulated(b)) && WordSum(placed) == WordSum(b) + c
    ensures Sum(placed) == 0
  {
    ReducedMultiple(Accumulated(b), c);
    AddLow(WordSum(b), c);
    SumZeroIff(placed);
  }

  /** The accumulator and its checksum add up to a multiple of 65535 that still has 32 bits. */
  lemma ReducedMultiple(r: uint32, c: uint16)
    requires c == 0xffff - Reduce(r)
    ensures 0 < r as int + c < 0x1_0000_0000 && (r as int + c) % 0xffff == 0
  {
    if r != 0 {
      var q := (r - 1) / 0xffff;
      assert r as int + c == 0xffff * (q + 1);
      assert 0xffff * 0x1_0001 == 0xffff_ffff;
    }
  }

  lemma AddLow(w: nat, c: nat)
    requires w % 0x1_0000_0000 + c < 0x1_0000_0000
    ensures (w + c) % 0x1_0000_0000 == w % 0x1_0000_0000 + c
  {}

  /** From a non-zero multiple of 65535, a change smaller than 65535 does not lead to one, even if it wraps. */
  lemma SmallChange(w: nat, v: nat)
    requires w % 0x1_0000_0000 != 0 && w % 0x1_0000_0000 % 0xffff == 0 && w != v && -0xffff < v - w < 0xffff
    ensures v % 0x1_0000_0000 == 0 || v % 0x1_0000_0000 % 0xffff != 0
  {
    var q, r := w / 0x1_0000_0000, w % 0x1_0000_0000;
    var k := r / 0xffff;
    assert r == 0xffff * k && 1 <= k <= 0x1_0001;
    var t := r + (v - w);
    assert v == 0x1_0000_0000 * q + t;
    if t < 0x1_0000_0000 {
      WithQuotient(v, q, t);
      BetweenMultiples(t, k);
    } else {
      WithQuotient(v, q + 1, t - 0x1_0000_0000);
      if t != 0x1_0000_0000 {
        BelowOne(t - 0x1_0000_0000);
      }
    }
  }

  lemma WithQuotient(v: int, q: int, t: int)
    requires v == 0x1_0000_0000 * q + t && 0 <= t < 0x1_0000_0000
    ensures v % 0x1_0000_0000 == t
  {}

  lemma BetweenMultiples(t: int, k: int)
    requires t != 0xffff * k && -0xffff < t - 0xffff * k < 0xffff
    ensures t % 0xffff != 0
  {}

  lemma BelowOne(t: int)
    requires 0 < t < 0xffff
    ensures t % 0xffff != 0
  {}

  /** Changing any one octet of a buffer of any length with checksum zero gives a buffer with another checksum. */
  lemma OneOctetChangeDetected(b: seq<byte>, i: nat, v: byte)
    requires i < |b| && v != b[i]
    requires Sum(b) == 0
    ensures Sum(b[i := v]) != 0
  {
    SumZeroIff(b);
    SumZeroIff(b[i := v]);
    WordSumUpdate(b, i, v);
    SmallChange(WordSum(b), WordSum(b[i := v]));
  }
}
