/**
 Octets, fixed-width big-endian integers, and the two ways the codec writes into a
 buffer: storing a block that must fit, and Go's `copy`, which stops at the buffer's end.
 */
module Bytes {

  type byte = x: int | 0 <= x < 0x100
  type uint16 = x: int | 0 <= x < 0x1_0000
  type uint32 = x: int | 0 <= x < 0x1_0000_0000

  /** Go's `byte(x)`: truncation to the low eight bits, for negative `x` too. */
  function Low8(x: int): (r: byte) {
    x % 0x100
  }

  /** Multiples of 256 do not show in the low eight bits. */
  lemma Low8Shift(m: int, y: int)
    ensures Low8(0x100 * m + y) == Low8(y)
  {}

  /** What `binary.BigEndian.PutUint16(b, uint16(x))` stores. */
  function Be16(x: int): (r: seq<byte>)
    ensures |r| == 2
  {
    [Low8(x / 0x100), Low8(x)]
  }

  /** What `binary.BigEndian.PutUint32(b, uint32(x))` stores. */
  function Be32(x: int): (r: seq<byte>)
    ensures |r| == 4
  {
    [Low8(x / 0x100_0000), Low8(x / 0x1_0000), Low8(x / 0x100), Low8(x)]
  }

  /** The 16-bit integer with high octet `hi` and low octet `lo`. */
  function Word(hi: byte, lo: byte): (r: uint16) {
    hi as int * 0x100 + lo
  }

  function U16(b: seq<byte>): (r: uint16)
    requires |b| >= 2
  {
    Word(b[0], b[1])
  }

  function U32(b: seq<byte>): (r: uint32)
    requires |b| >= 4
  {
    Word(b[0], b[1]) as int * 0x1_0000 + Word(b[2], b[3])
  }

  /** Reading back a stored 16-bit integer gives its low sixteen bits. */
  lemma U16Be16(x: int)
    ensures U16(Be16(x)) == x % 0x1_0000
  {}

  /** Reading back a stored 32-bit integer gives its low thirty-two bits. */
  lemma U32Be32(x: int)
    ensures U32(Be32(x)) == x % 0x1_0000_0000
    ensures 0 <= x < 0x1_0000_0000 ==> U32(Be32(x)) == x
  {
    var a, b, c := x / 0x100, x / 0x1_0000, x / 0x100_0000;
    assert b == a / 0x100 && c == b / 0x100;
    assert x % 0x1_0000 == a % 0x100 * 0x100 + x % 0x100;
    assert x % 0x100_0000 == b % 0x100 * 0x1_0000 + x % 0x1_0000;
  }

  /** The integers depend on the first octets only. */
  lemma PrefixDecides(b: seq<byte>, rest: seq<byte>)
    ensures |b| >= 2 ==> U16(b + rest) == U16(b)
    ensures |b| >= 4 ==> U32(b + rest) == U32(b)
  {}

  /** Only the bits that fit the field are stored. */
  lemma Be32Low(x: int)
    ensures Be32(x % 0x1_0000_0000) == Be32(x)
  {
    var q, r := x / 0x1_0000_0000, x % 0x1_0000_0000;
    assert x / 0x100_0000 == 0x100 * q + r / 0x100_0000;
    Low8Shift(q, r / 0x100_0000);
    assert x / 0x1_0000 == 0x100 * (0x100 * q) + r / 0x1_0000;
    Low8Shift(0x100 * q, r / 0x1_0000);
    assert x / 0x100 == 0x100 * (0x1_0000 * q) + r / 0x100;
    Low8Shift(0x1_0000 * q, r / 0x100);
    assert x == 0x100 * (0x100_0000 * q) + r;
    Low8Shift(0x100_0000 * q, r);
  }

  lemma Be16Low(x: int)
    ensures Be16(x % 0x1_0000) == Be16(x)
  {
    var q, r := x / 0x1_0000, x % 0x1_0000;
    assert x / 0x100 == 0x100 * q + r / 0x100;
    Low8Shift(q, r / 0x100);
    assert x == 0x100 * (0x100 * q) + r;
    Low8Shift(0x100 * q, r);
  }

  /** Exclusive or, bit by bit: the lowest bit is set when exactly one of the lowest bits is. */
  function XorBits(a: nat, b: nat): (r: nat)
    decreases a + b
  {
    if a == 0 && b == 0 then 0 else 2 * XorBits(a / 2, b / 2) + (a + b) % 2
  }

  /** Go's `a ^ b` on octets. */
  function Xor(a: byte, b: byte): (r: byte) {
    Low8(XorBits(a, b))
  }

  lemma {:induction false} XorBitsZero(x: nat)
    ensures XorBits(0, x) == x
  {
    if x != 0 {
      XorBitsZero(x / 2);
    }
  }

  lemma XorZero(x: byte)
    ensures Xor(0, x) == x
  {
    XorBitsZero(x);
  }

  /** `make([]byte, n)`. */
  function Zeros(n: nat): (r: seq<byte>)
    ensures |r| == n
    ensures forall i :: 0 <= i < n ==> r[i] == 0
  {
    seq(n, _ => 0)
  }

  /** `n` rounded up to a multiple of four, Go's `(n + 3) &^ 3`. */
  function RoundUp4(n: nat): (r: nat)
    ensures r % 4 == 0 && n <= r < n + 4
  {
    (n + 3) / 4 * 4
  }

  /** The same for eight. */
  function RoundUp8(n: nat): (r: nat)
    ensures r % 8 == 0 && n <= r < n + 8
  {
    (n + 7) / 8 * 8
  }

  /** `data` followed by zeros up to length `n`. */
  function Pad(data: seq<byte>, n: nat): (r: seq<byte>)
    requires |data| <= n
    ensures |r| == n
  {
    data + Zeros(n - |data|)
  }

  /** `buf` with `data` stored at `off`. */
  function Write(buf: seq<byte>, off: nat, data: seq<byte>): (r: seq<byte>)
    requires off + |data| <= |buf|
    ensures |r| == |buf|
  {
    seq(|buf|, i requires 0 <= i < |buf| => if off <= i < off + |data| then data[i - off] else buf[i])
  }

  /** Two adjacent stores are one. */
  lemma WriteAppend(buf: seq<byte>, off: nat, x: seq<byte>, next: nat, y: seq<byte>)
    requires next == off + |x| && next + |y| <= |buf|
    ensures Write(Write(buf, off, x), next, y) == Write(buf, off, x + y)
  {}

  /** The `n` octets from `p` on are zero. */
  predicate ZeroFrom(buf: seq<byte>, p: nat, n: nat) {
    p + n <= |buf| && forall i :: p <= i < p + n ==> buf[i] == 0
  }

  /** A store at the front of a zeroed stretch leaves the rest of it zeroed. */
  lemma StillZero(buf: seq<byte>, p: nat, x: seq<byte>, next: nat, n: nat)
    requires next == p + |x| && ZeroFrom(buf, p, |x| + n)
    ensures ZeroFrom(Write(buf, p, x), next, n)
  {}

  /** On a zeroed stretch, storing `x` alone also stores the zeros after it. */
  lemma WriteBeforeZeros(buf: seq<byte>, p: nat, x: seq<byte>, n: nat)
    requires ZeroFrom(buf, p, |x| + n)
    ensures Write(buf, p, x) == Write(buf, p, x + Zeros(n))
  {}

  /** Go's `copy(buf[off:], data)`: as much of `data` as fits. */
  function CopyAt(buf: seq<byte>, off: nat, data: seq<byte>): (r: seq<byte>)
    requires off <= |buf|
    ensures |r| == |buf|
  {
    Write(buf, off, if |data| <= |buf| - off then data else data[..|buf| - off])
  }

  /** Stores `data` at `off`, as a sequence of index assignments or a PutUint call does. */
  method Store(b: array<byte>, off: nat, data: seq<byte>)
    requires off + |data| <= b.Length
    modifies b
    ensures b[..] == Write(old(b[..]), off, data)
  {
    forall i | off <= i < off + |data| {
      b[i] := data[i - off];
    }
  }

  /** An extension object header: 16-bit length, class number, sub-type (RFC 4884, section 8). */
  function ObjectHeader(len: int, cls: byte, typ: int): (r: seq<byte>)
    ensures |r| == 4
  {
    Be16(len) + [cls, Low8(typ)]
  }

  method StoreHeader(b: array<byte>, off: nat, len: int, cls: byte, typ: int)
    requires off + 4 <= b.Length
    modifies b
    ensures b[..] == Write(old(b[..]), off, ObjectHeader(len, cls, typ))
  {
    Store(b, off, Be16(len));
    b[off + 2], b[off + 3] := cls, Low8(typ);
  }

  /** Go's built-in `copy(b[off:], data)`. */
  method Copy(b: array<byte>, off: nat, data: seq<byte>)
    requires off <= b.Length
    modifies b
    ensures b[..] == CopyAt(old(b[..]), off, data)
  {
    Store(b, off, if |data| <= b.Length - off then data else data[..b.Length - off]);
  }

  /** `make([]byte, n)`. */
  method Make(n: nat) returns (b: array<byte>)
    ensures fresh(b) && b[..] == Zeros(n)
  {
    b := new byte[n](_ => 0);
  }

  function TrimLeft(s: seq<byte>): (r: seq<byte>)
    ensures |r| <= |s| && s[|s| - |r|..] == r
    ensures r != [] ==> s[|s| - |r|] == r[0] != 0
    ensures forall i :: 0 <= i < |s| - |r| ==> s[i] == 0
  {
    if s != [] && s[0] == 0 then TrimLeft(s[1..]) else s
  }

  function TrimRight(s: seq<byte>): (r: seq<byte>)
    ensures r <= s
    ensures r != [] ==> s[|r| - 1] == r[|r| - 1] != 0
    ensures forall i :: |r| <= i < |s| ==> s[i] == 0
  {
    if s != [] && s[|s| - 1] == 0 then TrimRight(s[..|s| - 1]) else s
  }

  /** `strings.Trim(s, "\000")`. */
  function TrimNul(s: seq<byte>): (r: seq<byte>) {
    TrimRight(TrimLeft(s))
  }

  predicate Trimmed(s: seq<byte>) {
    s != [] ==> s[0] != 0 && s[|s| - 1] != 0
  }

  /** Trimming undoes zero padding of any string that neither starts nor ends with NUL. */
  lemma TrimNulPad(s: seq<byte>, n: nat)
    requires Trimmed(s)
    ensures TrimNul(s + Zeros(n)) == s
  {
    var p := s + Zeros(n);
    assert forall i :: |s| <= i < |p| ==> p[i] == 0;
    if s != [] {
      assert p[0] != 0 && p[|s| - 1] != 0;
      assert TrimRight(p) == p[..|s|] == s;
    }
  }
}
