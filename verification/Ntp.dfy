/** Choosing a clock offset from NTP answers (ntp.go); the queries' results are inputs. */
module Ntp {
  import opened Wrappers

  /** A successful query. */
  datatype Poll = Poll(offset: int, rtt: int)

  datatype Answer = Answer(rtt: int, offset: int)

  const NO_ANSWER := Answer(0, 0)

  function Rtt(a: Answer): (r: int) {
    a.rtt
  }

  function Offset(a: Answer): (r: int) {
    a.offset
  }

  function Itself(x: int): (r: int) {
    x
  }

  // ----- Sorting ----------------------------------------------------------

  predicate SortedBy<T(!new)>(s: seq<T>, key: T -> int) {
    forall i, j :: 0 <= i <= j < |s| ==> key(s[i]) <= key(s[j])
  }

  /** Go's `sort`: some ordered permutation; callers must not rely on how ties fall. */
  method Sort<T(!new)>(s: seq<T>, key: T -> int) returns (r: seq<T>)
    ensures SortedBy(r, key) && multiset(r) == multiset(s) && |r| == |s|
  {
    r := [];
    for i := 0 to |s|
      invariant SortedBy(r, key) && multiset(r) == multiset(s[..i]) && |r| == i
    {
      r := Insert(r, s[i], key);
      assert s[..i + 1] == s[..i] + [s[i]];
    }
    assert s[..|s|] == s;
  }

  method Insert<T(!new)>(s: seq<T>, x: T, key: T -> int) returns (r: seq<T>)
    requires SortedBy(s, key)
    ensures SortedBy(r, key) && multiset(r) == multiset(s) + multiset{x} && |r| == |s| + 1
  {
    var n := |s|;
    while n > 0 && key(s[n - 1]) > key(x)
      invariant 0 <= n <= |s|
      invariant forall k :: n <= k < |s| ==> key(s[k]) > key(x)
    {
      n := n - 1;
    }
    r := s[..n] + [x] + s[n..];
    InsertedMultiset(s, n, x);
  }

  lemma InsertedMultiset<T(!new)>(s: seq<T>, n: nat, x: T)
    requires n <= |s|
    ensures multiset(s[..n] + [x] + s[n..]) == multiset(s) + multiset{x}
  {
    assert s == s[..n] + s[n..];
  }

  // ----- One server -------------------------------------------------------

  function Min(x: int, y: int): (r: int) {
    if x < y then x else y
  }

  function Max(x: int, y: int): (r: int) {
    if x < y then y else x
  }

  function Median3(x: int, y: int, z: int): (r: int) {
    Max(Min(x, y), Min(Max(x, y), z))
  }

  function OffsetOf(p: Option<Poll>): (r: int) {
    if p.Some? then p.value.offset else 0
  }

  function RttOf(p: Option<Poll>): (r: int) {
    if p.Some? then p.value.rtt else 0
  }

  lemma MiddleOfThree(s: seq<int>, x: int, y: int, z: int)
    requires SortedBy(s, Itself) && multiset(s) == multiset([x, y, z]) && |s| == 3
    ensures s[1] == Median3(x, y, z)
  {
    assert Itself(s[0]) <= Itself(s[1]) <= Itself(s[2]);
    assert s == [s[0], s[1], s[2]];
    SortedThree(s[0], s[1], s[2], x, y, z);
  }

  lemma SortedThree(a: int, b: int, c: int, x: int, y: int, z: int)
    requires a <= b <= c && multiset{a, b, c} == multiset{x, y, z}
    ensures b == Median3(x, y, z)
  {
    ThreeAlike(a, b, c, x, y, z);
  }

  lemma ThreeAlike(a: int, b: int, c: int, x: int, y: int, z: int)
    requires multiset{a, b, c} == multiset{x, y, z}
    ensures (a == x && ((b == y && c == z) || (b == z && c == y)))
         || (a == y && ((b == x && c == z) || (b == z && c == x)))
         || (a == z && ((b == x && c == y) || (b == y && c == x)))
  {
    assert a in multiset{x, y, z} && b in multiset{x, y, z} && c in multiset{x, y, z};
    assert multiset{a, b, c}[a] == multiset{x, y, z}[a];
    assert multiset{a, b, c}[b] == multiset{x, y, z}[b];
    assert multiset{a, b, c}[c] == multiset{x, y, z}[c];
  }

  /** Two queries into three cells that start as zero; the middle cells after sorting. */
  method TriplePoll(first: Option<Poll>, second: Option<Poll>) returns (offset: int, rtt: int, failed: nat)
    ensures offset == Median3(OffsetOf(first), OffsetOf(second), 0)
    ensures rtt == Median3(RttOf(first), RttOf(second), 0)
    ensures failed == (if first.None? then 1 else 0) + (if second.None? then 1 else 0)
  {
    var polls := [first, second];
    var offsets := new int[3](_ => 0);
    var rtts := new int[3](_ => 0);
    failed := 0;
    for i := 0 to 2
      invariant forall k :: 0 <= k < 3 ==> offsets[k] == if k < i then OffsetOf(polls[k]) else 0
      invariant forall k :: 0 <= k < 3 ==> rtts[k] == if k < i then RttOf(polls[k]) else 0
      invariant failed == (if i > 0 && first.None? then 1 else 0) + (if i > 1 && second.None? then 1 else 0)
    {
      if polls[i].None? {
        failed := failed + 1;
        continue;
      }
      offsets[i] := polls[i].value.offset;
      rtts[i] := polls[i].value.rtt;
    }
    assert offsets[..] == [OffsetOf(first), OffsetOf(second), 0];
    assert rtts[..] == [RttOf(first), RttOf(second), 0];
    offset := MiddleCell(offsets[..], OffsetOf(first), OffsetOf(second));
    rtt := MiddleCell(rtts[..], RttOf(first), RttOf(second));
  }

  method MiddleCell(cells: seq<int>, ghost x: int, ghost y: int) returns (m: int)
    requires cells == [x, y, 0]
    ensures m == Median3(x, y, 0)
  {
    var sorted := Sort(cells, Itself);
    MiddleOfThree(sorted, x, y, 0);
    return sorted[1];
  }

  /** `calibrateAgainstApple`'s test on what `ntpTriplePoll` returned. */
  method Accept(first: Option<Poll>, second: Option<Poll>) returns (answer: Option<Answer>)
    ensures answer == Accepted(first, second)
  {
    var offset, rtt, failed := TriplePoll(first, second);
    if failed > 1 || rtt == 0 || offset == 0 {
      return None;
    }
    return Some(Answer(rtt, offset));
  }

  /** What is kept of a server. */
  function Accepted(first: Option<Poll>, second: Option<Poll>): (r: Option<Answer>) {
    var offset := Median3(OffsetOf(first), OffsetOf(second), 0);
    var rtt := Median3(RttOf(first), RttOf(second), 0);
    if (first.None? && second.None?) || rtt == 0 || offset == 0 then None else Some(Answer(rtt, offset))
  }

  /**
   With positive round-trip times a server is accepted exactly when both queries succeeded and
   gave non-zero offsets of one sign; what is kept is the offset closer to zero and the shorter time.
   */
  lemma AcceptedIff(first: Option<Poll>, second: Option<Poll>)
    requires first.Some? ==> first.value.rtt > 0
    requires second.Some? ==> second.value.rtt > 0
    ensures Accepted(first, second).Some? <==>
              first.Some? && second.Some? &&
              ((first.value.offset > 0 && second.value.offset > 0) ||
               (first.value.offset < 0 && second.value.offset < 0))
    ensures Accepted(first, second).Some? ==>
              var a := Accepted(first, second).value; var x := first.value; var y := second.value;
              a.offset in {x.offset, y.offset} && a.rtt in {x.rtt, y.rtt} && a.rtt <= x.rtt && a.rtt <= y.rtt &&
              (a.offset > 0 ==> a.offset <= x.offset && a.offset <= y.offset) &&
              (a.offset < 0 ==> a.offset >= x.offset && a.offset >= y.offset)
  {}

  // ----- All servers ------------------------------------------------------

  function Within(a: Answer, lo: int, hi: int): (r: nat) {
    if lo <= a.offset <= hi then 1 else 0
  }

  /** How many of the answers have an offset from `lo` to `hi`. */
  function CountIn(s: seq<Answer>, lo: int, hi: int): (r: nat) {
    if s == [] then 0 else Within(s[0], lo, hi) + CountIn(s[1..], lo, hi)
  }

  lemma {:induction false} CountWithout(s: seq<Answer>, k: nat, lo: int, hi: int)
    requires k < |s|
    ensures CountIn(s, lo, hi) == CountIn(s[..k] + s[k + 1..], lo, hi) + Within(s[k], lo, hi)
  {
    var t := s[..k] + s[k + 1..];
    if k == 0 {
      assert t == s[1..];
    } else {
      CountWithout(s[1..], k - 1, lo, hi);
      assert t[0] == s[0] && t[1..] == s[1..][..k - 1] + s[1..][k..];
    }
  }

  lemma WithoutOne(s: seq<Answer>, t: seq<Answer>, k: nat)
    requires multiset(s) == multiset(t) && s != [] && k < |t| && t[k] == s[0]
    ensures multiset(s[1..]) == multiset(t[..k] + t[k + 1..])
  {
    assert s == [s[0]] + s[1..];
    assert t == t[..k] + [t[k]] + t[k + 1..];
    assert multiset(s[1..]) == multiset(s) - multiset{s[0]};
    assert multiset(t[..k] + t[k + 1..]) == multiset(t) - multiset{t[k]};
  }

  /** The count does not depend on the order. */
  lemma {:induction false} CountPermuted(s: seq<Answer>, t: seq<Answer>, lo: int, hi: int)
    requires multiset(s) == multiset(t)
    ensures CountIn(s, lo, hi) == CountIn(t, lo, hi)
    decreases |s|
  {
    if s == [] {
      assert |t| == |multiset(t)| == 0 && t == [];
    } else {
      assert s[0] in multiset(t);
      var k :| 0 <= k < |t| && t[k] == s[0];
      WithoutOne(s, t, k);
      CountWithout(t, k, lo, hi);
      CountPermuted(s[1..], t[..k] + t[k + 1..], lo, hi);
    }
  }

  lemma CountOfFive(s: seq<Answer>, lo: int, hi: int)
    requires |s| == 5
    ensures CountIn(s, lo, hi)
         == Within(s[0], lo, hi) + Within(s[1], lo, hi) + Within(s[2], lo, hi)
            + Within(s[3], lo, hi) + Within(s[4], lo, hi)
  {
    assert s[1..][1..] == s[2..] && s[2..][1..] == s[3..] && s[3..][1..] == s[4..];
    assert CountIn(s[4..], lo, hi) == Within(s[4], lo, hi);
    assert CountIn(s[3..], lo, hi) == Within(s[3], lo, hi) + CountIn(s[4..], lo, hi);
    assert CountIn(s[2..], lo, hi) == Within(s[2], lo, hi) + CountIn(s[3..], lo, hi);
  }

  /** The middle of five is in every interval that holds three of them. */
  lemma MiddleOfFive(s: seq<Answer>, lo: int, hi: int)
    requires |s| == 5 && SortedBy(s, Offset) && CountIn(s, lo, hi) >= 3
    ensures lo <= s[2].offset <= hi
  {
    CountOfFive(s, lo, hi);
    assert Offset(s[0]) <= Offset(s[1]) <= Offset(s[2]) <= Offset(s[3]) <= Offset(s[4]);
  }

  /** Every interval that holds at least three of the five offsets holds `x`. */
  ghost predicate Middle(five: seq<Answer>, x: int) {
    forall lo, hi :: CountIn(five, lo, hi) >= 3 ==> lo <= x <= hi
  }

  /** The five cells: the answers with the lowest round-trip times, and zeros when there are fewer than five. */
  predicate LowestFive(all: seq<Answer>, five: seq<Answer>, others: seq<Answer>) {
    var n := if |all| < 5 then |all| else 5;
    && |five| == 5
    && multiset(all) == multiset(five[..n]) + multiset(others)
    && (forall k :: n <= k < 5 ==> five[k] == NO_ANSWER)
    && (forall i, j :: 0 <= i < n && 0 <= j < |others| ==> five[i].rtt <= others[j].rtt)
  }

  method ConsiderFive(all: seq<Answer>) returns (five: seq<Answer>, ghost others: seq<Answer>)
    ensures LowestFive(all, five, others)
  {
    var byRtt := Sort(all, Rtt);
    var cells := new Answer[5](_ => NO_ANSWER);
    var count := 0;
    while count < |byRtt|
      invariant 0 <= count <= |byRtt| && count <= 4
      invariant forall k :: 0 <= k < 5 ==> cells[k] == if k < count then byRtt[k] else NO_ANSWER
    {
      cells[count] := byRtt[count];
      if count == 4 {
        break;
      }
      count := count + 1;
    }
    five := cells[..];
    others := Split(all, byRtt, five);
  }

  lemma Split(all: seq<Answer>, byRtt: seq<Answer>, five: seq<Answer>) returns (others: seq<Answer>)
    requires multiset(byRtt) == multiset(all) && |byRtt| == |all| && SortedBy(byRtt, Rtt) && |five| == 5
    requires forall k :: 0 <= k < 5 ==> five[k] == if k < |byRtt| then byRtt[k] else NO_ANSWER
    ensures LowestFive(all, five, others)
  {
    var n := if |all| < 5 then |all| else 5;
    others := byRtt[n..];
    assert five[..n] == byRtt[..n] && byRtt == byRtt[..n] + byRtt[n..];
    forall i, j | 0 <= i < n && 0 <= j < |others| ensures five[i].rtt <= others[j].rtt {
      assert Rtt(byRtt[i]) <= Rtt(byRtt[n + j]);
    }
  }

  /** The offset chosen, whatever the order of the answers and however ties are sorted. */
  method Calibrate(all: seq<Answer>) returns (offset: int, five: seq<Answer>, ghost others: seq<Answer>)
    ensures LowestFive(all, five, others)
    ensures Middle(five, offset)
  {
    five, others := ConsiderFive(all);
    var byOffset := Sort(five, Offset);
    offset := byOffset[2].offset;
    forall lo, hi | CountIn(five, lo, hi) >= 3 ensures lo <= offset <= hi {
      CountPermuted(five, byOffset, lo, hi);
      MiddleOfFive(byOffset, lo, hi);
    }
  }

  lemma {:induction false} Bounds(s: seq<Answer>, x: int) returns (l: int, h: int)
    ensures l <= x < h && forall a :: a in s ==> l <= a.offset <= h
  {
    if s == [] {
      l, h := x, x + 1;
    } else {
      l, h := Bounds(s[1..], x);
      l := Min(l, s[0].offset);
      h := Max(h, s[0].offset);
      assert s == [s[0]] + s[1..];
    }
  }

  lemma {:induction false} SplitCount(s: seq<Answer>, l: int, x: int, h: int)
    requires l <= x < h && forall a :: a in s ==> l <= a.offset <= h
    ensures CountIn(s, l, x) + CountIn(s, x + 1, h) == |s|
  {
    if s != [] {
      assert s[0] in s;
      SplitCount(s[1..], l, x, h);
    }
  }

  lemma NotBoth(five: seq<Answer>, x: int, y: int)
    requires |five| == 5 && x < y
    ensures !Middle(five, x) || !Middle(five, y)
  {
    var l, h := Bounds(five, x);
    SplitCount(five, l, x, h);
    if CountIn(five, l, x) < 3 {
      assert CountIn(five, x + 1, h) >= 3;
    }
  }

  /** The interval property leaves at most one offset, so it determines the choice. */
  lemma OffsetIsDetermined(five: seq<Answer>, x: int, y: int)
    requires |five| == 5 && Middle(five, x) && Middle(five, y)
    ensures x == y
  {
    if x < y {
      NotBoth(five, x, y);
    } else if y < x {
      NotBoth(five, y, x);
    }
  }

  // ----- When the offset is zero ------------------------------------------

  function Positive(s: seq<Answer>): (r: nat) {
    if s == [] then 0 else (if s[0].offset > 0 then 1 else 0) + Positive(s[1..])
  }

  function Negative(s: seq<Answer>): (r: nat) {
    if s == [] then 0 else (if s[0].offset < 0 then 1 else 0) + Negative(s[1..])
  }

  lemma {:induction false} SignsAreCounts(s: seq<Answer>, l: int, h: int)
    requires l <= 0 <= h && forall a :: a in s ==> l <= a.offset <= h
    ensures Positive(s) == CountIn(s, 1, h) && Negative(s) == CountIn(s, l, -1)
    ensures CountIn(s, l, 0) == |s| - Positive(s) && CountIn(s, 0, h) == |s| - Negative(s)
  {
    if s != [] {
      assert s[0] in s;
      SignsAreCounts(s[1..], l, h);
    }
  }

  /** The median of five is zero exactly when at most two are positive and at most two negative. */
  lemma MiddleIsZeroIff(five: seq<Answer>, offset: int)
    requires |five| == 5 && Middle(five, offset)
    ensures offset == 0 <==> Positive(five) <= 2 && Negative(five) <= 2
  {
    var l, h := Bounds(five, 0);
    SignsAreCounts(five, l, h);
    assert CountIn(five, l, 0) >= 3 ==> offset <= 0;
    assert CountIn(five, 0, h) >= 3 ==> offset >= 0;
    assert CountIn(five, 1, h) >= 3 ==> offset >= 1;
    assert CountIn(five, l, -1) >= 3 ==> offset <= -1;
  }

  lemma {:induction false} CountAppended(s: seq<Answer>, t: seq<Answer>, lo: int, hi: int)
    ensures CountIn(s + t, lo, hi) == CountIn(s, lo, hi) + CountIn(t, lo, hi)
  {
    if s == [] {
      assert s + t == t;
    } else {
      assert (s + t)[1..] == s[1..] + t;
      CountAppended(s[1..], t, lo, hi);
    }
  }

  lemma {:induction false} ZerosCountNothing(s: seq<Answer>, lo: int, hi: int)
    requires (forall k :: 0 <= k < |s| ==> s[k] == NO_ANSWER) && !(lo <= 0 <= hi)
    ensures CountIn(s, lo, hi) == 0
  {
    if s != [] {
      ZerosCountNothing(s[1..], lo, hi);
    }
  }

  /** With at most five answers, the cells count as the answers do, away from zero. */
  lemma CellsCountAsAnswers(all: seq<Answer>, five: seq<Answer>, others: seq<Answer>, lo: int, hi: int)
    requires LowestFive(all, five, others) && |all| <= 5 && !(lo <= 0 <= hi)
    ensures CountIn(five, lo, hi) == CountIn(all, lo, hi)
  {
    var n := |all|;
    assert |multiset(all)| == |multiset(five[..n])| + |multiset(others)| && |multiset(others)| == |others|;
    assert others == [];
    CountPermuted(all, five[..n], lo, hi);
    CountAppended(five[..n], five[n..], lo, hi);
    assert five == five[..n] + five[n..];
    ZerosCountNothing(five[n..], lo, hi);
  }

  /**
   With at most five accepted servers the zero cells take part: the offset is 0 if and only if at
   most two of the servers gave a positive offset and at most two a negative one.
   */
  lemma FewServers(all: seq<Answer>, five: seq<Answer>, others: seq<Answer>, offset: int)
    requires LowestFive(all, five, others) && |all| <= 5 && Middle(five, offset)
    ensures offset == 0 <==> Positive(all) <= 2 && Negative(all) <= 2
  {
    MiddleIsZeroIff(five, offset);
    var l, h := Bounds(five + all, 0);
    SignsAreCounts(five, l, h);
    SignsAreCounts(all, l, h);
    CellsCountAsAnswers(all, five, others, 1, h);
    CellsCountAsAnswers(all, five, others, l, -1);
  }
}
