/** The loss estimator (main.go, `getLoss` and `getStats`): a walk over identifiers that skips 0. */
module Loss {
  import opened Bytes
  import opened Ping

  /** The identifier a sender uses in second `t`: 1 to 255 in turn. */
  function SenderId(t: nat): (r: byte)
    ensures r != 0
  {
    t % 255 + 1
  }

  /** Go's `x + y` and `x - y` on uint8. */
  function Add8(x: byte, y: byte): (r: byte) {
    (x + y) % 0x100
  }

  function Sub8(x: byte, y: byte): (r: byte) {
    (x - y) % 0x100
  }

  /** How many identifiers the walk visits: one fewer when it has to step over 0. */
  function Visits(tip: byte): (r: nat) {
    if tip >= 32 then 31 else 30
  }

  /** The identifiers in the order of the walk. */
  function Window(tip: byte): (r: seq<byte>)
    requires tip != 0
    ensures |r| == Visits(tip)
  {
    seq(Visits(tip), j requires 0 <= j < Visits(tip) =>
      if tip >= 32 then tip - 31 + j
      else if j < 31 - tip then tip + 225 + j
      else j - 30 + tip)
  }

  function CountMissing(ids: seq<byte>, acks: Acks): (r: nat)
    ensures r <= |ids|
  {
    if ids == [] then 0
    else CountMissing(ids[..|ids| - 1], acks) + (if HasId(ids[|ids| - 1], acks) then 0 else 1)
  }

  /** What `getLoss` returns in second `t`: nothing until the ring is full, then the two counts and 32. */
  function Loss(t: nat, rxAcks: Acks, sesAcks: Acks): (r: (nat, nat, nat)) {
    if HasId(0, sesAcks) then (0, 0, 0)
    else (CountMissing(Window(SenderId(t)), sesAcks), CountMissing(Window(SenderId(t)), rxAcks), 32)
  }

  /** One step of the walk, over 0 if need be. */
  function Advance(i: byte): (r: byte) {
    if Add8(i, 1) == 0 then 1 else Add8(i, 1)
  }

  /** The walk starts before the window, goes through it, and leaves it at `tip`. */
  lemma WalkStep(tip: byte, i: byte, j: nat)
    requires tip != 0 && j <= Visits(tip)
    requires i == if j == 0 then Sub8(tip, 32) else Window(tip)[j - 1]
    ensures Advance(i) == tip <==> j == Visits(tip)
    ensures j < Visits(tip) ==> Advance(i) == Window(tip)[j]
  {}

  method GetLoss(t: nat, rxAcks: Acks, sesAcks: Acks) returns (rxLoss: nat, txLoss: nat, total: nat)
    ensures (rxLoss, txLoss, total) == Loss(t, rxAcks, sesAcks)
  {
    var tip := SenderId(t);
    rxLoss, txLoss := 0, 0;
    var enough := SearchForId(0, sesAcks);
    if enough {
      return 0, 0, 0;
    }
    var i := Sub8(tip, 32);
    ghost var j, ids := 0, Window(tip);
    assert ids[..0] == [];
    while true
      invariant 0 <= j <= |ids|
      invariant i == if j == 0 then Sub8(tip, 32) else ids[j - 1]
      invariant rxLoss == CountMissing(ids[..j], sesAcks) && txLoss == CountMissing(ids[..j], rxAcks)
      decreases |ids| - j
    {
      WalkStep(tip, i, j);
      i := Add8(i, 1);
      if i == 0 {
        i := Add8(i, 1);
      }
      if i == tip {
        break;
      }
      j := j + 1;
      assert ids[..j][..j - 1] == ids[..j - 1];
      var acked := SearchForId(i, rxAcks);
      if !acked {
        txLoss := txLoss + 1;
      }
      var received := SearchForId(i, sesAcks);
      if !received {
        rxLoss := rxLoss + 1;
      }
    }
    assert ids[..j] == ids;
    return rxLoss, txLoss, 32;
  }

  // ----- What the walk visits ---------------------------------------------

  /** The walk visits exactly the identifiers of the last seconds before `t`, in order. */
  lemma WindowIsRecentSeconds(t: nat, j: nat)
    requires t >= 31 && j < Visits(SenderId(t))
    ensures Window(SenderId(t))[j] == SenderId(t - Visits(SenderId(t)) + j)
  {
    var q, r := t / 255, t % 255;
    assert t == 255 * q + r;
    var s := r - Visits(SenderId(t)) + j;
    if s >= 0 {
      Residue(q, s);
    } else {
      Residue(q - 1, s + 255);
    }
  }

  lemma Residue(q: int, r: int)
    requires 0 <= r < 255
    ensures (255 * q + r) % 255 == r
  {}

  /** Seconds less than 255 apart have different identifiers, and others repeat every 255 seconds. */
  lemma SameIdIff(s: nat, u: nat)
    ensures SenderId(s) == SenderId(u) <==> (s - u) % 255 == 0
    ensures -255 < s - u < 255 ==> (SenderId(s) == SenderId(u) <==> s == u)
  {
    var a, b := s / 255, u / 255;
    assert s - u == 255 * (a - b) + (s % 255 - u % 255);
  }

  /** No identifier is visited twice, and 0 never. */
  lemma WindowIsDistinct(t: nat, j: nat, k: nat)
    requires t >= 31 && j < k < Visits(SenderId(t))
    ensures Window(SenderId(t))[j] != Window(SenderId(t))[k]
    ensures Window(SenderId(t))[j] != 0 && Window(SenderId(t))[k] != 0
  {
    var from := t - Visits(SenderId(t));
    WindowIsRecentSeconds(t, j);
    WindowIsRecentSeconds(t, k);
    SameIdIff(from + j, from + k);
  }

  /** At most 31 identifiers can be counted as lost, although 32 is reported as their number. */
  lemma NeverAllLost(t: nat, rxAcks: Acks, sesAcks: Acks)
    ensures var (rx, tx, total) := Loss(t, rxAcks, sesAcks);
            rx <= Visits(SenderId(t)) <= 31 && tx <= Visits(SenderId(t)) && (total == 32 || rx == tx == total == 0)
  {}

  // ----- The estimate against the truth -----------------------------------

  function SentIn(a: Ack): (r: int) {
    if a.tx.At? then a.tx.ns / SECOND else 0
  }

  /** Every ping carries the identifier of the second it was sent in. Pings may repeat, in any order. */
  predicate Honest(h: seq<Ack>) {
    forall i :: 0 <= i < |h| ==> 0 <= SentIn(h[i]) && h[i].id == SenderId(SentIn(h[i]))
  }

  predicate ReceivedIn(h: seq<Ack>, s: int) {
    exists i :: 0 <= i < |h| && SentIn(h[i]) == s
  }

  /** The truth: how many of the seconds `from`, ..., `from + n - 1` gave no ping. */
  function Missed(h: seq<Ack>, from: int, n: nat): (r: nat)
    ensures r <= n
  {
    if n == 0 then 0
    else Missed(h, from, n - 1) + (if ReceivedIn(h, from + n - 1) then 0 else 1)
  }

  /** One of the last 32 pings has the identifier of second `s`. */
  predicate Shown(h: seq<Ack>, s: int) {
    exists a :: a in Recent(h) && (s - SentIn(a)) % 255 == 0
  }

  /** Second `s` gave no ping, but a ping of another second shows its identifier. */
  predicate Hidden(h: seq<Ack>, s: int) {
    !ReceivedIn(h, s) && Shown(h, s)
  }

  /** Second `s` gave a ping, but the last 32 pings no longer show its identifier. */
  predicate Evicted(h: seq<Ack>, s: int) {
    ReceivedIn(h, s) && !Shown(h, s)
  }

  function CountHidden(h: seq<Ack>, from: int, n: nat): (r: nat) {
    if n == 0 then 0 else CountHidden(h, from, n - 1) + (if Hidden(h, from + n - 1) then 1 else 0)
  }

  function CountEvicted(h: seq<Ack>, from: int, n: nat): (r: nat) {
    if n == 0 then 0 else CountEvicted(h, from, n - 1) + (if Evicted(h, from + n - 1) then 1 else 0)
  }

  /** `loss` is the number of seconds of the window really missed, less those hidden, plus those evicted. */
  predicate Balanced(loss: nat, h: seq<Ack>, t: nat) {
    var k := Visits(SenderId(t));
    loss + CountHidden(h, t - k, k) == Missed(h, t - k, k) + CountEvicted(h, t - k, k)
  }

  /**
   `loss` is at most the number of seconds of the window really missed. It is that number exactly
   when no second of the window is hidden, as when no ping of the ring is older than 255 seconds.
   */
  predicate Sound(loss: nat, h: seq<Ack>, t: nat) {
    var k := Visits(SenderId(t));
    && loss <= Missed(h, t - k, k)
    && (loss == Missed(h, t - k, k) <==> forall s :: t - k <= s < t ==> !Hidden(h, s))
    && ((forall a :: a in Recent(h) ==> SentIn(a) >= t - 255) ==> loss == Missed(h, t - k, k))
  }

  lemma RecentIsFromHistory(h: seq<Ack>, a: Ack)
    requires a in Recent(h)
    ensures exists i :: 0 <= i < |h| && h[i] == a
  {
    var r := Recent(h);
    var i :| 0 <= i < |r| && r[i] == a;
    assert h[|h| - |r| + i] == a;
  }

  /** The ring has the identifier of a second exactly when one of the last 32 pings shows it. */
  lemma IdMeans(ring: Acks, slot: nat, h: seq<Ack>, s: nat)
    requires Agrees(ring, slot, h) && Honest(h)
    ensures HasId(SenderId(s), ring) <==> Shown(h, s)
  {
    if HasId(SenderId(s), ring) {
      var k :| 0 <= k < SLOTS && ring[k].id == SenderId(s);
      SlotContents(ring, slot, h, k);
      RecentIsFromHistory(h, ring[k]);
      SameIdIff(s, SentIn(ring[k]));
    }
    if Shown(h, s) {
      ShownIsInRing(ring, slot, h, s);
    }
  }

  lemma ShownIsInRing(ring: Acks, slot: nat, h: seq<Ack>, s: nat)
    requires Agrees(ring, slot, h) && Honest(h) && Shown(h, s)
    ensures HasId(SenderId(s), ring)
  {
    var a :| a in Recent(h) && (s - SentIn(a)) % 255 == 0;
    RecentIsFromHistory(h, a);
    SameIdIff(s, SentIn(a));
    RecentIsInRing(ring, slot, h, a);
  }

  lemma WindowMeans(ring: Acks, slot: nat, h: seq<Ack>, t: nat, from: nat, j: nat)
    requires Agrees(ring, slot, h) && Honest(h) && t >= 31
    requires from == t - Visits(SenderId(t)) && j < Visits(SenderId(t))
    ensures HasId(Window(SenderId(t))[j], ring) <==> Shown(h, from + j)
  {
    WindowIsRecentSeconds(t, j);
    IdMeans(ring, slot, h, from + j);
  }

  lemma {:induction false} Accounting(ids: seq<byte>, acks: Acks, h: seq<Ack>, from: int)
    requires forall j :: 0 <= j < |ids| ==> (HasId(ids[j], acks) <==> Shown(h, from + j))
    ensures CountMissing(ids, acks) + CountHidden(h, from, |ids|)
         == Missed(h, from, |ids|) + CountEvicted(h, from, |ids|)
  {
    if ids != [] {
      var rest := ids[..|ids| - 1];
      assert forall j :: 0 <= j < |rest| ==> rest[j] == ids[j];
      Accounting(rest, acks, h, from);
    }
  }

  /**
   What the count is worth, for any ring that agrees with its history, whatever was lost, repeated
   or reordered: it is the number of seconds really missed, less those hidden, plus those evicted.
   */
  lemma CountIsExact(ring: Acks, slot: nat, h: seq<Ack>, t: nat)
    requires Agrees(ring, slot, h) && Honest(h) && t >= 31
    ensures Balanced(CountMissing(Window(SenderId(t)), ring), h, t)
  {
    var ids, from := Window(SenderId(t)), t - Visits(SenderId(t));
    WholeWindowMeans(ring, slot, h, t, ids, from);
    Accounting(ids, ring, h, from);
  }

  lemma WholeWindowMeans(ring: Acks, slot: nat, h: seq<Ack>, t: nat, ids: seq<byte>, from: nat)
    requires Agrees(ring, slot, h) && Honest(h) && t >= 31
    requires ids == Window(SenderId(t)) && from == t - Visits(SenderId(t))
    ensures forall j :: 0 <= j < |ids| ==> (HasId(ids[j], ring) <==> Shown(h, from + j))
  {
    forall j | 0 <= j < |ids| ensures HasId(ids[j], ring) <==> Shown(h, from + j) {
      WindowMeans(ring, slot, h, t, from, j);
    }
  }

  /** The loss on reception, once 32 pings have come. */
  lemma RxLossIsExact(ring: Acks, slot: nat, h: seq<Ack>, rxAcks: Acks, t: nat)
    requires Agrees(ring, slot, h) && Honest(h) && |h| >= SLOTS && t >= 31
    ensures Loss(t, rxAcks, ring).2 == 32 && Balanced(Loss(t, rxAcks, ring).0, h, t)
  {
    ZeroIdIff(ring, slot, h);
    CountIsExact(ring, slot, h, t);
  }

  /** The loss on transmission is the same count over the peer's ring, however few pings the peer has. */
  lemma TxLossIsExact(ring: Acks, rxAcks: Acks, slot: nat, h: seq<Ack>, t: nat)
    requires Agrees(rxAcks, slot, h) && Honest(h) && !HasId(0, ring) && t >= 31
    ensures Balanced(Loss(t, rxAcks, ring).1, h, t)
  {
    CountIsExact(rxAcks, slot, h, t);
  }

  /** So the count exceeds the truth exactly when more seconds are evicted than hidden. */
  lemma ExceedsIff(loss: nat, h: seq<Ack>, t: nat)
    requires Balanced(loss, h, t)
    ensures var k := Visits(SenderId(t));
            loss > Missed(h, t - k, k) <==> CountEvicted(h, t - k, k) > CountHidden(h, t - k, k)
  {}

  // ----- Pings in the order they were sent --------------------------------

  /** Pings sent in different seconds, none after `t`, that arrive in the order they were sent. */
  predicate Scheduled(h: seq<Ack>, t: nat) {
    && Honest(h)
    && (forall i :: 0 <= i < |h| ==> SentIn(h[i]) <= t)
    && (forall i, j :: 0 <= i < j < |h| ==> SentIn(h[i]) < SentIn(h[j]))
  }

  lemma {:induction false} SecondsApart(h: seq<Ack>, t: nat, i: nat, j: nat)
    requires Scheduled(h, t) && i <= j < |h|
    ensures SentIn(h[j]) - SentIn(h[i]) >= j - i
  {
    if i < j {
      SecondsApart(h, t, i, j - 1);
    }
  }

  /** In order, a ping of the last 31 seconds is still among the last 32. */
  lemma NoneEvicted(h: seq<Ack>, t: nat, s: nat)
    requires Scheduled(h, t) && t < s + SLOTS
    ensures !Evicted(h, s)
  {
    if ReceivedIn(h, s) {
      var i :| 0 <= i < |h| && SentIn(h[i]) == s;
      SecondsApart(h, t, i, |h| - 1);
      LateIsRecent(h, i);
      ShowsItself(h, h[i]);
    }
  }

  lemma LateIsRecent(h: seq<Ack>, i: nat)
    requires i < |h| <= i + SLOTS
    ensures h[i] in Recent(h)
  {
    assert Recent(h)[i - (|h| - |Recent(h)|)] == h[i];
  }

  lemma ShowsItself(h: seq<Ack>, a: Ack)
    requires a in Recent(h)
    ensures Shown(h, SentIn(a))
  {
    assert (SentIn(a) - SentIn(a)) % 255 == 0;
  }

  lemma {:induction false} NoneEvictedCount(h: seq<Ack>, t: nat, from: nat, n: nat)
    requires Scheduled(h, t) && t < from + SLOTS
    ensures CountEvicted(h, from, n) == 0
  {
    if n > 0 {
      NoneEvictedCount(h, t, from, n - 1);
      NoneEvicted(h, t, from + n - 1);
    }
  }

  lemma {:induction false} NoneHiddenIff(h: seq<Ack>, from: int, n: nat)
    ensures CountHidden(h, from, n) == 0 <==> forall s :: from <= s < from + n ==> !Hidden(h, s)
  {
    if n > 0 {
      NoneHiddenIff(h, from, n - 1);
      assert (forall s :: from <= s < from + n ==> !Hidden(h, s)) <==>
             (forall s :: from <= s < from + n - 1 ==> !Hidden(h, s)) && !Hidden(h, from + n - 1);
    }
  }

  /** In order, no ping of the ring older than 255 seconds: then no second of the window is hidden. */
  lemma FreshRingHidesNothing(h: seq<Ack>, t: nat, s: nat)
    requires Scheduled(h, t) && s < t < s + SLOTS && forall a :: a in Recent(h) ==> SentIn(a) >= t - 255
    ensures !Hidden(h, s)
  {
    if Shown(h, s) {
      var a :| a in Recent(h) && (s - SentIn(a)) % 255 == 0;
      RecentIsFromHistory(h, a);
      SameIdIff(s, SentIn(a));
    }
  }

  /** In order nothing is evicted, so the count never exceeds the truth. */
  lemma CountAgainstTruth(ring: Acks, slot: nat, h: seq<Ack>, t: nat)
    requires Agrees(ring, slot, h) && Scheduled(h, t) && t >= 31
    ensures Sound(CountMissing(Window(SenderId(t)), ring), h, t)
  {
    CountIsExact(ring, slot, h, t);
    InOrderIsSound(CountMissing(Window(SenderId(t)), ring), h, t);
  }

  lemma InOrderIsSound(loss: nat, h: seq<Ack>, t: nat)
    requires Scheduled(h, t) && t >= 31 && Balanced(loss, h, t)
    ensures Sound(loss, h, t)
  {
    var k := Visits(SenderId(t));
    NoneEvictedCount(h, t, t - k, k);
    NoneHiddenIff(h, t - k, k);
    if forall a :: a in Recent(h) ==> SentIn(a) >= t - 255 {
      forall s | t - k <= s < t ensures !Hidden(h, s) {
        FreshRingHidesNothing(h, t, s);
      }
    }
  }

  /** The loss on reception in order, once 32 pings have come. */
  lemma RxLossIsSound(ring: Acks, slot: nat, h: seq<Ack>, rxAcks: Acks, t: nat)
    requires Agrees(ring, slot, h) && Scheduled(h, t) && |h| >= SLOTS && t >= 31
    ensures Loss(t, rxAcks, ring).2 == 32 && Sound(Loss(t, rxAcks, ring).0, h, t)
  {
    ZeroIdIff(ring, slot, h);
    CountAgainstTruth(ring, slot, h, t);
  }

  /** The loss on transmission in order, however few pings the peer has. */
  lemma TxLossIsSound(ring: Acks, rxAcks: Acks, slot: nat, h: seq<Ack>, t: nat)
    requires Agrees(rxAcks, slot, h) && Scheduled(h, t) && !HasId(0, ring) && t >= 31
    ensures Sound(Loss(t, rxAcks, ring).1, h, t)
  {
    CountAgainstTruth(rxAcks, slot, h, t);
  }

  // ----- Both errors are real ---------------------------------------------

  function PingOf(s: nat): (r: Ack) {
    Ack(SenderId(s), At(s * SECOND), At(s * SECOND))
  }

  lemma PingOfIsHonest(s: nat)
    ensures SentIn(PingOf(s)) == s
  {
    assert s * SECOND / SECOND == s;
  }

  lemma {:induction false} CountIsPrefix(ids: seq<byte>, acks: Acks, d: nat)
    requires d <= |ids| && forall j :: 0 <= j < |ids| ==> (HasId(ids[j], acks) <==> j >= d)
    ensures CountMissing(ids, acks) == d
  {
    if ids != [] {
      CountIsPrefix(ids[..|ids| - 1], acks, if d < |ids| then d else d - 1);
    }
  }

  lemma {:induction false} MissedBut(h: seq<Ack>, from: int, n: nat, x: int)
    requires forall s :: from <= s < from + n ==> (ReceivedIn(h, s) <==> s == x)
    ensures Missed(h, from, n) == if from <= x < from + n then n - 1 else n
  {
    if n > 0 {
      MissedBut(h, from, n - 1, x);
    }
  }

  lemma {:induction false} NoneMissed(h: seq<Ack>, from: int, n: nat)
    requires forall s :: from <= s < from + n ==> ReceivedIn(h, s)
    ensures Missed(h, from, n) == 0
  {
    if n > 0 {
      NoneMissed(h, from, n - 1);
    }
  }

  /** One ping in each of 32 seconds from `u`, and then the last of them 32 times more. */
  function Repeated(u: nat): (h: seq<Ack>)
    ensures |h| == 64
  {
    seq(64, i requires 0 <= i < 64 => PingOf(if i < 31 then u + i else u + 31))
  }

  lemma RepeatedSeconds(u: nat)
    ensures Honest(Repeated(u))
    ensures forall i :: 0 <= i < 64 ==> SentIn(Repeated(u)[i]) == if i < 31 then u + i else u + 31
    ensures forall a :: a in Recent(Repeated(u)) ==> SentIn(a) == u + 31
  {
    forall i | 0 <= i < 64
      ensures SentIn(Repeated(u)[i]) == if i < 31 then u + i else u + 31
      ensures Repeated(u)[i].id == SenderId(SentIn(Repeated(u)[i]))
    {
      PingOfIsHonest(if i < 31 then u + i else u + 31);
    }
  }

  /** Every second before the last gave a ping, but only the last is shown. */
  lemma RepeatedMeans(u: nat, s: nat)
    requires u <= s < u + 31
    ensures ReceivedIn(Repeated(u), s) && !Shown(Repeated(u), s)
  {
    RepeatedSeconds(u);
    assert SentIn(Repeated(u)[s - u]) == s;
    SameIdIff(s, u + 31);
  }

  lemma RepeatedCounts(ring: Acks, ids: seq<byte>, u: nat, from: nat)
    requires u <= from && from + |ids| == u + 31
    requires forall j :: 0 <= j < |ids| ==> (HasId(ids[j], ring) <==> Shown(Repeated(u), from + j))
    ensures Missed(Repeated(u), from, |ids|) == 0 && CountMissing(ids, ring) == |ids|
  {
    forall s | from <= s < from + |ids| ensures ReceivedIn(Repeated(u), s) && !Shown(Repeated(u), s) {
      RepeatedMeans(u, s);
    }
    NoneMissed(Repeated(u), from, |ids|);
    CountIsPrefix(ids, ring, |ids|);
  }

  /** Repeated packets push the others out of the ring: everything is reported lost, although nothing was. */
  lemma RepetitionLooksLikeLoss(ring: Acks, slot: nat, rxAcks: Acks, u: nat)
    requires Agrees(ring, slot, Repeated(u))
    ensures var t := u + 31; var k := Visits(SenderId(t));
            Honest(Repeated(u)) && Loss(t, rxAcks, ring).0 == k && Missed(Repeated(u), t - k, k) == 0
  {
    var t := u + 31;
    var ids, from := Window(SenderId(t)), t - Visits(SenderId(t));
    assert Honest(Repeated(u)) && !HasId(0, ring) by {
      RepeatedSeconds(u);
      ZeroIdIff(ring, slot, Repeated(u));
    }
    WholeWindowMeans(ring, slot, Repeated(u), t, ids, from);
    RepeatedCounts(ring, ids, u, from);
  }

  /** Pings in 28 consecutive seconds from `u`, then four more 57 seconds apart: no gap of a minute. */
  function SparseSecond(u: nat, i: nat): (r: nat) {
    if i < 28 then u + i else u + 27 + 57 * (i - 27)
  }

  function Sparse(u: nat): (h: seq<Ack>)
    ensures |h| == SLOTS
  {
    seq(SLOTS, i requires 0 <= i < SLOTS => PingOf(SparseSecond(u, i)))
  }

  lemma SparseSeconds(u: nat)
    ensures Scheduled(Sparse(u), u + 283)
    ensures forall i :: 0 <= i < SLOTS ==> SentIn(Sparse(u)[i]) == SparseSecond(u, i)
  {
    forall i | 0 <= i < SLOTS ensures SentIn(Sparse(u)[i]) == SparseSecond(u, i) {
      PingOfIsHonest(SparseSecond(u, i));
    }
  }

  /** At second `u + 283` only one second of the window gave a ping, but 28 of them are shown. */
  lemma SparseMeans(u: nat, s: nat)
    requires u + 252 <= s < u + 283
    ensures Shown(Sparse(u), s) <==> s >= u + 255
    ensures ReceivedIn(Sparse(u), s) <==> s == u + 255
  {
    var h := Sparse(u);
    SparseSeconds(u);
    if s >= u + 255 {
      var a := h[s - u - 255];
      assert a in Recent(h) && SentIn(a) == s - 255;
      assert s - SentIn(a) == 255 && (s - SentIn(a)) % 255 == 0;
    } else if Shown(h, s) {
      var a :| a in Recent(h) && (s - SentIn(a)) % 255 == 0;
      RecentIsFromHistory(h, a);
      SameIdIff(s, SentIn(a));
    }
    if s == u + 255 {
      assert SentIn(h[31]) == s;
    }
  }

  /** On such a session 3 of 31 (or 2 of 30) are reported lost, although 30 (29) were missed. */
  lemma SparseLooksHealthy(ring: Acks, slot: nat, rxAcks: Acks, u: nat)
    requires Agrees(ring, slot, Sparse(u))
    ensures var t := u + 283; var k := Visits(SenderId(t));
            Loss(t, rxAcks, ring).0 == k - 28 && Missed(Sparse(u), t - k, k) == k - 1
  {
    var t, h := u + 283, Sparse(u);
    var k := Visits(SenderId(t));
    SparseSeconds(u);
    ZeroIdIff(ring, slot, h);
    var ids := Window(SenderId(t));
    WholeWindowMeans(ring, slot, h, t, ids, t - k);
    forall j | 0 <= j < k ensures HasId(ids[j], ring) <==> j >= k - 28 {
      SparseMeans(u, t - k + j);
    }
    CountIsPrefix(ids, ring, k - 28);
    forall s | t - k <= s < t ensures ReceivedIn(h, s) <==> s == u + 255 {
      SparseMeans(u, s);
    }
    MissedBut(h, t - k, k, u + 255);
  }

  /** One ping a second for 32 seconds from second `u`. */
  function Burst(u: nat): (h: seq<Ack>)
    ensures |h| == SLOTS
  {
    seq(SLOTS, i requires 0 <= i < SLOTS => PingOf(u + i))
  }

  lemma BurstSeconds(u: nat)
    ensures Honest(Burst(u))
    ensures forall i :: 0 <= i < SLOTS ==> SentIn(Burst(u)[i]) == u + i
  {
    forall i | 0 <= i < SLOTS
      ensures SentIn(Burst(u)[i]) == u + i && Burst(u)[i].id == SenderId(u + i)
    {
      PingOfIsHonest(u + i);
    }
  }

  lemma BurstMeans(u: nat, s: nat)
    requires u + 255 <= s < u + 287
    ensures Shown(Burst(u), s) && !ReceivedIn(Burst(u), s)
  {
    BurstSeconds(u);
    var a := Burst(u)[s - u - 255];
    assert a in Recent(Burst(u)) && s - SentIn(a) == 255 && (s - SentIn(a)) % 255 == 0;
  }

  /**
   A remark about the function alone, since the collector has long removed so silent a session:
   255 seconds after 32 pings no loss at all is counted, although every second was missed.
   */
  lemma SilenceLooksPerfect(ring: Acks, slot: nat, rxAcks: Acks, u: nat)
    requires Agrees(ring, slot, Burst(u))
    ensures var t := u + 287; var k := Visits(SenderId(t));
            Loss(t, rxAcks, ring).0 == 0 && Missed(Burst(u), t - k, k) == k
  {
    var t, h := u + 287, Burst(u);
    var k := Visits(SenderId(t));
    BurstSeconds(u);
    ZeroIdIff(ring, slot, h);
    forall s | t - k <= s < t ensures Shown(h, s) && !ReceivedIn(h, s) {
      BurstMeans(u, s);
    }
    WholeWindowMeans(ring, slot, h, t, Window(SenderId(t)), t - k);
    CountIsPrefix(Window(SenderId(t)), ring, 0);
    MissedBut(h, t - k, k, t);
  }

  // ----- Latency ----------------------------------------------------------

  const DAY := 24 * 60 * MINUTE

  /** An acknowledgement of a ping that was sent less than a day ago and did arrive. */
  predicate Usable(a: Ack, now: int) {
    a.rx.At? && a.tx.At? && now - a.tx.ns < DAY
  }

  /** The latency of the most recently sent of the pings that the peer acknowledges; 0 if there is none. */
  method TxLatency(now: int, acks: Acks) returns (latency: int)
    ensures (forall i :: 0 <= i < SLOTS ==> !Usable(acks[i], now)) ==> latency == 0
    ensures (exists i :: 0 <= i < SLOTS && Usable(acks[i], now)) ==>
              exists i :: 0 <= i < SLOTS && Usable(acks[i], now) && latency == acks[i].rx.ns - acks[i].tx.ns
                && forall k :: 0 <= k < SLOTS && Usable(acks[k], now) ==> acks[k].tx.ns <= acks[i].tx.ns
  {
    latency := 0;
    var latest := DAY;
    ghost var best := -1;
    for n := 0 to SLOTS
      invariant -1 <= best < n && latest <= DAY
      invariant best == -1 ==> latency == 0 && latest == DAY && forall k :: 0 <= k < n ==> !Usable(acks[k], now)
      invariant best >= 0 ==> Usable(acks[best], now) && latency == acks[best].rx.ns - acks[best].tx.ns
      invariant best >= 0 ==> latest == now - acks[best].tx.ns
      invariant forall k :: 0 <= k < n && Usable(acks[k], now) ==> best >= 0 && acks[k].tx.ns <= acks[best].tx.ns
    {
      var v := acks[n];
      // The age of the zero time, however cut off, is more than a day.
      if v.rx.At? && v.tx.At? && now - v.tx.ns < latest {
        latency := v.rx.ns - v.tx.ns;
        latest := now - v.tx.ns;
        best := n;
      }
    }
  }
}
