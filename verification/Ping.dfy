/** Timing packets and the ring of received pings (main.go). */
module Ping {
  import opened Bytes

  /** A `time.Time`: the zero value, or nanoseconds since 1970. */
  datatype Time = Zero | At(ns: int)

  const SECOND := 1_000_000_000
  const MINUTE := 60 * SECOND

  /** `pingInfo`: a ping as its receiver remembers it. */
  datatype Ack = Ack(id: byte, tx: Time, rx: Time)

  const NO_ACK := Ack(0, Zero, Zero)
  const SLOTS := 32

  /** `[32]pingInfo`, which Go copies by value. */
  type Acks = a: seq<Ack> | |a| == SLOTS witness seq(SLOTS, _ => NO_ACK)

  function EmptyRing(): (r: Acks) {
    seq(SLOTS, _ => NO_ACK)
  }

  /** The slot after `slot` in the ring. */
  function NextSlot(slot: nat): (r: nat)
    requires slot < SLOTS
    ensures r < SLOTS
  {
    if slot != 31 then slot + 1 else 0
  }

  /** Ping number `n`, counting from 1, belongs in slot `n % 32`. */
  lemma NextSlotIsModulo(n: nat)
    ensures NextSlot(n % SLOTS) == (n + 1) % SLOTS
  {}

  /**
   The ring agrees with the history `h` of accepted pings: the last 32 of them are each in their
   slot, and a slot that no ping has reached is still zero.
   */
  predicate Agrees(ring: Acks, slot: nat, h: seq<Ack>) {
    && slot == |h| % SLOTS
    && (forall n :: 1 <= n <= |h| && |h| < n + SLOTS ==> ring[n % SLOTS] == h[n - 1])
    && (forall k :: 0 <= k < SLOTS && (k > |h| || (k == 0 && |h| < SLOTS)) ==> ring[k] == NO_ACK)
  }

  /** The most recent pings, at most 32. */
  function Recent(h: seq<Ack>): (r: seq<Ack>)
    ensures |r| <= SLOTS && |r| <= |h|
  {
    if |h| <= SLOTS then h else h[|h| - SLOTS..]
  }

  lemma EmptyAgrees()
    ensures Agrees(EmptyRing(), 0, [])
  {}

  lemma OtherSlot(n: nat, last: nat)
    requires n < last < n + SLOTS
    ensures n % SLOTS != last % SLOTS
  {}

  /** Recording a ping in the next slot keeps the agreement, with the ping at the end of the history. */
  lemma RecordAgrees(ring: Acks, slot: nat, h: seq<Ack>, a: Ack)
    requires Agrees(ring, slot, h)
    ensures Agrees(ring[NextSlot(slot) := a], NextSlot(slot), h + [a])
  {
    NextSlotIsModulo(|h|);
    var ring', h', last := ring[NextSlot(slot) := a], h + [a], |h| + 1;
    forall n | 1 <= n <= last && last < n + SLOTS ensures ring'[n % SLOTS] == h'[n - 1] {
      if n < last {
        OtherSlot(n, last);
      }
    }
  }

  lemma RecentIsInRing(ring: Acks, slot: nat, h: seq<Ack>, a: Ack)
    requires Agrees(ring, slot, h) && a in Recent(h)
    ensures exists k :: 0 <= k < SLOTS && ring[k] == a
  {
    var r := Recent(h);
    var i :| 0 <= i < |r| && r[i] == a;
    var n := |h| - |r| + i + 1;
    assert h[n - 1] == a;
    assert ring[n % SLOTS] == h[n - 1];
  }

  /** Each slot holds a recent ping, or nothing while fewer than 32 have come. */
  lemma SlotContents(ring: Acks, slot: nat, h: seq<Ack>, k: nat)
    requires Agrees(ring, slot, h) && k < SLOTS
    ensures ring[k] in Recent(h) || (ring[k] == NO_ACK && |h| < SLOTS)
  {
    if !(k > |h| || (k == 0 && |h| < SLOTS)) {
      var n := LastIn(|h|, k);
      assert ring[n % SLOTS] == h[n - 1];
      assert Recent(h)[n - 1 - (|h| - |Recent(h)|)] == h[n - 1];
    }
  }

  /** The ring holds exactly the most recent pings, besides zero entries while fewer than 32 have come. */
  lemma HoldsRecent(ring: Acks, slot: nat, h: seq<Ack>, a: Ack)
    requires Agrees(ring, slot, h)
    ensures a in ring <==> a in Recent(h) || (a == NO_ACK && |h| < SLOTS)
  {
    if a in Recent(h) {
      RecentIsInRing(ring, slot, h, a);
    }
    if a == NO_ACK && |h| < SLOTS {
      assert ring[0] == NO_ACK;
    }
    if a in ring {
      var k :| 0 <= k < SLOTS && ring[k] == a;
      SlotContents(ring, slot, h, k);
    }
  }

  /** The number of the last ping that went to slot `k`. */
  lemma LastIn(n: nat, k: nat) returns (last: nat)
    requires k < SLOTS && k <= n && (k == 0 ==> n >= SLOTS)
    ensures 1 <= last <= n < last + SLOTS && last % SLOTS == k
  {
    last := n - (n - k) % SLOTS;
    var q, r := (n - k) / SLOTS, (n - k) % SLOTS;
    assert last == k + SLOTS * q;
    if q == 0 {
      assert last == k;
    }
  }

  /** `dumbLastAckSearchForID`. */
  predicate HasId(id: byte, acks: Acks) {
    exists k :: 0 <= k < SLOTS && acks[k].id == id
  }

  method SearchForId(id: byte, acks: Acks) returns (found: bool)
    ensures found == HasId(id, acks)
  {
    for i := 0 to SLOTS
      invariant forall k :: 0 <= k < i ==> acks[k].id != id
    {
      if acks[i].id == id {
        return true;
      }
    }
    return false;
  }

  /** With non-zero identifiers, an entry with identifier 0 is there exactly while fewer than 32 pings have come. */
  lemma ZeroIdIff(ring: Acks, slot: nat, h: seq<Ack>)
    requires Agrees(ring, slot, h)
    requires forall a :: a in h ==> a.id != 0
    ensures HasId(0, ring) <==> |h| < SLOTS
  {
    if |h| < SLOTS {
      assert ring[0].id == 0;
    } else {
      forall k | 0 <= k < SLOTS ensures ring[k].id != 0 {
        SlotContents(ring, slot, h, k);
      }
    }
  }
}
