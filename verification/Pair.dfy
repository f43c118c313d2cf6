/**
 A client and its server for one session, over a network that may lose, repeat and reorder
 packets but does not make them up. Clocks agree and do not go back.
 */
module Pair {
  import opened Bytes
  import opened Wrappers
  import opened Ping
  import opened Session
  import opened Lifecycle
  import Loss

  datatype End = Client | Server

  /** A packet under way. Not on the wire: `known`, how many pings its sender had recorded when it sent it. */
  datatype Letter = Letter(p: Packet, known: nat)

  /** The two ends, everything ever sent towards each of them, and the time. */
  datatype World = World(client: Agent, server: Agent, toClient: set<Letter>, toServer: set<Letter>, now: nat)

  /** Time passes; a packet sent at some time arrives; or a goroutine of one end goes on. */
  datatype Move =
    | Pass(d: nat)
    | Deliver(at: End, l: Letter, from: Addr, taken: bool)
    | Local(at: End, e: Event)

  function AgentAt(w: World, at: End): (r: Agent) {
    if at.Client? then w.client else w.server
  }

  function Other(at: End): (r: End) {
    if at.Client? then Server else Client
  }

  function Inbox(w: World, at: End): (r: set<Letter>) {
    if at.Client? then w.toClient else w.toServer
  }

  function Posted(out: seq<Packet>, known: nat): (r: set<Letter>) {
    set p | p in out :: Letter(p, known)
  }

  /** One end handles an event; what it sends may arrive at the other end from then on. */
  function Act(w: World, at: End, e: Event): (r: World) {
    var (a, out) := Lifecycle.Step(AgentAt(w, at), e, w.now);
    var posted := Posted(out, |a.received|);
    if at.Client? then w.(client := a, toServer := w.toServer + posted)
    else w.(server := a, toClient := w.toClient + posted)
  }

  function Step(w: World, m: Move): (r: World) {
    match m
    case Pass(d) => w.(now := w.now + d)
    case Deliver(at, l, from, taken) => if l in Inbox(w, at) then Act(w, at, Receive(l.p, from, taken)) else w
    case Local(at, e) => if e.Receive? then w else Act(w, at, e)
  }

  function Run(w: World, moves: seq<Move>): (r: World) {
    if moves == [] then w else Step(Run(w, moves[..|moves| - 1]), moves[|moves| - 1])
  }

  /** Both ends after the invitation, before any packet. */
  function Start(id: uint32, ip: int, asked: int, made: int, now: nat): (r: World) {
    World(Fresh(Invited(id, ip, made)), Fresh(Accepted(id, asked)), {}, {}, now)
  }

  // ----- The invariant ----------------------------------------------------

  /** The acknowledgement is empty, or names a ping that was sent, and arrived no earlier than that. */
  predicate AckOk(a: Ack, sent: set<Letter>, now: nat) {
    a.id == 0 || ((exists q :: q in sent && IsPing(q.p) && q.p.id == a.id && q.p.tx == a.tx)
                  && a.tx.At? && a.rx.At? && a.tx.ns <= a.rx.ns <= now)
  }

  predicate AcksOk(acks: Acks, sent: set<Letter>, now: nat) {
    forall k :: 0 <= k < SLOTS ==> AckOk(acks[k], sent, now)
  }

  /** The ring is the one after the first `n` pings of the history. */
  predicate RingAfter(acks: Acks, n: nat, h: seq<Ack>) {
    n <= |h| && Agrees(acks, n % SLOTS, h[..n])
  }

  /** A packet on its way from `peer` to an end that has sent `sent`. */
  predicate LetterOk(l: Letter, peer: Agent, sent: set<Letter>, now: nat) {
    IsHandshake(l.p) ||
    (IsPing(l.p) && peer.started > 0 && TimeOk(l.p.id, l.p.tx, now) && AcksOk(l.p.lastAcks, sent, now)
     && RingAfter(l.p.lastAcks, l.known, peer.received))
  }

  predicate InboxOk(inbox: set<Letter>, peer: Agent, sent: set<Letter>, now: nat) {
    forall l :: l in inbox ==> LetterOk(l, peer, sent, now)
  }

  lemma RingAfterGrows(acks: Acks, n: nat, h: seq<Ack>, more: seq<Ack>)
    requires RingAfter(acks, n, h) && h <= more
    ensures RingAfter(acks, n, more)
  {
    assert more[..n] == h[..n];
  }

  lemma RingIsAfterAll(acks: Acks, slot: nat, h: seq<Ack>)
    requires Agrees(acks, slot, h)
    ensures RingAfter(acks, |h|, h)
  {
    assert h[..|h|] == h;
  }

  /** Sent by now, with the identifier of the second of sending. */
  predicate TimeOk(id: byte, tx: Time, now: nat) {
    tx.At? && 0 <= tx.ns <= now && id == Loss.SenderId(tx.ns / SECOND)
  }

  predicate HistoryOk(h: seq<Ack>, now: nat) {
    forall i :: 0 <= i < |h| ==> TimeOk(h[i].id, h[i].tx, now)
  }

  /** What holds at one end; `inbox` is what was sent to it and `sent` what it sent. */
  predicate EndInv(me: Agent, peer: Agent, inbox: set<Letter>, sent: set<Letter>, now: nat) {
    && Lifecycle.Inv(me)
    && InboxOk(inbox, peer, sent, now)
    && AcksOk(me.s.lastAcks, inbox, now)
    && HistoryOk(me.received, now)
    && (me.received != [] ==> peer.s.udpActivated)
    && (me.s.lastRXPing.Some? ==> exists l :: l in inbox && IsPing(l.p) && l.p == me.s.lastRXPing.value)
    && (me.received != [] ==> me.s.lastRXPing.Some?)
  }

  /** The server is activated first, and only it ever sends a handshake towards the client. */
  predicate Order(w: World) {
    && !w.server.s.madeByMe
    && (w.client.s.udpActivated ==> w.server.s.udpActivated)
    && (forall l :: l in w.toClient && IsHandshake(l.p) ==> w.server.s.udpActivated)
  }

  predicate Inv(w: World) {
    && EndInv(w.client, w.server, w.toClient, w.toServer, w.now)
    && EndInv(w.server, w.client, w.toServer, w.toClient, w.now)
    && Order(w)
  }

  // ----- Steps keep it ----------------------------------------------------

  predicate Possible(e: Event, inbox: set<Letter>) {
    e.Receive? ==> exists l :: l in inbox && l.p == e.p
  }

  lemma AcksGrow(acks: Acks, sent: set<Letter>, now: nat, more: set<Letter>, later: nat)
    requires AcksOk(acks, sent, now) && sent <= more && now <= later
    ensures AcksOk(acks, more, later)
  {}

  lemma InboxGrows(inbox: set<Letter>, peer: Agent, sent: set<Letter>, now: nat,
                   peer': Agent, more: set<Letter>, later: nat)
    requires InboxOk(inbox, peer, sent, now)
    requires (peer.started > 0 ==> peer'.started > 0) && peer.received <= peer'.received
    requires sent <= more && now <= later
    ensures InboxOk(inbox, peer', more, later)
  {
    forall l | l in inbox ensures LetterOk(l, peer', more, later) {
      if !IsHandshake(l.p) {
        AcksGrow(l.p.lastAcks, sent, now, more, later);
        RingAfterGrows(l.p.lastAcks, l.known, peer.received, peer'.received);
      }
    }
  }

  /** A recorded ping keeps the ring's acknowledgements good. */
  lemma RingStays(me: Agent, peer: Agent, inbox: set<Letter>, sent: set<Letter>, now: nat, l: Letter, from: Addr)
    requires EndInv(me, peer, inbox, sent, now) && l in inbox && Accepts(me.s, l.p)
    ensures AcksOk(Record(me.s, l.p, from, now).lastAcks, inbox, now)
    ensures TimeOk(l.p.id, l.p.tx, now) && peer.started > 0
  {
    assert LetterOk(l, peer, sent, now);
  }

  lemma MeKeeps(me: Agent, peer: Agent, inbox: set<Letter>, sent: set<Letter>, now: nat, e: Event)
    requires EndInv(me, peer, inbox, sent, now) && Lifecycle.Inv(peer) && Possible(e, inbox)
    ensures var (me', out) := Lifecycle.Step(me, e, now);
            EndInv(me', peer, inbox, sent + Posted(out, |me'.received|), now)
  {
    var (me', out) := Lifecycle.Step(me, e, now);
    StepInv(me, e, now);
    InboxGrows(inbox, peer, sent, now, peer, sent + Posted(out, |me'.received|), now);
    if e.Receive? && Accepts(me.s, e.p) {
      var l :| l in inbox && l.p == e.p;
      RingStays(me, peer, inbox, sent, now, l, e.from);
    }
  }

  /** What an end sends is well formed. */
  lemma SentIsOk(me: Agent, peer: Agent, inbox: set<Letter>, sent: set<Letter>, now: nat, e: Event)
    requires EndInv(me, peer, inbox, sent, now) && Possible(e, inbox)
    ensures var (me', out) := Lifecycle.Step(me, e, now);
            InboxOk(Posted(out, |me'.received|), me', inbox, now)
  {
    RingIsAfterAll(me.s.lastAcks, me.s.nextAckSlot, me.received);
  }

  lemma PeerKeeps(me: Agent, peer: Agent, inbox: set<Letter>, sent: set<Letter>, now: nat, e: Event)
    requires EndInv(me, peer, inbox, sent, now) && EndInv(peer, me, sent, inbox, now) && Possible(e, inbox)
    ensures var (me', out) := Lifecycle.Step(me, e, now);
            EndInv(peer, me', sent + Posted(out, |me'.received|), inbox, now)
  {
    var (me', out) := Lifecycle.Step(me, e, now);
    StepKeeps(me, e, now);
    SentIsOk(me, peer, inbox, sent, now, e);
    InboxGrows(sent, me, inbox, now, me', inbox, now);
    AcksGrow(peer.s.lastAcks, sent, now, sent + Posted(out, |me'.received|), now);
  }

  lemma OrderKeeps(w: World, at: End, e: Event)
    requires Inv(w) && Possible(e, Inbox(w, at))
    ensures Order(Act(w, at, e))
  {
    StepKeeps(AgentAt(w, at), e, w.now);
  }

  lemma ActInv(w: World, at: End, e: Event)
    requires Inv(w) && Possible(e, Inbox(w, at))
    ensures Inv(Act(w, at, e))
  {
    OrderKeeps(w, at, e);
    match at
    case Client =>
      MeKeeps(w.client, w.server, w.toClient, w.toServer, w.now, e);
      PeerKeeps(w.client, w.server, w.toClient, w.toServer, w.now, e);
    case Server =>
      MeKeeps(w.server, w.client, w.toServer, w.toClient, w.now, e);
      PeerKeeps(w.server, w.client, w.toServer, w.toClient, w.now, e);
  }

  lemma PassInv(w: World, d: nat)
    requires Inv(w)
    ensures Inv(w.(now := w.now + d))
  {
    var later := w.now + d;
    InboxGrows(w.toClient, w.server, w.toServer, w.now, w.server, w.toServer, later);
    InboxGrows(w.toServer, w.client, w.toClient, w.now, w.client, w.toClient, later);
    AcksGrow(w.client.s.lastAcks, w.toClient, w.now, w.toClient, later);
    AcksGrow(w.server.s.lastAcks, w.toServer, w.now, w.toServer, later);
  }

  lemma StepInvariant(w: World, m: Move)
    requires Inv(w)
    ensures Inv(Step(w, m))
  {
    match m
    case Pass(d) => PassInv(w, d);
    case Deliver(at, l, from, taken) =>
      if l in Inbox(w, at) {
        ActInv(w, at, Receive(l.p, from, taken));
      }
    case Local(at, e) =>
      if !e.Receive? {
        ActInv(w, at, e);
      }
  }

  lemma StartInv(id: uint32, ip: int, asked: int, made: int, now: nat)
    ensures Inv(Start(id, ip, asked, made, now))
  {
    FreshInv(Invited(id, ip, made), id, ip, made);
    FreshInv(Accepted(id, asked), id, ip, asked);
  }

  lemma {:induction false} RunInvariant(w: World, moves: seq<Move>)
    requires Inv(w)
    ensures Inv(Run(w, moves))
  {
    if moves != [] {
      RunInvariant(w, moves[..|moves| - 1]);
      StepInvariant(Run(w, moves[..|moves| - 1]), moves[|moves| - 1]);
    }
  }

  // ----- Safety of all runs -----------------------------------------------

  /** In every run the client is activated only after the server, and no ring takes a ping before both are. */
  lemma ActivationOrder(id: uint32, ip: int, asked: int, made: int, now: nat, moves: seq<Move>)
    ensures var w := Run(Start(id, ip, asked, made, now), moves);
            (w.client.s.udpActivated ==> w.server.s.udpActivated) &&
            (w.client.received != [] || w.server.received != [] ==>
               w.client.s.udpActivated && w.server.s.udpActivated)
  {
    StartInv(id, ip, asked, made, now);
    RunInvariant(Start(id, ip, asked, made, now), moves);
  }

  /** In every run the two ends together echo at most two handshakes and start at most one sender each. */
  lemma EchoesAreBounded(id: uint32, ip: int, asked: int, made: int, now: nat, moves: seq<Move>)
    ensures var w := Run(Start(id, ip, asked, made, now), moves);
            w.client.echoes + w.server.echoes <= 2 && w.client.echoes <= w.server.echoes &&
            w.client.started <= 1 && w.server.started <= 1
  {
    StartInv(id, ip, asked, made, now);
    RunInvariant(Start(id, ip, asked, made, now), moves);
  }

  /**
   In every run, at either end: each non-empty acknowledgement in the last ping received names a
   ping that this end really sent, with its identifier and its sending time, and reports it
   received no earlier than it was sent.
   */
  lemma AcknowledgementsAreTrue(id: uint32, ip: int, asked: int, made: int, now: nat, moves: seq<Move>,
                                at: End, k: nat)
    requires k < SLOTS
    requires AgentAt(Run(Start(id, ip, asked, made, now), moves), at).s.lastRXPing.Some?
    ensures var w := Run(Start(id, ip, asked, made, now), moves);
            var a := AgentAt(w, at).s.lastRXPing.value.lastAcks[k];
            var sent := Inbox(w, Other(at));
            a.id != 0 ==> (exists q :: q in sent && IsPing(q.p) && q.p.id == a.id && q.p.tx == a.tx)
                          && a.tx.At? && a.rx.At? && a.tx.ns <= a.rx.ns <= w.now
  {
    StartInv(id, ip, asked, made, now);
    RunInvariant(Start(id, ip, asked, made, now), moves);
    var w := Run(Start(id, ip, asked, made, now), moves);
    var l :| l in Inbox(w, at) && IsPing(l.p) && l.p == AgentAt(w, at).s.lastRXPing.value;
    LettersAreOk(w, at, l);
    assert AckOk(l.p.lastAcks[k], Inbox(w, Other(at)), w.now);
  }

  lemma LettersAreOk(w: World, at: End, l: Letter)
    requires Inv(w) && l in Inbox(w, at)
    ensures LetterOk(l, AgentAt(w, Other(at)), Inbox(w, Other(at)), w.now)
  {}

  // ----- The estimator in all runs ----------------------------------------

  /** The second in which an end looks at its losses. */
  function Second(w: World): (r: nat) {
    w.now / SECOND
  }

  /** What an end reports: `getLoss` on the last ping it received and on its own ring. */
  function Reported(w: World, at: End): (r: (nat, nat, nat))
    requires AgentAt(w, at).s.lastRXPing.Some?
  {
    Loss.Loss(Second(w), AgentAt(w, at).s.lastRXPing.value.lastAcks, AgentAt(w, at).s.lastAcks)
  }

  lemma HistoryIsHonest(h: seq<Ack>, now: nat)
    requires HistoryOk(h, now)
    ensures Loss.Honest(h) && forall i :: 0 <= i < |h| ==> Loss.SentIn(h[i]) <= now / SECOND
  {
    forall i | 0 <= i < |h|
      ensures 0 <= Loss.SentIn(h[i]) <= now / SECOND && h[i].id == Loss.SenderId(Loss.SentIn(h[i]))
    {
      assert TimeOk(h[i].id, h[i].tx, now);
      QuotientsOrdered(h[i].tx.ns, now);
    }
  }

  lemma QuotientsOrdered(x: nat, y: nat)
    requires x <= y
    ensures x / SECOND <= y / SECOND
  {}

  /** With fewer than 32 pings an end reports nothing, with more it reports over 32. */
  lemma ReportsFrom32(w: World, at: End)
    requires Inv(w) && AgentAt(w, at).s.lastRXPing.Some?
    ensures HasId(0, AgentAt(w, at).s.lastAcks) <==> |AgentAt(w, at).received| < SLOTS
    ensures |AgentAt(w, at).received| < SLOTS ==> Reported(w, at) == (0, 0, 0)
  {
    var a := AgentAt(w, at);
    HistoryIsHonest(a.received, w.now);
    ZeroIdIff(a.s.lastAcks, a.s.nextAckSlot, a.received);
  }

  /**
   The loss on reception in every run, whatever the network loses, repeats or reorders: once an
   end has recorded 32 pings, what it reports is the number of seconds that gave it no ping, less
   those hidden by a ping of another second, plus those whose pings were pushed out of the ring.
   It is too high exactly when more seconds are pushed out than hidden.
   */
  lemma ReportedLossIsExact(id: uint32, ip: int, asked: int, made: int, now: nat, moves: seq<Move>, at: End)
    requires var w := Run(Start(id, ip, asked, made, now), moves);
             AgentAt(w, at).s.lastRXPing.Some? && |AgentAt(w, at).received| >= SLOTS && Second(w) >= 31
    ensures var w := Run(Start(id, ip, asked, made, now), moves);
            var h := AgentAt(w, at).received; var t := Second(w); var k := Loss.Visits(Loss.SenderId(t));
            Reported(w, at).2 == 32 && Loss.Balanced(Reported(w, at).0, h, t) &&
            (Reported(w, at).0 > Loss.Missed(h, t - k, k) <==>
             Loss.CountEvicted(h, t - k, k) > Loss.CountHidden(h, t - k, k))
  {
    StartInv(id, ip, asked, made, now);
    RunInvariant(Start(id, ip, asked, made, now), moves);
    var w := Run(Start(id, ip, asked, made, now), moves);
    RxLossInWorld(w, at);
    Loss.ExceedsIff(Reported(w, at).0, AgentAt(w, at).received, Second(w));
  }

  lemma RxLossInWorld(w: World, at: End)
    requires Inv(w) && AgentAt(w, at).s.lastRXPing.Some?
    requires |AgentAt(w, at).received| >= SLOTS && Second(w) >= 31
    ensures Reported(w, at).2 == 32 && Loss.Balanced(Reported(w, at).0, AgentAt(w, at).received, Second(w))
  {
    var a := AgentAt(w, at);
    HistoryIsHonest(a.received, w.now);
    Loss.RxLossIsExact(a.s.lastAcks, a.s.nextAckSlot, a.received, a.s.lastRXPing.value.lastAcks, Second(w));
  }

  /** The pings were sent in strictly increasing seconds. */
  predicate InOrder(h: seq<Ack>) {
    forall i, j :: 0 <= i < j < |h| ==> Loss.SentIn(h[i]) < Loss.SentIn(h[j])
  }

  /**
   In particular, when the pings came in the order they were sent: the loss is never too high, and
   right exactly when no second is hidden, as when no ping in the ring is older than 255 seconds.
   */
  lemma ReportedLossIsSound(id: uint32, ip: int, asked: int, made: int, now: nat, moves: seq<Move>, at: End)
    requires var w := Run(Start(id, ip, asked, made, now), moves);
             AgentAt(w, at).s.lastRXPing.Some? && |AgentAt(w, at).received| >= SLOTS && Second(w) >= 31
             && InOrder(AgentAt(w, at).received)
    ensures var w := Run(Start(id, ip, asked, made, now), moves);
            Loss.Sound(Reported(w, at).0, AgentAt(w, at).received, Second(w))
  {
    StartInv(id, ip, asked, made, now);
    RunInvariant(Start(id, ip, asked, made, now), moves);
    var w := Run(Start(id, ip, asked, made, now), moves);
    RxLossInWorld(w, at);
    HistoryIsHonest(AgentAt(w, at).received, w.now);
    Loss.InOrderIsSound(Reported(w, at).0, AgentAt(w, at).received, Second(w));
  }

  /** The packet last recorded at an end. */
  predicate IsLast(w: World, at: End, l: Letter) {
    l in Inbox(w, at) && AgentAt(w, at).s.lastRXPing == Some(l.p)
  }

  /**
   The loss on transmission in every run. The last ping received was sent when the peer had
   recorded `l.known` pings, and carries its ring of that moment; the loss reported is the number
   of seconds of which the peer then had no ping, less those hidden, plus those pushed out.
   */
  lemma ReportedTxLossIsExact(id: uint32, ip: int, asked: int, made: int, now: nat, moves: seq<Move>, at: End)
    requires var w := Run(Start(id, ip, asked, made, now), moves);
             AgentAt(w, at).s.lastRXPing.Some? && |AgentAt(w, at).received| >= SLOTS && Second(w) >= 31
    ensures var w := Run(Start(id, ip, asked, made, now), moves); var h := AgentAt(w, Other(at)).received;
            exists l :: IsLast(w, at, l) && RingAfter(l.p.lastAcks, l.known, h)
              && Loss.Balanced(Reported(w, at).1, h[..l.known], Second(w))
  {
    StartInv(id, ip, asked, made, now);
    RunInvariant(Start(id, ip, asked, made, now), moves);
    var l := TxLossInWorld(Run(Start(id, ip, asked, made, now), moves), at);
  }

  /** If the peer recorded its pings in order, it is never too high, and right exactly when none is hidden. */
  lemma ReportedTxLossIsSound(id: uint32, ip: int, asked: int, made: int, now: nat, moves: seq<Move>, at: End)
    requires var w := Run(Start(id, ip, asked, made, now), moves);
             AgentAt(w, at).s.lastRXPing.Some? && |AgentAt(w, at).received| >= SLOTS && Second(w) >= 31
             && InOrder(AgentAt(w, Other(at)).received)
    ensures var w := Run(Start(id, ip, asked, made, now), moves); var h := AgentAt(w, Other(at)).received;
            exists l :: IsLast(w, at, l) && RingAfter(l.p.lastAcks, l.known, h)
              && Loss.Sound(Reported(w, at).1, h[..l.known], Second(w))
  {
    StartInv(id, ip, asked, made, now);
    RunInvariant(Start(id, ip, asked, made, now), moves);
    var w := Run(Start(id, ip, asked, made, now), moves);
    var l := TxLossInWorld(w, at);
    HistoryIsHonest(AgentAt(w, Other(at)).received[..l.known], w.now);
    Loss.InOrderIsSound(Reported(w, at).1, AgentAt(w, Other(at)).received[..l.known], Second(w));
  }

  lemma TxLossInWorld(w: World, at: End) returns (l: Letter)
    requires Inv(w) && AgentAt(w, at).s.lastRXPing.Some?
    requires |AgentAt(w, at).received| >= SLOTS && Second(w) >= 31
    ensures var h := AgentAt(w, Other(at)).received;
            IsLast(w, at, l) && RingAfter(l.p.lastAcks, l.known, h) && HistoryOk(h[..l.known], w.now)
            && Loss.Balanced(Reported(w, at).1, h[..l.known], Second(w))
  {
    l :| l in Inbox(w, at) && IsPing(l.p) && l.p == AgentAt(w, at).s.lastRXPing.value;
    LettersAreOk(w, at, l);
    ReportsFrom32(w, at);
    var h := AgentAt(w, Other(at)).received[..l.known];
    HistoryIsHonest(h, w.now);
    Loss.TxLossIsExact(AgentAt(w, at).s.lastAcks, l.p.lastAcks, l.known % SLOTS, h, Second(w));
  }

  // ----- The handshake can succeed ----------------------------------------

  /** One handshake delivered each way activates both ends, and the client's first ping is then recorded. */
  lemma HandshakeCanComplete(id: uint32, ip: int, made: nat, client: Addr, server: Addr)
    ensures var w0 := Start(id, ip, made, made, made);
            var hs := Letter(HandshakePacket(w0.client.s), 0);
            var w3 := Step(Step(Step(w0, Local(Client, WaiterTick)), Deliver(Server, hs, client, true)),
                           Deliver(Client, hs, server, true));
            var w5 := Step(Step(w3, Local(Client, Resume)), Local(Client, SenderTick));
            var w6 := Step(w5, Deliver(Server, Letter(PingPacket(w3.client.s, made), 0), client, false));
            w3.client.s.udpActivated && w3.server.s.udpActivated && |w6.server.received| == 1
  {
    var w0 := Start(id, ip, made, made, made);
    var hs := Letter(HandshakePacket(w0.client.s), 0);
    var w1 := Step(w0, Local(Client, WaiterTick));
    assert hs in w1.toServer;
    var w2 := Step(w1, Deliver(Server, hs, client, true));
    assert w2.server.s.udpActivated && hs in w2.toClient;
    var w3 := Step(w2, Deliver(Client, hs, server, true));
    var w4 := Step(w3, Local(Client, Resume));
    assert w4.client.sender == Running(made);
    var w5 := Step(w4, Local(Client, SenderTick));
    assert Letter(PingPacket(w3.client.s, made), 0) in w5.toServer;
  }
}
