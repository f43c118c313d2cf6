/**
 The life of one session object: its handlers interleaved with its two goroutines, the waiter
 for the handshake and the sender of pings, under any packets at all.
 */
module Lifecycle {
  import opened Bytes
  import opened Wrappers
  import opened Ping
  import opened Session

  datatype Waiter = Waiting | Notified | Gone
  datatype Sender = NotStarted | Running(since: int) | Finished

  /**
   A session with its goroutines. The counts of echoes and of senders started, and the history
   of accepted pings, are kept for the statements only.
   */
  datatype Agent = Agent(s: State, waiter: Waiter, sender: Sender,
                         echoes: nat, started: nat, received: seq<Ack>)

  function Fresh(s: State): (r: Agent) {
    Agent(s, Waiting, NotStarted, 0, 0, [])
  }

  /**
   What can happen: a packet for this session arrives, and if the waiter is to be told it may or
   may not be ready to listen (`taken`); a goroutine's ticker fires; the told waiter goes on.
   */
  datatype Event =
    | Receive(p: Packet, from: Addr, taken: bool)
    | WaiterTick
    | Resume
    | SenderTick

  function Sent(p: Option<Packet>): (r: seq<Packet>) {
    if p.Some? then [p.value] else []
  }

  function OnReceive(a: Agent, p: Packet, from: Addr, taken: bool, now: nat): (r: (Agent, seq<Packet>)) {
    var o := OnPacket(a.s, p, from, now);
    (a.(s := o.state,
        waiter := if o.notify && taken && a.waiter.Waiting? then Notified else a.waiter,
        echoes := a.echoes + (if o.echo.Some? then 1 else 0),
        received := if Accepts(a.s, p) then a.received + [Ack(p.id, p.tx, At(now))] else a.received),
     Sent(o.echo))
  }

  function OnWaiterTick(a: Agent, now: nat): (r: (Agent, seq<Packet>)) {
    if !a.waiter.Waiting? then (a, [])
    else
      var (gaveUp, p) := WaiterRound(a.s, now);
      (if gaveUp then a.(waiter := Gone) else a, Sent(p))
  }

  function OnResume(a: Agent, now: nat): (r: (Agent, seq<Packet>)) {
    if !a.waiter.Notified? then (a, [])
    else (a.(s := Told(a.s), waiter := Gone, sender := Running(now), started := a.started + 1), [])
  }

  function OnSenderTick(a: Agent, now: nat): (r: (Agent, seq<Packet>)) {
    if !a.sender.Running? then (a, [])
    else
      var (s, gaveUp, p) := SenderRound(a.s, a.sender.since, now);
      (a.(s := s, sender := if gaveUp then Finished else a.sender), Sent(p))
  }

  /** The agent after the event, and the packets it sends to its peer. */
  function Step(a: Agent, e: Event, now: nat): (r: (Agent, seq<Packet>)) {
    match e
    case Receive(p, from, taken) => OnReceive(a, p, from, taken, now)
    case WaiterTick => OnWaiterTick(a, now)
    case Resume => OnResume(a, now)
    case SenderTick => OnSenderTick(a, now)
  }

  // ----- Over all runs ----------------------------------------------------

  predicate Inv(a: Agent) {
    && a.s.tcpActivated
    && a.echoes == (if a.s.udpActivated then 1 else 0)
    && (a.s.udpActivated <==> a.s.replyTo.Some?)
    && (a.waiter.Notified? ==> a.s.udpActivated && a.sender.NotStarted?)
    && a.started == (if a.sender.NotStarted? then 0 else 1)
    && (!a.sender.NotStarted? ==> a.s.udpActivated && a.waiter.Gone?)
    && (a.s.lastRX.At? <==> a.received != [])
    && (a.received != [] ==> a.s.udpActivated)
    && Agrees(a.s.lastAcks, a.s.nextAckSlot, a.received)
  }

  lemma FreshInv(s: State, id: uint32, ip: int, now: int)
    requires s == Invited(id, ip, now) || s == Accepted(id, now)
    ensures Inv(Fresh(s))
  {
    EmptyAgrees();
  }

  lemma ReceiveInv(a: Agent, p: Packet, from: Addr, taken: bool, now: nat)
    requires Inv(a)
    ensures Inv(OnReceive(a, p, from, taken, now).0)
  {
    if Accepts(a.s, p) {
      RecordAgrees(a.s.lastAcks, a.s.nextAckSlot, a.received, Ack(p.id, p.tx, At(now)));
    }
  }

  /** Every event keeps the invariant, whatever packets arrive. */
  lemma StepInv(a: Agent, e: Event, now: nat)
    requires Inv(a)
    ensures Inv(Step(a, e, now).0)
  {
    match e
    case Receive(p, from, taken) => ReceiveInv(a, p, from, taken, now);
    case _ =>
  }

  /** A run: events at their times. */
  function Run(a: Agent, events: seq<(Event, nat)>): (r: Agent) {
    if events == [] then a
    else
      var last := events[|events| - 1];
      Step(Run(a, events[..|events| - 1]), last.0, last.1).0
  }

  lemma {:induction false} RunInv(a: Agent, events: seq<(Event, nat)>)
    requires Inv(a)
    ensures Inv(Run(a, events))
  {
    if events != [] {
      var last := events[|events| - 1];
      RunInv(a, events[..|events| - 1]);
      StepInv(Run(a, events[..|events| - 1]), last.0, last.1);
    }
  }

  /** Activation, the reply address, the session's identity and its pings are never taken back. */
  predicate Keeps(a: Agent, b: Agent) {
    && (a.s.udpActivated ==> b.s.udpActivated)
    && (a.s.replyTo.Some? ==> b.s.replyTo.Some?)
    && (a.s.peerAddress.Some? ==> b.s.peerAddress == a.s.peerAddress)
    && b.s.tcpActivated == a.s.tcpActivated
    && b.s.sessionID == a.s.sessionID
    && b.s.madeByMe == a.s.madeByMe
    && (a.started > 0 ==> b.started > 0)
    && a.received <= b.received
  }

  lemma ReceiveKeeps(a: Agent, p: Packet, from: Addr, taken: bool, now: nat)
    ensures Keeps(a, OnReceive(a, p, from, taken, now).0)
  {}

  lemma StepKeeps(a: Agent, e: Event, now: nat)
    ensures Keeps(a, Step(a, e, now).0)
  {
    match e
    case Receive(p, from, taken) => ReceiveKeeps(a, p, from, taken, now);
    case _ =>
  }

  /** From any state whatever, and so between any two points of a run. */
  lemma {:induction false} NeverUndone(a: Agent, events: seq<(Event, nat)>)
    ensures Keeps(a, Run(a, events))
  {
    if events != [] {
      var last := events[|events| - 1];
      NeverUndone(a, events[..|events| - 1]);
      StepKeeps(Run(a, events[..|events| - 1]), last.0, last.1);
    }
  }

  /**
   In every run of a session made in either way: it is TCP-activated; it echoes a handshake at
   most once, namely when it becomes UDP-activated; it starts at most one sender; when a sender
   has been started the reply address is set; and before activation no ping is recorded.
   */
  lemma Safety(s: State, id: uint32, ip: int, made: int, events: seq<(Event, nat)>)
    requires s == Invited(id, ip, made) || s == Accepted(id, made)
    ensures var a := Run(Fresh(s), events);
            a.s.tcpActivated && a.echoes == (if a.s.udpActivated then 1 else 0) && a.started <= 1 &&
            (a.started == 1 ==> a.s.udpActivated && a.s.replyTo.Some?) &&
            (a.s.lastRX.At? ==> a.s.udpActivated) && (a.received != [] <==> a.s.lastRX.At?)
  {
    FreshInv(s, id, ip, made);
    RunInv(Fresh(s), events);
  }

  /** The ring holds exactly the last 32 pings accepted in the run. */
  lemma RingEqualsHistory(s: State, id: uint32, ip: int, made: int, events: seq<(Event, nat)>, x: Ack)
    requires s == Invited(id, ip, made) || s == Accepted(id, made)
    ensures var a := Run(Fresh(s), events);
            a.s.nextAckSlot == |a.received| % SLOTS &&
            (x in a.s.lastAcks <==> x in Recent(a.received) || (x == NO_ACK && |a.received| < SLOTS))
  {
    FreshInv(s, id, ip, made);
    RunInv(Fresh(s), events);
    var a := Run(Fresh(s), events);
    HoldsRecent(a.s.lastAcks, a.s.nextAckSlot, a.received, x);
  }

  /** A running sender always has somewhere to send to: it sends one ping a round until it gives up. */
  lemma SenderAlwaysSends(a: Agent, now: nat)
    requires Inv(a) && a.sender.Running? && !SenderExpired(a.s, a.sender.since, now)
    ensures |Step(a, SenderTick, now).1| == 1 && IsPing(Step(a, SenderTick, now).1[0])
  {}
}
