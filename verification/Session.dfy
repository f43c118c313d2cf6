/** A session and its handlers (main.go and sessionhandle.go), each handler one atomic step. */
module Session {
  import opened Bytes
  import opened Wrappers
  import opened Ping
  import Loss

  datatype Addr = Addr(ip: int, port: int)

  const PORT := 6924
  const MAGIC := 11181
  const VERSION := 3
  const HANDSHAKE := 104
  const TIMING := 116

  /** A decoded packet: the fields of `pingStruct` and `handshakeStruct`, zero where absent. */
  datatype Packet = Packet(kind: byte, magic: uint16, version: uint16, session: uint32,
                           id: byte, tx: Time, lastAcks: Acks)

  type Slot = n: nat | n < SLOTS

  /** The fields of `session` that are not channels or sockets. */
  datatype State = State(tcpActivated: bool, udpActivated: bool, madeByMe: bool,
                         peerAddress: Option<int>, sessionMade: int, replyTo: Option<Addr>,
                         lastAcks: Acks, lastRX: Time, currentID: byte, sessionID: uint32,
                         nextAckSlot: Slot, lastRXPing: Option<Packet>)

  /** What handling a packet does: the new state, what is sent back, and whether the waiter is told. */
  datatype Outcome = Outcome(state: State, echo: Option<Packet>, notify: bool)

  /** `time.Since(t) > d`; the zero time is longer ago than any `d`. */
  predicate Over(now: int, t: Time, d: int) {
    t.At? ==> now - t.ns > d
  }

  // ----- Specifications ---------------------------------------------------

  /** The session of the end that asked for the invitation. */
  function Invited(id: uint32, ip: int, now: int): (r: State) {
    State(true, false, true, Some(ip), now, None, EmptyRing(), Zero, 0, id, 0, None)
  }

  /** The session of the end that was asked. */
  function Accepted(id: uint32, now: int): (r: State) {
    State(true, false, false, None, now, None, EmptyRing(), Zero, 0, id, 0, None)
  }

  predicate IsPing(p: Packet) {
    p.magic == MAGIC && p.kind == TIMING
  }

  predicate IsHandshake(p: Packet) {
    p.magic == MAGIC && p.kind == HANDSHAKE && p.version == VERSION
  }

  /** Whether a session takes the ping into its ring. */
  predicate Accepts(s: State, p: Packet) {
    IsPing(p) && (s.udpActivated || !s.tcpActivated)
  }

  function Record(s: State, p: Packet, from: Addr, now: int): (r: State) {
    s.(lastAcks := s.lastAcks[NextSlot(s.nextAckSlot) := Ack(p.id, p.tx, At(now))],
       nextAckSlot := NextSlot(s.nextAckSlot),
       replyTo := Some(from), lastRX := At(now), lastRXPing := Some(p))
  }

  /** Whether a session takes the handshake; otherwise it does nothing. */
  predicate Activates(s: State, p: Packet) {
    IsHandshake(p) && !(s.udpActivated && s.tcpActivated)
  }

  function Activate(s: State, from: Addr): (r: State) {
    s.(udpActivated := true, replyTo := Some(from),
       peerAddress := if s.peerAddress.None? then Some(from.ip) else s.peerAddress)
  }

  function OnPacket(s: State, p: Packet, from: Addr, now: int): (r: Outcome) {
    if Activates(s, p) then Outcome(Activate(s, from), if s.udpActivated then None else Some(p), true)
    else if Accepts(s, p) then Outcome(Record(s, p, from, now), None, false)
    else Outcome(s, None, false)
  }

  function HandshakePacket(s: State): (r: Packet) {
    Packet(HANDSHAKE, MAGIC, VERSION, s.sessionID, 0, Zero, EmptyRing())
  }

  /** The waiter gives up a minute after the session was made, unless it has been activated. */
  predicate HandshakeExpired(s: State, now: int) {
    now - s.sessionMade > MINUTE && !s.udpActivated
  }

  /** The sender gives up after a minute without pings, and not within ten seconds of its start. */
  predicate SenderExpired(s: State, started: int, now: int) {
    Over(now, s.lastRX, 60 * SECOND) && now - started > 10 * SECOND
  }

  function PingPacket(s: State, now: nat): (r: Packet) {
    Packet(TIMING, MAGIC, 0, s.sessionID, Loss.SenderId(now / SECOND), At(now), s.lastAcks)
  }

  /** A round of the waiter: whether it gives up, and the handshake that an inviting end sends otherwise. */
  function WaiterRound(s: State, now: int): (r: (bool, Option<Packet>)) {
    if HandshakeExpired(s, now) then (true, None)
    else (false, if s.madeByMe then Some(HandshakePacket(s)) else None)
  }

  /** The waiter after it has been told. */
  function Told(s: State): (r: State) {
    s.(udpActivated := true)
  }

  /** A round of the sender: the new state, whether it gives up, and the ping it sends otherwise. */
  function SenderRound(s: State, started: int, now: nat): (r: (State, bool, Option<Packet>)) {
    if SenderExpired(s, started, now) then (s, true, None)
    else (s.(currentID := Loss.SenderId(now / SECOND)), false,
          if s.replyTo.Some? then Some(PingPacket(s, now)) else None)
  }

  /** The packet of an optional datagram. */
  function PacketOf(d: Option<(Packet, Addr)>): (r: Option<Packet>) {
    if d.Some? then Some(d.value.0) else None
  }

  // ----- The object -------------------------------------------------------

  class Session {
    var tcpActivated: bool
    var udpActivated: bool
    var madeByMe: bool
    var peerAddress: Option<int>
    var sessionMade: int
    var replyTo: Option<Addr>
    var lastAcks: Acks
    var lastRX: Time
    var currentID: byte
    var sessionID: uint32
    var nextAckSlot: Slot
    var lastRXPing: Option<Packet>

    ghost function View(): (r: State)
      reads this
    {
      State(tcpActivated, udpActivated, madeByMe, peerAddress, sessionMade, replyTo,
            lastAcks, lastRX, currentID, sessionID, nextAckSlot, lastRXPing)
    }

    /** `startSession`. */
    constructor Invite(id: uint32, ip: int, now: int)
      ensures View() == Invited(id, ip, now)
    {
      tcpActivated, udpActivated, madeByMe := true, false, true;
      peerAddress, sessionMade, replyTo := Some(ip), now, None;
      lastAcks, lastRX, currentID, sessionID := EmptyRing(), Zero, 0, id;
      nextAckSlot, lastRXPing := 0, None;
    }

    /** `handleTCPconnection`. */
    constructor Accept(id: uint32, now: int)
      ensures View() == Accepted(id, now)
    {
      tcpActivated, udpActivated, madeByMe := true, false, false;
      peerAddress, sessionMade, replyTo := None, now, None;
      lastAcks, lastRX, currentID, sessionID := EmptyRing(), Zero, 0, id;
      nextAckSlot, lastRXPing := 0, None;
    }

    method GetNextAckSlot() returns (slot: Slot)
      modifies `nextAckSlot
      ensures slot == nextAckSlot == NextSlot(old(nextAckSlot))
    {
      if nextAckSlot != 31 {
        nextAckSlot := nextAckSlot + 1;
      } else {
        nextAckSlot := 0;
      }
      return nextAckSlot;
    }

    /** `handlePacket`, once the packet has been decoded and the session found. */
    method HandlePacket(rx: Packet, from: Addr, now: int) returns (echo: Option<Packet>, notify: bool)
      modifies this
      ensures Outcome(View(), echo, notify) == OnPacket(old(View()), rx, from, now)
    {
      if rx.magic != MAGIC {
        return None, false;
      }
      if rx.kind == HANDSHAKE {
        echo, notify := HandleInboundHandshake(rx, from);
        return;
      }
      if rx.kind != TIMING {
        return None, false;
      }
      if udpActivated == false && tcpActivated {
        return None, false;
      }
      var slot := GetNextAckSlot();
      lastAcks := lastAcks[slot := Ack(rx.id, rx.tx, At(now))];
      replyTo := Some(from);
      lastRX := At(now);
      lastRXPing := Some(rx);
      return None, false;
    }

    method HandleInboundHandshake(rx: Packet, from: Addr) returns (echo: Option<Packet>, notify: bool)
      requires rx.magic == MAGIC && rx.kind == HANDSHAKE
      modifies this
      ensures if Activates(old(View()), rx)
              then View() == Activate(old(View()), from) && notify
                   && echo == if old(udpActivated) then None else Some(rx)
              else View() == old(View()) && !notify && echo == None
    {
      if rx.version != VERSION {
        return None, false;
      }
      if udpActivated && tcpActivated {
        return None, false;
      }
      var wasAlreadyActivated := udpActivated;
      replyTo := Some(from);
      udpActivated := true;
      if peerAddress.None? {
        peerAddress := Some(from.ip);
      }
      notify := true;
      echo := if !wasAlreadyActivated then Some(rx) else None;
    }

    /** The ticker branch of `sendUDPHandshake` and `waitForHandshake`. */
    method WaiterTick(now: int) returns (gaveUp: bool, sent: Option<(Packet, Addr)>)
      requires madeByMe ==> peerAddress.Some?
      ensures (gaveUp, PacketOf(sent)) == WaiterRound(View(), now)
      ensures sent.Some? ==> sent.value.1 == Addr(peerAddress.value, PORT)
    {
      if now - sessionMade > MINUTE && !udpActivated {
        return true, None;
      }
      if madeByMe {
        var hs := Packet(HANDSHAKE, MAGIC, 3, sessionID, 0, Zero, EmptyRing());
        return false, Some((hs, Addr(peerAddress.value, PORT)));
      }
      return false, None;
    }

    /** The channel branch of both, before the sender is started. */
    method OnActivation()
      modifies `udpActivated
      ensures View() == Told(old(View()))
    {
      udpActivated := true;
    }

    /** One round of `sendPackets`; `now` is not before 1970. */
    method SenderTick(started: int, now: nat) returns (gaveUp: bool, sent: Option<(Packet, Addr)>)
      modifies `currentID
      ensures (View(), gaveUp, PacketOf(sent)) == SenderRound(old(View()), started, now)
      ensures sent.Some? ==> Some(sent.value.1) == replyTo
    {
      if (lastRX.Zero? || now - lastRX.ns > 60 * SECOND) && now - started > 10 * SECOND {
        return true, None;
      }
      currentID := now / SECOND % 255 + 1;
      var packet := Packet(TIMING, MAGIC, 0, sessionID, currentID, At(now), lastAcks);
      if replyTo.Some? {
        return false, Some((packet, replyTo.value));
      }
      return false, None;
    }
  }
}
