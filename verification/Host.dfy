/** The session table of one process (main.go, sessionhandle.go) and its garbage collector. */
module Host {
  import opened Bytes
  import opened Wrappers
  import opened Ping
  import opened Session
  import opened Lifecycle
  import Loss

  // ----- Specifications ---------------------------------------------------

  /** `sessionGC`'s first branch: no ping for more than a minute. */
  predicate Inactive(s: State, now: int) {
    Over(now, s.lastRX, MINUTE)
  }

  /** Its second branch: no handshake for more than twenty seconds, the first branch not taken. */
  predicate Unshaken(s: State, now: int) {
    !Inactive(s, now) && !s.udpActivated && now - s.sessionMade > 20 * SECOND
  }

  predicate Survives(s: State, now: int) {
    !Inactive(s, now) && !Unshaken(s, now)
  }

  function Collect(m: map<uint32, State>, now: int): (r: map<uint32, State>) {
    map id | id in m && Survives(m[id], now) :: m[id]
  }

  /** A decoded packet changes the session it names, if there is one. */
  function Route(m: map<uint32, State>, rx: Option<Packet>, from: Addr, now: int): (r: map<uint32, State>) {
    if rx.Some? && rx.value.session in m
    then m[rx.value.session := OnPacket(m[rx.value.session], rx.value, from, now).state]
    else m
  }

  function Only(b: bool, id: uint32): (r: set<uint32>) {
    if b then {id} else {}
  }

  /** The sessions seen so far, all but `todo`, have been told apart, and those to go are gone. */
  ghost predicate Seen<V>(m: map<uint32, State>, all: map<uint32, V>, left: map<uint32, V>, todo: set<uint32>,
                          now: int, inactive: set<uint32>, unshaken: set<uint32>) {
    && m.Keys == all.Keys && todo <= all.Keys
    && (forall id :: id in inactive <==> id in m && id !in todo && Inactive(m[id], now))
    && (forall id :: id in unshaken <==> id in m && id !in todo && Unshaken(m[id], now))
    && left == all - (inactive + unshaken)
  }

  /** One more session goes where its tests say. */
  lemma SeeOne<V>(m: map<uint32, State>, all: map<uint32, V>, left: map<uint32, V>, todo: set<uint32>,
                  now: int, inactive: set<uint32>, unshaken: set<uint32>, id: uint32)
    requires Seen(m, all, left, todo, now, inactive, unshaken) && id in todo
    ensures var idle, unfinished := Inactive(m[id], now), Unshaken(m[id], now);
            Seen(m, all, if idle || unfinished then left - {id} else left, todo - {id}, now,
                 inactive + Only(idle, id), unshaken + Only(unfinished, id))
  {
    var idle, unfinished := Inactive(m[id], now), Unshaken(m[id], now);
    assert (inactive + Only(idle, id)) + (unshaken + Only(unfinished, id))
        == inactive + unshaken + Only(idle || unfinished, id);
    assert left - {id} == all - (inactive + unshaken + {id});
    assert left == all - (inactive + unshaken + {});
  }

  /** After the last one the table is the collected one. */
  lemma SeenAll<V>(m: map<uint32, State>, all: map<uint32, V>, left: map<uint32, V>,
                   now: int, inactive: set<uint32>, unshaken: set<uint32>)
    requires Seen(m, all, left, {}, now, inactive, unshaken)
    ensures Collect(m, now) == m - (inactive + unshaken) && left == all - (inactive + unshaken)
    ensures inactive == set id | id in m && Inactive(m[id], now)
    ensures unshaken == set id | id in m && Unshaken(m[id], now)
  {}

  // ----- The table --------------------------------------------------------

  class Table {
    var sessions: map<uint32, Session>

    /** No session is in the table under two identifiers. */
    ghost predicate Valid()
      reads this
    {
      forall i, j :: i in sessions && j in sessions && i != j ==> sessions[i] != sessions[j]
    }

    ghost function View(): (r: map<uint32, State>)
      reads this, sessions.Values
    {
      map id | id in sessions :: sessions[id].View()
    }

    constructor ()
      ensures Valid() && View() == map[]
    {
      sessions := map[];
    }

    method StartSession(id: uint32, ip: int, now: int)
      requires Valid()
      modifies this
      ensures Valid() && View() == old(View())[id := Invited(id, ip, now)]
    {
      var s := new Session.Invite(id, ip, now);
      sessions := sessions[id := s];
    }

    method AcceptSession(id: uint32, now: int)
      requires Valid()
      modifies this
      ensures Valid() && View() == old(View())[id := Accepted(id, now)]
    {
      var s := new Session.Accept(id, now);
      sessions := sessions[id := s];
    }

    /** `handlePacket`; undecodable packets are None. */
    method HandlePacket(rx: Option<Packet>, from: Addr, now: int) returns (echo: Option<Packet>, notify: bool)
      requires Valid()
      modifies sessions.Values
      ensures Valid() && sessions == old(sessions) && View() == Route(old(View()), rx, from, now)
      ensures rx.Some? && rx.value.session in old(View()) ==>
                var o := OnPacket(old(View())[rx.value.session], rx.value, from, now);
                echo == o.echo && notify == o.notify
      ensures rx.None? || rx.value.session !in old(View()) ==> echo == None && !notify
    {
      if rx.None? || rx.value.session !in sessions {
        return None, false;
      }
      var ses := sessions[rx.value.session];
      assert ses in sessions.Values;
      echo, notify := ses.HandlePacket(rx.value, from, now);
    }

    /** One pass of `sessionGC`, returning the sessions removed for inactivity and for lack of a handshake. */
    method CollectGarbage(now: int) returns (inactive: set<uint32>, unshaken: set<uint32>)
      requires Valid()
      modifies `sessions
      ensures Valid() && View() == Collect(old(View()), now)
      ensures inactive == set id | id in old(View()) && Inactive(old(View())[id], now)
      ensures unshaken == set id | id in old(View()) && Unshaken(old(View())[id], now)
    {
      inactive, unshaken := {}, {};
      ghost var before := View();
      var all := sessions;
      var todo := sessions.Keys;
      while todo != {}
        invariant Seen(before, all, sessions, todo, now, inactive, unshaken)
        decreases todo
      {
        var id :| id in todo;
        SeeOne(before, all, sessions, todo, now, inactive, unshaken, id);
        todo := todo - {id};
        var idle, unfinished := Check(id, all[id], now);
        inactive := inactive + Only(idle, id);
        unshaken := unshaken + Only(unfinished, id);
      }
      SeenAll(before, all, sessions, now, inactive, unshaken);
      KeptView(all, before, inactive + unshaken);
    }

    /** The loop body: two tests, and the deletion. */
    method Check(id: uint32, ses: Session, now: int) returns (idle: bool, unfinished: bool)
      modifies `sessions
      ensures idle == Inactive(ses.View(), now) && unfinished == Unshaken(ses.View(), now)
      ensures sessions == if idle || unfinished then old(sessions) - {id} else old(sessions)
    {
      if ses.lastRX.Zero? || now - ses.lastRX.ns > MINUTE {
        sessions := sessions - {id};
        return true, false;
      }
      if !ses.udpActivated {
        if now - ses.sessionMade > 20 * SECOND {
          sessions := sessions - {id};
          return false, true;
        }
      }
      return false, false;
    }

    lemma KeptView(all: map<uint32, Session>, before: map<uint32, State>, gone: set<uint32>)
      requires sessions == all - gone
      requires before.Keys == all.Keys && forall id :: id in all ==> all[id].View() == before[id]
      ensures View() == before - gone
      ensures (forall i, j :: i in all && j in all && i != j ==> all[i] != all[j]) ==> Valid()
    {}
  }

  // ----- All runs of a process --------------------------------------------

  /** Sessions are made in either way, their handlers and goroutines go on, and the collector passes. */
  datatype HostEvent =
    | Start(id: uint32, ip: int)
    | Accept(id: uint32)
    | Happen(id: uint32, e: Event)
    | Sweep

  function Swept(m: map<uint32, Agent>, now: int): (r: map<uint32, Agent>) {
    map id | id in m && Survives(m[id].s, now) :: m[id]
  }

  function Step(m: map<uint32, Agent>, e: HostEvent, now: nat): (r: map<uint32, Agent>) {
    match e
    case Start(id, ip) => m[id := Fresh(Invited(id, ip, now))]
    case Accept(id) => m[id := Fresh(Accepted(id, now))]
    case Happen(id, e) => if id in m then m[id := Lifecycle.Step(m[id], e, now).0] else m
    case Sweep => Swept(m, now)
  }

  function RunFrom(m: map<uint32, Agent>, events: seq<(HostEvent, nat)>): (r: map<uint32, Agent>) {
    if events == [] then m
    else
      var last := events[|events| - 1];
      Step(RunFrom(m, events[..|events| - 1]), last.0, last.1)
  }

  /** A run of the process from its start. */
  function Run(events: seq<(HostEvent, nat)>): (r: map<uint32, Agent>) {
    RunFrom(map[], events)
  }

  lemma RunOneMore(m: map<uint32, Agent>, events: seq<(HostEvent, nat)>, e: HostEvent, now: nat)
    ensures RunFrom(m, events + [(e, now)]) == Step(RunFrom(m, events), e, now)
  {
    assert (events + [(e, now)])[..|events|] == events;
  }

  lemma {:induction false} RunAppend(m: map<uint32, Agent>, x: seq<(HostEvent, nat)>, y: seq<(HostEvent, nat)>)
    ensures RunFrom(m, x + y) == RunFrom(RunFrom(m, x), y)
  {
    if y == [] {
      assert x + y == x;
    } else {
      var rest, last := y[..|y| - 1], y[|y| - 1];
      RunAppend(m, x, rest);
      assert x + y == x + rest + [last];
      RunOneMore(m, x + rest, last.0, last.1);
    }
  }

  /** What the table shows of the agents. */
  function States(m: map<uint32, Agent>): (r: map<uint32, State>) {
    map id | id in m :: m[id].s
  }

  /** The steps of a run are what the table's methods do to its sessions. */
  lemma StepsAreTheTables(m: map<uint32, Agent>, id: uint32, ip: int, p: Packet, from: Addr, taken: bool, now: nat)
    ensures States(Step(m, Start(id, ip), now)) == States(m)[id := Invited(id, ip, now)]
    ensures States(Step(m, Accept(id), now)) == States(m)[id := Accepted(id, now)]
    ensures States(Step(m, Happen(p.session, Receive(p, from, taken)), now)) == Route(States(m), Some(p), from, now)
    ensures States(Step(m, Sweep, now)) == Collect(States(m), now)
  {
    RouteIsReceive(m, p, from, taken, now);
  }

  /** The goroutines' steps are the rounds that the session's methods do. */
  lemma GoroutinesAreTheSessions(m: map<uint32, Agent>, id: uint32, now: nat)
    requires id in m
    ensures var a := m[id]; var b := Step(m, Happen(id, WaiterTick), now)[id];
            b.s == a.s && (a.waiter.Waiting? ==> (b.waiter.Gone? <==> WaiterRound(a.s, now).0))
    ensures var a := m[id]; var b := Step(m, Happen(id, Resume), now)[id];
            b.s == if a.waiter.Notified? then Told(a.s) else a.s
    ensures var a := m[id]; var b := Step(m, Happen(id, SenderTick), now)[id];
            if a.sender.Running?
            then b.s == SenderRound(a.s, a.sender.since, now).0
                 && (b.sender.Finished? <==> SenderRound(a.s, a.sender.since, now).1)
            else b.s == a.s
  {}

  lemma RouteIsReceive(m: map<uint32, Agent>, p: Packet, from: Addr, taken: bool, now: nat)
    ensures States(Step(m, Happen(p.session, Receive(p, from, taken)), now)) == Route(States(m), Some(p), from, now)
  {}

  predicate AllInv(m: map<uint32, Agent>) {
    forall id :: id in m ==> Inv(m[id])
  }

  lemma StepKeepsAll(m: map<uint32, Agent>, e: HostEvent, now: nat)
    requires AllInv(m)
    ensures AllInv(Step(m, e, now))
  {
    match e
    case Start(id, ip) => FreshInv(Invited(id, ip, now), id, ip, now);
    case Accept(id) => FreshInv(Accepted(id, now), id, 0, now);
    case Happen(id, e) =>
      if id in m {
        StepInv(m[id], e, now);
      }
    case Sweep =>
  }

  lemma {:induction false} RunKeepsAll(events: seq<(HostEvent, nat)>)
    ensures AllInv(Run(events))
  {
    if events != [] {
      var last := events[|events| - 1];
      RunKeepsAll(events[..|events| - 1]);
      StepKeepsAll(Run(events[..|events| - 1]), last.0, last.1);
    }
  }

  /**
   After any run, a pass keeps exactly the sessions that had a ping within the last minute, all of
   them activated; and it removes none for lack of a handshake, so that branch is dead.
   */
  lemma SweepKeepsTheLive(events: seq<(HostEvent, nat)>, now: nat, id: uint32)
    requires id in Run(events)
    ensures var s := Run(events)[id].s;
            !Unshaken(s, now) &&
            (id in Swept(Run(events), now) <==> s.lastRX.At? && now - s.lastRX.ns <= MINUTE) &&
            (id in Swept(Run(events), now) ==> s.udpActivated && Swept(Run(events), now)[id] == Run(events)[id])
  {
    RunKeepsAll(events);
    assert Inv(Run(events)[id]);
  }

  /** A session that has had no ping is removed by the next pass. */
  lemma SweepRemovesTheSilent(events: seq<(HostEvent, nat)>, now: nat, id: uint32)
    requires id in Run(events) && Run(events)[id].received == []
    ensures id !in Run(events + [(Sweep, now)])
  {
    RunKeepsAll(events);
    RunOneMore(map[], events, Sweep, now);
    assert Inv(Run(events)[id]);
  }

  /** The event makes the session in the table record a ping. */
  predicate RecordsPing(m: map<uint32, Agent>, e: HostEvent, id: uint32) {
    e.Happen? && e.id == id && e.e.Receive? && id in m && Accepts(m[id].s, e.e.p)
  }

  predicate Quiet(m: map<uint32, Agent>, events: seq<(HostEvent, nat)>, id: uint32) {
    forall n :: 0 <= n < |events| ==> !RecordsPing(RunFrom(m, events[..n]), events[n].0, id)
  }

  lemma QuietStep(m: map<uint32, Agent>, e: HostEvent, now: nat, id: uint32)
    requires !RecordsPing(m, e, id) && (id in m ==> m[id].received == [])
    ensures id in Step(m, e, now) ==> Step(m, e, now)[id].received == []
  {}

  lemma QuietPrefix(m: map<uint32, Agent>, events: seq<(HostEvent, nat)>, id: uint32)
    requires Quiet(m, events, id) && events != []
    ensures Quiet(m, events[..|events| - 1], id)
    ensures !RecordsPing(RunFrom(m, events[..|events| - 1]), events[|events| - 1].0, id)
  {
    var rest := events[..|events| - 1];
    forall n | 0 <= n < |rest| ensures !RecordsPing(RunFrom(m, rest[..n]), rest[n].0, id) {
      assert rest[n] == events[n] && rest[..n] == events[..n];
    }
  }

  lemma {:induction false} QuietStaysSilent(m: map<uint32, Agent>, events: seq<(HostEvent, nat)>, id: uint32)
    requires Quiet(m, events, id) && (id in m ==> m[id].received == [])
    ensures id in RunFrom(m, events) ==> RunFrom(m, events)[id].received == []
  {
    if events != [] {
      var rest, last := events[..|events| - 1], events[|events| - 1];
      QuietPrefix(m, events, id);
      QuietStaysSilent(m, rest, id);
      QuietStep(RunFrom(m, rest), last.0, last.1, id);
    }
  }

  /**
   A session made in either way is removed by the next pass, early or late, whatever else happens
   in between, unless it has recorded a ping. The handshake does not save it.
   */
  lemma SweepRemovesTheNew(before: seq<(HostEvent, nat)>, created: HostEvent, made: nat,
                           between: seq<(HostEvent, nat)>, now: nat, id: uint32, ip: int)
    requires created == Start(id, ip) || created == Accept(id)
    requires Quiet(Run(before + [(created, made)]), between, id)
    ensures id !in Run(before + [(created, made)] + between + [(Sweep, now)])
  {
    var events := before + [(created, made)];
    RunOneMore(map[], before, created, made);
    QuietStaysSilent(Run(events), between, id);
    RunAppend(map[], events, between);
    RunOneMore(map[], events + between, Sweep, now);
    if id in Run(events + between) {
      SweepRemovesTheSilent(events + between, now, id);
    }
  }

  // ----- A session that the estimator misjudges ---------------------------

  function SparsePing(id: uint32, u: nat, i: nat): (r: Packet) {
    var s := Loss.SparseSecond(u, i);
    Packet(TIMING, MAGIC, 0, id, Loss.SenderId(s), At(s * SECOND), EmptyRing())
  }

  /** The collector passes just before each ping but the first, when the last one is longest ago. */
  function SparseRun(id: uint32, u: nat, from: Addr, n: nat): (r: seq<(HostEvent, nat)>) {
    if n == 0 then
      var hs := Packet(HANDSHAKE, MAGIC, VERSION, id, 0, Zero, EmptyRing());
      [(Accept(id), u * SECOND), (Happen(id, Receive(hs, from, false)), u * SECOND)]
    else
      var now := Loss.SparseSecond(u, n - 1) * SECOND;
      SparseRun(id, u, from, n - 1)
      + (if n == 1 then [] else [(Sweep, now)])
      + [(Happen(id, Receive(SparsePing(id, u, n - 1), from, false)), now)]
  }

  /** The session as it is after `n` of the pings. */
  predicate SparseState(m: map<uint32, Agent>, id: uint32, u: nat, n: nat)
    requires n <= SLOTS
  {
    && id in m && Inv(m[id]) && m[id].s.udpActivated
    && m[id].received == Loss.Sparse(u)[..n]
    && (n > 0 ==> m[id].s.lastRX == At(Loss.SparseSecond(u, n - 1) * SECOND))
  }

  lemma SparseSurvives(m: map<uint32, Agent>, id: uint32, u: nat, n: nat, s: nat)
    requires 0 < n <= SLOTS && SparseState(m, id, u, n) && s <= Loss.SparseSecond(u, n - 1) + 60
    ensures SparseState(Step(m, Sweep, s * SECOND), id, u, n)
  {}

  lemma SparseRecords(m: map<uint32, Agent>, id: uint32, u: nat, from: Addr, n: nat)
    requires 0 < n <= SLOTS && SparseState(m, id, u, n - 1)
    ensures var now := Loss.SparseSecond(u, n - 1) * SECOND;
            SparseState(Step(m, Happen(id, Receive(SparsePing(id, u, n - 1), from, false)), now), id, u, n)
  {
    StepInv(m[id], Receive(SparsePing(id, u, n - 1), from, false), Loss.SparseSecond(u, n - 1) * SECOND);
    assert Loss.Sparse(u)[..n] == Loss.Sparse(u)[..n - 1] + [Loss.Sparse(u)[n - 1]];
  }

  lemma SparseBegins(id: uint32, u: nat, from: Addr)
    ensures SparseState(Run(SparseRun(id, u, from, 0)), id, u, 0)
  {
    var events := SparseRun(id, u, from, 0);
    RunOneMore(map[], [], events[0].0, events[0].1);
    RunOneMore(map[], [events[0]], events[1].0, events[1].1);
    assert events == [events[0]] + [events[1]] && [] + [events[0]] == [events[0]];
    RunKeepsAll(events);
  }

  lemma {:induction false} SparseGoesOn(id: uint32, u: nat, from: Addr, n: nat)
    requires n <= SLOTS
    ensures SparseState(Run(SparseRun(id, u, from, n)), id, u, n)
  {
    if n == 0 {
      SparseBegins(id, u, from);
    } else {
      var s := Loss.SparseSecond(u, n - 1);
      var events := SparseRun(id, u, from, n - 1);
      SparseGoesOn(id, u, from, n - 1);
      if n > 1 {
        SparseSurvives(Run(events), id, u, n - 1, s);
        RunOneMore(map[], events, Sweep, s * SECOND);
        events := events + [(Sweep, s * SECOND)];
      } else {
        assert events + [] == events;
      }
      SparseRecords(Run(events), id, u, from, n);
      RunOneMore(map[], events, Happen(id, Receive(SparsePing(id, u, n - 1), from, false)), s * SECOND);
    }
  }

  /**
   A run in which a session that the collector keeps is misjudged. Pings come in 28 consecutive
   seconds and then four more 57 seconds apart; 28 seconds after the last, a pass keeps the
   session, and of its window 3 of 31 (or 2 of 30) seconds are reported lost although 30 (29) were.
   */
  lemma LiveSessionLooksHealthy(id: uint32, u: nat, from: Addr, rxAcks: Acks)
    ensures var t := u + 283; var k := Loss.Visits(Loss.SenderId(t));
            var m := Run(SparseRun(id, u, from, SLOTS) + [(Sweep, t * SECOND)]);
            id in m && Loss.Loss(t, rxAcks, m[id].s.lastAcks).0 == k - 28
            && Loss.Missed(m[id].received, t - k, k) == k - 1
  {
    var events, t := SparseRun(id, u, from, SLOTS), u + 283;
    SparseGoesOn(id, u, from, SLOTS);
    SparseSurvives(Run(events), id, u, SLOTS, t);
    RunOneMore(map[], events, Sweep, t * SECOND);
    var a := Run(events + [(Sweep, t * SECOND)])[id];
    assert Loss.Sparse(u)[..SLOTS] == Loss.Sparse(u);
    Loss.SparseLooksHealthy(a.s.lastAcks, a.s.nextAckSlot, rxAcks, u);
  }
}
