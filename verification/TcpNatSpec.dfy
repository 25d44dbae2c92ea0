/**
 The TCP NAT of the system tun as a step machine: two maps, a wrapping port counter and a
 sweeper. A lookup that misses updates the two maps in separately locked steps, so other
 steps may come between its reserving a port and its committing the session; only the
 single packet loop makes such lookups, so at most one is under way.
 */
module TcpNatSpec {
  import opened Octets

  const FIRST_PORT: UInt16 := 10000
  const PORTS := 55536
  const SECOND := 1_000_000_000

  datatype Endpoint = Endpoint(addr: Bytes, port: UInt16)

  datatype Flow = Flow(source: Endpoint, destination: Endpoint)

  datatype Session = Session(flow: Flow, lastActive: int)

  datatype Pending = Idle | Reserved(flow: Flow, port: UInt16)

  datatype Nat = Nat(
    portIndex: UInt16,
    addrMap: map<Flow, UInt16>,
    portMap: map<UInt16, Session>,
    pending: Pending)

  datatype Event =
    | Hit(flow: Flow)
    | Reserve(flow: Flow)
    | Commit(now: int)
    | Sweep(now: int)
    | Inverse(port: UInt16, now: int)

  function Init(): Nat {
    Nat(FIRST_PORT, map[], map[], Idle)
  }

  predicate Enabled(n: Nat, e: Event) {
    match e
    case Hit(flow) => n.pending.Idle? && flow in n.addrMap
    case Reserve(flow) => n.pending.Idle? && flow !in n.addrMap
    case Commit(_) => n.pending.Reserved?
    case Sweep(_) => true
    case Inverse(_, _) => true
  }

  function NextPort(index: UInt16): UInt16 {
    if index == 0 then FIRST_PORT else index
  }

  predicate Expired(timeout: nat, s: Session, now: int) {
    now - s.lastActive > timeout
  }

  function Touch(s: Session, now: int): Session {
    if now - s.lastActive > SECOND then s.(lastActive := now) else s
  }

  /** The port entries that remain when only the ports in `seen` have been examined. */
  function Remaining(timeout: nat, portMap: map<UInt16, Session>, seen: set<UInt16>, now: int): map<UInt16, Session> {
    map p | p in portMap && !(p in seen && Expired(timeout, portMap[p], now)) :: portMap[p]
  }

  /** The flows of the expired entries among those in `seen`. */
  function Removed(timeout: nat, portMap: map<UInt16, Session>, seen: set<UInt16>, now: int): set<Flow> {
    set p | p in seen && p in portMap && Expired(timeout, portMap[p], now) :: portMap[p].flow
  }

  lemma NoneSeen(timeout: nat, portMap: map<UInt16, Session>, now: int)
    ensures Remaining(timeout, portMap, {}, now) == portMap
    ensures Removed(timeout, portMap, {}, now) == {}
  {
  }

  /** Examining one more entry deletes it and its flow exactly if it has expired. */
  lemma ExamineOne(
    timeout: nat, portMap: map<UInt16, Session>, addrMap: map<Flow, UInt16>, seen: set<UInt16>, now: int, p: UInt16)
    requires p in portMap && p !in seen
    ensures var s := portMap[p];
            var ports, flows := Remaining(timeout, portMap, seen, now), addrMap - Removed(timeout, portMap, seen, now);
            var ports' := Remaining(timeout, portMap, seen + {p}, now);
            var flows' := addrMap - Removed(timeout, portMap, seen + {p}, now);
            && p in ports && ports[p] == s
            && ports' == (if Expired(timeout, s, now) then ports - {p} else ports)
            && flows' == (if Expired(timeout, s, now) then flows - {s.flow} else flows)
  {
    var extra := if Expired(timeout, portMap[p], now) then {portMap[p].flow} else {};
    assert Removed(timeout, portMap, seen + {p}, now) == Removed(timeout, portMap, seen, now) + extra;
  }

  function Step(timeout: nat, n: Nat, e: Event): Nat
    requires Enabled(n, e)
  {
    match e
    case Hit(_) => n
    case Reserve(flow) =>
      var port := NextPort(n.portIndex);
      n.(portIndex := (port + 1) % 0x1_0000, addrMap := n.addrMap[flow := port], pending := Reserved(flow, port))
    case Commit(now) =>
      n.(portMap := n.portMap[n.pending.port := Session(n.pending.flow, now)], pending := Idle)
    case Sweep(now) =>
      n.(addrMap := n.addrMap - Removed(timeout, n.portMap, n.portMap.Keys, now),
         portMap := Remaining(timeout, n.portMap, n.portMap.Keys, now))
    case Inverse(port, now) =>
      if port in n.portMap then n.(portMap := n.portMap[port := Touch(n.portMap[port], now)]) else n
  }

  /** The flow that a port leads back to. */
  ghost predicate LeadsTo(n: Nat, port: UInt16, flow: Flow) {
    port in n.portMap && n.portMap[port].flow == flow
  }

  // What holds however the steps interleave

  /** Every port entry is backed by the flow entry that points to it. */
  ghost predicate Backed(n: Nat) {
    && (forall p | p in n.portMap :: n.portMap[p].flow in n.addrMap && n.addrMap[n.portMap[p].flow] == p)
    && (n.pending.Reserved? ==>
        && n.pending.flow in n.addrMap && n.addrMap[n.pending.flow] == n.pending.port
        && forall p | p in n.portMap :: n.portMap[p].flow != n.pending.flow)
  }

  lemma StepBacked(timeout: nat, n: Nat, e: Event)
    requires Backed(n) && Enabled(n, e)
    ensures Backed(Step(timeout, n, e))
  {
    if e.Sweep? {
      var n' := Step(timeout, n, e);
      forall p | p in n'.portMap ensures n'.portMap[p].flow in n'.addrMap {
        assert n.portMap[p].flow !in Removed(timeout, n.portMap, n.portMap.Keys, e.now);
      }
    }
  }

  /** Every flow entry leads back from its port, but for the one between its two steps. */
  ghost predicate Exact(n: Nat) {
    forall f | f in n.addrMap && !(n.pending.Reserved? && n.pending.flow == f) :: LeadsTo(n, n.addrMap[f], f)
  }

  /**
   The maps are inverses of each other before a commit; they are still so after it exactly
   if the port was not occupied. No other step disturbs them.
   */
  lemma StepExactIff(timeout: nat, n: Nat, e: Event)
    requires Backed(n) && Exact(n) && Enabled(n, e)
    ensures Exact(Step(timeout, n, e)) <==> (e.Commit? ==> n.pending.port !in n.portMap)
  {
    var n' := Step(timeout, n, e);
    match e
    case Hit(_) =>
    case Reserve(flow) =>
    case Commit(_) =>
      var p := n.pending.port;
      if p in n.portMap {
        var f := n.portMap[p].flow;
        assert f in n'.addrMap && n'.addrMap[f] == p && !LeadsTo(n', p, f);
      }
    case Sweep(now) =>
      forall f | f in n'.addrMap && !(n'.pending.Reserved? && n'.pending.flow == f)
        ensures LeadsTo(n', n'.addrMap[f], f)
      {
        assert LeadsTo(n, n.addrMap[f], f);
        assert f !in Removed(timeout, n.portMap, n.portMap.Keys, now);
      }
    case Inverse(_, _) =>
      forall f | f in n'.addrMap && !(n'.pending.Reserved? && n'.pending.flow == f)
        ensures LeadsTo(n', n'.addrMap[f], f)
      {
        assert LeadsTo(n, n.addrMap[f], f);
      }
  }

  /** A flow entry that its port no longer leads back to. */
  ghost predicate Orphan(n: Nat, f: Flow) {
    f in n.addrMap && !(n.pending.Reserved? && n.pending.flow == f) && !LeadsTo(n, n.addrMap[f], f)
  }

  /** No step ever repairs or removes an orphaned flow entry. */
  lemma StepKeepsOrphan(timeout: nat, n: Nat, e: Event, f: Flow)
    requires Backed(n) && Enabled(n, e) && Orphan(n, f)
    ensures var n' := Step(timeout, n, e); Orphan(n', f) && n'.addrMap[f] == n.addrMap[f]
  {
  }

  // Whole runs, with the history the statements need

  /** A machine with its allocation count, each flow's allocation number, and times of use. */
  datatype Tracked = Tracked(
    machine: Nat,
    count: nat,
    birth: map<Flow, nat>,
    lastUse: map<UInt16, int>,
    clock: int)

  function Start(clock: int): Tracked {
    Tracked(Init(), 0, map[], map[], clock)
  }

  function Time(e: Event, clock: int): int {
    match e
    case Hit(_) => clock
    case Reserve(_) => clock
    case Commit(now) => now
    case Sweep(now) => now
    case Inverse(_, now) => now
  }

  /** Steps happen in the order of a clock that does not run backwards. */
  predicate Possible(t: Tracked, e: Event) {
    Enabled(t.machine, e) && Time(e, t.clock) >= t.clock
  }

  function Advance(timeout: nat, t: Tracked, e: Event): Tracked
    requires Possible(t, e)
  {
    var t' := t.(machine := Step(timeout, t.machine, e), clock := Time(e, t.clock));
    match e
    case Hit(_) => t'
    case Reserve(flow) => t'.(count := t.count + 1, birth := t.birth[flow := t.count])
    case Commit(now) => t'.(lastUse := t.lastUse[t.machine.pending.port := now])
    case Sweep(_) => t'
    case Inverse(port, now) => if port in t.machine.portMap then t'.(lastUse := t.lastUse[port := now]) else t'
  }

  ghost predicate Reaches(timeout: nat, t: Tracked, events: seq<Event>, t': Tracked)
    decreases |events|
  {
    if events == [] then t' == t else
    Possible(t, events[0]) && Reaches(timeout, Advance(timeout, t, events[0]), events[1..], t')
  }

  /** The port that the `n`-th allocation gets. */
  function PortAt(n: nat): UInt16 {
    FIRST_PORT + n % PORTS
  }

  /** Every flow entry holds the port of its allocation, and the counter the next one. */
  ghost predicate Numbered(t: Tracked) {
    var n := t.machine;
    && NextPort(n.portIndex) == PortAt(t.count)
    && (forall f | f in n.addrMap :: f in t.birth && t.birth[f] < t.count && n.addrMap[f] == PortAt(t.birth[f]))
    && (n.pending.Reserved? ==> n.pending.flow in t.birth && t.birth[n.pending.flow] == t.count - 1)
  }

  /** The recorded activity of a session is at most a second behind its last use. */
  ghost predicate Timed(t: Tracked) {
    forall p | p in t.machine.portMap ::
      && p in t.lastUse
      && t.lastUse[p] - SECOND <= t.machine.portMap[p].lastActive <= t.lastUse[p] <= t.clock
  }

  /** What holds in every reachable state. */
  ghost predicate Consistent(t: Tracked) {
    Backed(t.machine) && Numbered(t) && Timed(t)
  }

  lemma AdvanceConsistent(timeout: nat, t: Tracked, e: Event)
    requires Consistent(t) && Possible(t, e)
    ensures Consistent(Advance(timeout, t, e))
  {
    hide Backed, Numbered, Timed, Advance;
    BackedOn(timeout, t, e);
    NumberedOn(timeout, t, e);
    TimedOn(timeout, t, e);
  }

  lemma BackedOn(timeout: nat, t: Tracked, e: Event)
    requires Backed(t.machine) && Possible(t, e)
    ensures Backed(Advance(timeout, t, e).machine)
  {
    StepBacked(timeout, t.machine, e);
  }

  lemma NumberedOn(timeout: nat, t: Tracked, e: Event)
    requires Numbered(t) && Possible(t, e)
    ensures Numbered(Advance(timeout, t, e))
  {
    NextPortWraps(t.machine.portIndex, t.count);
  }

  lemma TimedOn(timeout: nat, t: Tracked, e: Event)
    requires Timed(t) && Possible(t, e)
    ensures Timed(Advance(timeout, t, e))
  {
  }

  lemma NextPortWraps(index: UInt16, count: nat)
    requires NextPort(index) == PortAt(count)
    ensures NextPort((NextPort(index) + 1) % 0x1_0000) == PortAt(count + 1)
  {
    var r := count % PORTS;
    assert (count + 1) % PORTS == if r + 1 == PORTS then 0 else r + 1;
  }

  lemma {:induction false} ReachableConsistent(timeout: nat, t: Tracked, events: seq<Event>, t': Tracked)
    requires Consistent(t) && Reaches(timeout, t, events, t')
    ensures Consistent(t')
    decreases |events|
  {
    if events != [] {
      AdvanceConsistent(timeout, t, events[0]);
      ReachableConsistent(timeout, Advance(timeout, t, events[0]), events[1..], t');
    }
  }

  /**
   On every run: each port entry is backed by its flow entry, and the n-th allocation gets
   port 10000 + n mod 55536.
   */
  lemma AlwaysBacked(timeout: nat, clock: int, events: seq<Event>, t: Tracked)
    requires Reaches(timeout, Start(clock), events, t)
    ensures forall p | p in t.machine.portMap :: t.machine.addrMap.Keys >= {t.machine.portMap[p].flow}
                                             && t.machine.addrMap[t.machine.portMap[p].flow] == p
    ensures NextPort(t.machine.portIndex) == 10000 + t.count % 55536
    ensures forall f | f in t.machine.addrMap ::
              f in t.birth && t.birth[f] < t.count && t.machine.addrMap[f] == 10000 + t.birth[f] % 55536
  {
    ReachableConsistent(timeout, Start(clock), events, t);
  }

  // When ports are not reused too soon

  /** Fewer than 55536 allocations separate the next one from every live session's. */
  ghost predicate Unhurried(t: Tracked) {
    forall p | p in t.machine.portMap ::
      t.machine.portMap[p].flow in t.birth && t.count - t.birth[t.machine.portMap[p].flow] < 55536
  }

  /** Every reservation of a run is made in an unhurried state. */
  ghost predicate UnhurriedRun(timeout: nat, t: Tracked, events: seq<Event>)
    decreases |events|
  {
    events != [] && Possible(t, events[0]) ==>
      && (events[0].Reserve? ==> Unhurried(t))
      && UnhurriedRun(timeout, Advance(timeout, t, events[0]), events[1..])
  }

  ghost predicate Inverses(t: Tracked) {
    Consistent(t) && Exact(t.machine) && (t.machine.pending.Reserved? ==> t.machine.pending.port !in t.machine.portMap)
  }

  lemma AdvanceInverses(timeout: nat, t: Tracked, e: Event)
    requires Inverses(t) && Possible(t, e)
    requires e.Reserve? ==> Unhurried(t)
    ensures Inverses(Advance(timeout, t, e))
  {
    AdvanceConsistent(timeout, t, e);
    StepExactIff(timeout, t.machine, e);
    if e.Reserve? {
      var n := t.machine;
      var port := NextPort(n.portIndex);
      if port in n.portMap {
        DistinctPorts(t.birth[n.portMap[port].flow], t.count);
      }
    }
  }

  lemma DistinctPorts(i: nat, j: nat)
    requires i < j < i + PORTS
    ensures PortAt(i) != PortAt(j)
  {
  }

  /**
   If ports are never reused while fewer than 55536 allocations old, the two maps are exact
   inverses in every reachable state, apart from the flow whose lookup is under way.
   */
  lemma {:induction false} ReachableInverses(timeout: nat, t: Tracked, events: seq<Event>, t': Tracked)
    requires Inverses(t) && Reaches(timeout, t, events, t') && UnhurriedRun(timeout, t, events)
    ensures Inverses(t')
    decreases |events|
  {
    if events != [] {
      AdvanceInverses(timeout, t, events[0]);
      ReachableInverses(timeout, Advance(timeout, t, events[0]), events[1..], t');
    }
  }

  /** Once orphaned, a flow keeps its stale port for the rest of every run. */
  lemma {:induction false} OrphanForever(timeout: nat, t: Tracked, events: seq<Event>, t': Tracked, f: Flow)
    requires Consistent(t) && Orphan(t.machine, f) && Reaches(timeout, t, events, t')
    ensures Orphan(t'.machine, f) && t'.machine.addrMap[f] == t.machine.addrMap[f]
    decreases |events|
  {
    if events != [] {
      StepKeepsOrphan(timeout, t.machine, events[0], f);
      AdvanceConsistent(timeout, t, events[0]);
      OrphanForever(timeout, Advance(timeout, t, events[0]), events[1..], t', f);
    }
  }

  /** Every commit of a run finds its port free. */
  ghost predicate Unoccupied(timeout: nat, t: Tracked, events: seq<Event>)
    decreases |events|
  {
    events != [] && Possible(t, events[0]) ==>
      && (events[0].Commit? ==> t.machine.pending.port !in t.machine.portMap)
      && Unoccupied(timeout, Advance(timeout, t, events[0]), events[1..])
  }

  /** The maps are inverses of each other at the end of a run exactly if no commit ever took an occupied port. */
  lemma {:induction false} ExactRunIff(timeout: nat, t: Tracked, events: seq<Event>, t': Tracked)
    requires Consistent(t) && Exact(t.machine) && Reaches(timeout, t, events, t')
    ensures Exact(t'.machine) <==> Unoccupied(timeout, t, events)
    decreases |events|
  {
    hide Exact, Consistent;
    if events != [] {
      var t1 := Advance(timeout, t, events[0]);
      AdvanceConsistent(timeout, t, events[0]);
      OneStepExact(timeout, t, events[0]);
      if Exact(t1.machine) {
        ExactRunIff(timeout, t1, events[1..], t');
      } else {
        var f := OrphanOf(t1.machine);
        OrphanForever(timeout, t1, events[1..], t', f);
        OrphanInexact(t'.machine, f);
      }
    }
  }

  lemma OneStepExact(timeout: nat, t: Tracked, e: Event)
    requires Consistent(t) && Exact(t.machine) && Possible(t, e)
    ensures var n' := Advance(timeout, t, e).machine;
            && (Exact(n') <==> (e.Commit? ==> t.machine.pending.port !in t.machine.portMap))
            && (!Exact(n') ==> n'.pending.Idle?)
  {
    StepExactIff(timeout, t.machine, e);
  }

  lemma OrphanOf(n: Nat) returns (f: Flow)
    requires !Exact(n)
    ensures Orphan(n, f)
  {
    f :| f in n.addrMap && !(n.pending.Reserved? && n.pending.flow == f) && !LeadsTo(n, n.addrMap[f], f);
  }

  lemma OrphanInexact(n: Nat, f: Flow)
    requires Orphan(n, f)
    ensures !Exact(n)
  {
  }

  // When they are

  /** One lookup that misses for each of `n` flows, the clock standing still. */
  function Misses(flows: nat -> Flow, n: nat, clock: int): seq<Event> {
    if n == 0 then [] else Misses(flows, n - 1, clock) + [Reserve(flows(n - 1)), Commit(clock)]
  }

  ghost predicate Injective(flows: nat -> Flow) {
    forall i, j | i != j :: flows(i) != flows(j)
  }

  lemma {:induction false} ReachesConcat(
    timeout: nat, a: Tracked, xs: seq<Event>, b: Tracked, ys: seq<Event>, c: Tracked)
    requires Reaches(timeout, a, xs, b) && Reaches(timeout, b, ys, c)
    ensures Reaches(timeout, a, xs + ys, c)
    decreases |xs|
  {
    if xs == [] {
      assert xs + ys == ys;
    } else {
      assert (xs + ys)[1..] == xs[1..] + ys;
      ReachesConcat(timeout, Advance(timeout, a, xs[0]), xs[1..], b, ys, c);
    }
  }

  /** After `n` misses on distinct flows, flow `i` holds the port of allocation `i`. */
  ghost predicate Allocated(flows: nat -> Flow, n: nat, t: Tracked) {
    && Consistent(t) && t.count == n && t.machine.pending.Idle?
    && (forall f | f in t.machine.addrMap :: exists i: nat :: i < n && f == flows(i))
    && (forall i: nat | i < n :: flows(i) in t.machine.addrMap && t.machine.addrMap[flows(i)] == PortAt(i))
    && (n > 0 ==> LeadsTo(t.machine, PortAt(n - 1), flows(n - 1)))
  }

  lemma MissAllocates(timeout: nat, flows: nat -> Flow, n: nat, t: Tracked) returns (t': Tracked)
    requires Injective(flows) && Allocated(flows, n, t)
    ensures Reaches(timeout, t, [Reserve(flows(n)), Commit(t.clock)], t')
    ensures Allocated(flows, n + 1, t') && t'.clock == t.clock
  {
    var reserve, commit := Reserve(flows(n)), Commit(t.clock);
    var mid := Advance(timeout, t, reserve);
    t' := Advance(timeout, mid, commit);
    AdvanceConsistent(timeout, t, reserve);
    AdvanceConsistent(timeout, mid, commit);
    assert [reserve, commit][1..] == [commit] && [commit][1..] == [];
    assert Reaches(timeout, mid, [commit], t');
  }

  lemma {:induction false} MissesAllocate(timeout: nat, clock: int, flows: nat -> Flow, n: nat) returns (t: Tracked)
    requires Injective(flows)
    ensures Reaches(timeout, Start(clock), Misses(flows, n, clock), t)
    ensures Allocated(flows, n, t) && t.clock == clock
    decreases n
  {
    if n == 0 {
      t := Start(clock);
    } else {
      var before := MissesAllocate(timeout, clock, flows, n - 1);
      t := MissAllocates(timeout, flows, n - 1, before);
      var last := [Reserve(flows(n - 1)), Commit(clock)];
      ReachesConcat(timeout, Start(clock), Misses(flows, n - 1, clock), before, last, t);
    }
  }

  /**
   Port reuse is not harmless: after 55537 flows within one timeout the first still resolves
   to port 10000, but that port leads to the last, and this is so on every continuation.
   */
  lemma WrapOrphansFirst(timeout: nat, clock: int, flows: nat -> Flow) returns (t: Tracked)
    requires Injective(flows)
    ensures Reaches(timeout, Start(clock), Misses(flows, 55537, clock), t)
    ensures LeadsTo(t.machine, 10000, flows(55536))
    ensures forall events, t' | Reaches(timeout, t, events, t') ::
              Orphan(t'.machine, flows(0)) && t'.machine.addrMap[flows(0)] == 10000
  {
    hide Reaches, Misses, Consistent;
    t := MissesAllocate(timeout, clock, flows, PORTS + 1);
    assert PortAt(PORTS) == PortAt(0) == FIRST_PORT;
    assert flows(PORTS) != flows(0);
    forall events, t' | Reaches(timeout, t, events, t')
      ensures Orphan(t'.machine, flows(0)) && t'.machine.addrMap[flows(0)] == FIRST_PORT
    {
      assert Consistent(t) && Orphan(t.machine, flows(0));
      OrphanForever(timeout, t, events, t', flows(0));
    }
  }

  // Session lifetimes

  /**
   A session last used at time u survives every sweep up to u + timeout - 1 s; the first
   sweep after u + timeout removes its port entry and its flow entry together.
   */
  lemma SweepTiming(timeout: nat, clock: int, events: seq<Event>, t: Tracked, p: UInt16, now: int)
    requires Reaches(timeout, Start(clock), events, t)
    requires p in t.machine.portMap && now >= t.clock
    ensures p in t.lastUse
    ensures var s, n' := t.machine.portMap[p], Step(timeout, t.machine, Sweep(now));
            && (now <= t.lastUse[p] + timeout - 1_000_000_000 ==>
                p in n'.portMap && n'.portMap[p] == s && s.flow in n'.addrMap && n'.addrMap[s.flow] == p)
            && (now > t.lastUse[p] + timeout ==> p !in n'.portMap && s.flow !in n'.addrMap)
  {
    ReachableConsistent(timeout, Start(clock), events, t);
    StepBacked(timeout, t.machine, Sweep(now));
  }

  /** A sweep keeps exactly the sessions idle for at most the timeout, and drops the flows of the others. */
  lemma SweepIff(timeout: nat, n: Nat, now: int, p: UInt16, f: Flow)
    ensures var n' := Step(timeout, n, Sweep(now));
            && (p in n'.portMap <==> p in n.portMap && now - n.portMap[p].lastActive <= timeout)
            && (p in n'.portMap ==> n'.portMap[p] == n.portMap[p])
            && (f in n'.addrMap <==>
                f in n.addrMap
                && forall q | q in n.portMap && now - n.portMap[q].lastActive > timeout :: n.portMap[q].flow != f)
            && (f in n'.addrMap ==> n'.addrMap[f] == n.addrMap[f])
            && n'.portIndex == n.portIndex && n'.pending == n.pending
  {
  }

  /** An inverse lookup notes its time exactly if the last note is more than a second old. */
  lemma RefreshIff(timeout: nat, n: Nat, p: UInt16, now: int)
    requires p in n.portMap
    ensures var s, n' := n.portMap[p], Step(timeout, n, Inverse(p, now));
            && n'.portMap.Keys == n.portMap.Keys && n'.portMap - {p} == n.portMap - {p}
            && n'.portMap[p].flow == s.flow
            && (now - s.lastActive > 1_000_000_000 ==> n'.portMap[p].lastActive == now)
            && (now - s.lastActive <= 1_000_000_000 ==> n' == n)
  {
    assert now - n.portMap[p].lastActive <= SECOND ==> n.portMap[p := n.portMap[p]] == n.portMap;
  }

  /** A step after which `p` may lead elsewhere: a sweep that drops it or a commit that takes it. */
  predicate Disturbs(timeout: nat, n: Nat, e: Event, p: UInt16) {
    match e
    case Commit(_) => n.pending.Reserved? && n.pending.port == p
    case Sweep(now) => p in n.portMap && Expired(timeout, n.portMap[p], now)
    case _ => false
  }

  ghost predicate Undisturbed(timeout: nat, t: Tracked, events: seq<Event>, p: UInt16)
    decreases |events|
  {
    events != [] && Possible(t, events[0]) ==>
      && !Disturbs(timeout, t.machine, events[0], p)
      && Undisturbed(timeout, Advance(timeout, t, events[0]), events[1..], p)
  }

  /** A port leads to the same flow for as long as it is neither swept nor reused. */
  lemma {:induction false} LeadsOn(timeout: nat, t: Tracked, events: seq<Event>, t': Tracked, p: UInt16, f: Flow)
    requires Reaches(timeout, t, events, t') && Undisturbed(timeout, t, events, p)
    requires LeadsTo(t.machine, p, f)
    ensures LeadsTo(t'.machine, p, f)
    decreases |events|
  {
    if events != [] {
      LeadsOn(timeout, Advance(timeout, t, events[0]), events[1..], t', p, f);
    }
  }
}
