/**
 The UDP sessions of the tun as a step machine. Packets arrive in calls of their own; the
 first for a source address puts a queue into the table and starts its owner, which may start
 a writer and in the end deletes the table entry and closes the queue. A step is what happens
 under the table's lock, or one operation on a channel, or one write and release.
 */
module UdpTable {
  import opened Octets

  /** How many packets a queue's channel holds. */
  const CAPACITY := 16

  type Key = string
  type Buffer = nat

  /** Where an owner is: before it has a connection, with one, past the delete, past the close. */
  datatype Phase = Starting | Running | Leaving | Gone

  datatype Owner = Owner(queue: nat, key: Key, phase: Phase)

  datatype Writer = NotStarted | Active | Draining | Stopped

  /** `accepted`, `written` and `discarded` record what has gone through the channel, in order. */
  datatype Queue = Queue(
    packets: seq<Buffer>,
    hand: Option<Buffer>,
    closes: nat,
    writer: Writer,
    accepted: seq<Buffer>,
    written: seq<Buffer>,
    discarded: seq<Buffer>)

  datatype Call = Call(queue: nat, loaded: bool)

  datatype State = State(
    table: map<Key, nat>,
    queues: seq<Queue>,
    owners: seq<Owner>,
    calls: map<Buffer, Call>,
    released: multiset<Buffer>)

  datatype Event =
    | Arrive(key: Key, buffer: Buffer)
    | Block(buffer: Buffer)
    | Enqueue(buffer: Buffer)
    | Refuse(buffer: Buffer)
    | StartWriter(owner: nat)
    | Delete(owner: nat)
    | Close(owner: nat)
    | Take(queue: nat)
    | WriteOut(queue: nat, failed: bool)
    | SeeClosed(queue: nat)
    | Discard(queue: nat)

  function Init(): State {
    State(map[], [], [], map[], multiset{})
  }

  const FRESH_QUEUE := Queue([], None, 0, NotStarted, [], [], [])

  predicate Live(o: Owner) {
    o.phase.Starting? || o.phase.Running?
  }

  predicate CallOn(s: State, b: Buffer) {
    b in s.calls && s.calls[b].queue < |s.queues|
  }

  predicate OwnerOn(s: State, o: nat) {
    o < |s.owners| && s.owners[o].queue < |s.queues|
  }

  predicate Enabled(s: State, e: Event) {
    match e
    case Arrive(key, b) => b !in s.calls && (key in s.table ==> s.table[key] < |s.queues|)
    case Block(b) => CallOn(s, b) && s.calls[b].loaded
    case Enqueue(b) => CallOn(s, b) && |s.queues[s.calls[b].queue].packets| < CAPACITY
    case Refuse(b) => CallOn(s, b) && s.queues[s.calls[b].queue].closes > 0
    case StartWriter(o) => OwnerOn(s, o) && s.owners[o].phase.Starting?
    case Delete(o) => OwnerOn(s, o) && Live(s.owners[o])
    case Close(o) => OwnerOn(s, o) && s.owners[o].phase.Leaving?
    case Take(q) =>
      && q < |s.queues| && s.queues[q].hand.None? && s.queues[q].packets != []
      && (s.queues[q].writer.Active? || s.queues[q].writer.Draining?)
    case WriteOut(q, _) => q < |s.queues| && s.queues[q].hand.Some? && s.queues[q].writer.Active?
    case SeeClosed(q) =>
      q < |s.queues| && s.queues[q].hand.None? && s.queues[q].writer.Active? && s.queues[q].closes > 0
    case Discard(q) => q < |s.queues| && s.queues[q].hand.Some? && s.queues[q].writer.Draining?
  }

  function Step(s: State, e: Event): State
    requires Enabled(s, e)
  {
    match e
    case Arrive(key, b) =>
      if key in s.table then s.(calls := s.calls[b := Call(s.table[key], true)])
      else
        var q := |s.queues|;
        s.(table := s.table[key := q],
           queues := s.queues + [FRESH_QUEUE],
           owners := s.owners + [Owner(q, key, Starting)],
           calls := s.calls[b := Call(q, false)])
    case Block(b) => s.(calls := s.calls - {b}, released := s.released + multiset{b})
    case Enqueue(b) =>
      var q := s.calls[b].queue;
      var c := s.queues[q];
      s.(calls := s.calls - {b},
         queues := s.queues[q := c.(packets := c.packets + [b], accepted := c.accepted + [b])])
    case Refuse(b) => s.(calls := s.calls - {b}, released := s.released + multiset{b})
    case StartWriter(o) =>
      var q := s.owners[o].queue;
      s.(owners := s.owners[o := s.owners[o].(phase := Running)],
         queues := s.queues[q := s.queues[q].(writer := Active)])
    case Delete(o) =>
      s.(table := s.table - {s.owners[o].key}, owners := s.owners[o := s.owners[o].(phase := Leaving)])
    case Close(o) =>
      var q := s.owners[o].queue;
      s.(owners := s.owners[o := s.owners[o].(phase := Gone)],
         queues := s.queues[q := s.queues[q].(closes := s.queues[q].closes + 1)])
    case Take(q) =>
      var c := s.queues[q];
      s.(queues := s.queues[q := c.(packets := c.packets[1..], hand := Some(c.packets[0]))])
    case WriteOut(q, failed) =>
      var c := s.queues[q];
      s.(released := s.released + multiset{c.hand.value},
         queues := s.queues[q := c.(hand := None, written := c.written + [c.hand.value],
                                    writer := if failed then Stopped else Active)])
    case SeeClosed(q) => s.(queues := s.queues[q := s.queues[q].(writer := Draining)])
    case Discard(q) =>
      var c := s.queues[q];
      s.(released := s.released + multiset{c.hand.value},
         queues := s.queues[q := c.(hand := None, discarded := c.discarded + [c.hand.value])])
  }

  function Run(s: State, events: seq<Event>): State
    requires Possible(s, events)
    decreases |events|
  {
    if events == [] then s else Run(Step(s, events[0]), events[1..])
  }

  predicate Possible(s: State, events: seq<Event>)
    decreases |events|
  {
    events != [] ==> Enabled(s, events[0]) && Possible(Step(s, events[0]), events[1..])
  }

  // Ownership

  /**
   Every queue has one owner, which is live exactly while its queue is in the table under its
   key; a queue has been closed once if its owner is gone and never otherwise.
   */
  ghost predicate Owned(s: State) {
    && |s.owners| == |s.queues|
    && (forall o | 0 <= o < |s.owners| :: OwnerRight(s, o))
    && (forall key | key in s.table :: s.table[key] < |s.owners| && Live(s.owners[s.table[key]])
                                       && s.owners[s.table[key]].key == key)
    && (forall b | b in s.calls :: s.calls[b].queue < |s.queues|)
  }

  ghost predicate OwnerRight(s: State, o: nat)
    requires o < |s.owners| == |s.queues|
  {
    var owner, q := s.owners[o], s.queues[o];
    && owner.queue == o
    && (Live(owner) ==> owner.key in s.table && s.table[owner.key] == o)
    && q.closes == (if owner.phase.Gone? then 1 else 0)
    && (owner.phase.Starting? ==> q.writer.NotStarted?)
    && (owner.phase.Running? ==> !q.writer.NotStarted?)
    && (q.writer.Draining? ==> q.closes == 1)
    && (q.hand.Some? ==> q.writer.Active? || q.writer.Draining?)
  }

  lemma StepOwned(s: State, e: Event)
    requires Owned(s) && Enabled(s, e)
    ensures Owned(Step(s, e))
  {
    var s' := Step(s, e);
    OwnersStayRight(s, e);
    TableStaysRight(s, e);
  }

  lemma OwnersStayRight(s: State, e: Event)
    requires Owned(s) && Enabled(s, e)
    ensures var s' := Step(s, e);
            |s'.owners| == |s'.queues| && forall o | 0 <= o < |s'.owners| :: OwnerRight(s', o)
  {
    var s' := Step(s, e);
    forall o | 0 <= o < |s'.owners| ensures OwnerRight(s', o) {
      if o < |s.owners| {
        OwnerStaysRight(s, e, o);
      }
    }
  }

  lemma OwnerStaysRight(s: State, e: Event, o: nat)
    requires Owned(s) && Enabled(s, e) && o < |s.owners|
    ensures o < |Step(s, e).owners| == |Step(s, e).queues| && OwnerRight(Step(s, e), o)
  {
    assert OwnerRight(s, o);
    if e.Delete? || e.Close? || e.StartWriter? {
      assert OwnerRight(s, e.owner);
    }
  }

  lemma TableStaysRight(s: State, e: Event)
    requires Owned(s) && Enabled(s, e)
    ensures var s' := Step(s, e);
            forall key | key in s'.table ::
              && s'.table[key] < |s'.owners| && Live(s'.owners[s'.table[key]])
              && s'.owners[s'.table[key]].key == key
  {
    if e.Delete? || e.Close? || e.StartWriter? {
      assert OwnerRight(s, e.owner);
    }
  }

  lemma {:induction false} RunOwned(s: State, events: seq<Event>)
    requires Owned(s) && Possible(s, events)
    ensures Owned(Run(s, events))
    decreases |events|
  {
    hide Owned, Enabled, Step;
    if events != [] {
      StepOwned(s, events[0]);
      RunOwned(Step(s, events[0]), events[1..]);
    }
  }

  /** The live owners of a queue. */
  ghost function LiveOwners(s: State, q: nat): set<nat> {
    set o: nat | o < |s.owners| && s.owners[o].queue == q && Live(s.owners[o])
  }

  /**
   Over every interleaving: a queue in the table has never been closed and has exactly one
   live owner; no queue is closed twice; and what an owner deletes is its own queue.
   */
  lemma TableSafe(events: seq<Event>)
    requires Possible(Init(), events)
    ensures var s := Run(Init(), events);
            && (forall key | key in s.table ::
                  && s.table[key] < |s.queues| && s.queues[s.table[key]].closes == 0
                  && LiveOwners(s, s.table[key]) == {s.table[key]})
            && (forall q: nat | q < |s.queues| :: s.queues[q].closes <= 1)
            && (forall o: nat | o < |s.owners| && Live(s.owners[o]) ::
                  s.owners[o].key in s.table && s.table[s.owners[o].key] == s.owners[o].queue)
  {
    hide Enabled, Step, Possible, Run;
    RunOwned(Init(), events);
    var s := Run(Init(), events);
    forall key | key in s.table
      ensures s.table[key] < |s.queues| && s.queues[s.table[key]].closes == 0
      ensures LiveOwners(s, s.table[key]) == {s.table[key]}
    {
      assert OwnerRight(s, s.table[key]);
      forall o: nat | o < |s.owners| && s.owners[o].queue == s.table[key] ensures o == s.table[key] {
        assert OwnerRight(s, o);
      }
    }
    forall q: nat | q < |s.queues| ensures s.queues[q].closes <= 1 {
      assert OwnerRight(s, q);
    }
    forall o: nat | o < |s.owners| && Live(s.owners[o])
      ensures s.owners[o].key in s.table && s.table[s.owners[o].key] == s.owners[o].queue
    {
      assert OwnerRight(s, o);
    }
  }

  // Buffers

  function Occurs(c: Queue, b: Buffer): nat {
    multiset(c.packets)[b] + if c.hand == Some(b) then 1 else 0
  }

  function Inside(queues: seq<Queue>, b: Buffer): nat {
    if queues == [] then 0 else Occurs(queues[0], b) + Inside(queues[1..], b)
  }

  /** How often a buffer is anywhere: in a call, in a queue or a writer's hand, or released. */
  function Count(s: State, b: Buffer): nat {
    (if b in s.calls then 1 else 0) + Inside(s.queues, b) + s.released[b]
  }

  lemma {:induction false} InsideUpdate(queues: seq<Queue>, q: nat, c: Queue, b: Buffer)
    requires q < |queues|
    ensures Inside(queues[q := c], b) + Occurs(queues[q], b) == Inside(queues, b) + Occurs(c, b)
  {
    if q == 0 {
      assert queues[q := c][1..] == queues[1..];
    } else {
      assert queues[q := c][1..] == queues[1..][q - 1 := c];
      InsideUpdate(queues[1..], q - 1, c, b);
    }
  }

  lemma {:induction false} InsideFresh(queues: seq<Queue>, b: Buffer)
    ensures Inside(queues + [FRESH_QUEUE], b) == Inside(queues, b)
  {
    if queues == [] {
      assert [FRESH_QUEUE][1..] == [] && queues + [FRESH_QUEUE] == [FRESH_QUEUE];
    } else {
      assert (queues + [FRESH_QUEUE])[1..] == queues[1..] + [FRESH_QUEUE];
      InsideFresh(queues[1..], b);
    }
  }

  /** The queue that a step works on. */
  function Target(s: State, e: Event): Option<nat>
    requires Enabled(s, e)
  {
    match e
    case Enqueue(b) => Some(s.calls[b].queue)
    case StartWriter(o) => Some(s.owners[o].queue)
    case Close(o) => Some(s.owners[o].queue)
    case Take(q) => Some(q)
    case WriteOut(q, _) => Some(q)
    case SeeClosed(q) => Some(q)
    case Discard(q) => Some(q)
    case _ => None
  }

  lemma OthersUntouched(s: State, e: Event)
    requires Enabled(s, e) && !e.Arrive?
    ensures |Step(s, e).queues| == |s.queues|
    ensures match Target(s, e)
            case None => Step(s, e).queues == s.queues
            case Some(q) => q < |s.queues| && Step(s, e).queues == s.queues[q := Step(s, e).queues[q]]
  {
  }

  /** What leaves a queue is released; what leaves a call is released or enters the queue. */
  lemma Balance(s: State, e: Event, b: Buffer)
    requires Enabled(s, e) && !e.Arrive?
    ensures match Target(s, e)
            case None =>
              (if b in Step(s, e).calls then 1 else 0) + Step(s, e).released[b]
              == (if b in s.calls then 1 else 0) + s.released[b]
            case Some(q) =>
              q < |s.queues| == |Step(s, e).queues| &&
              (if b in Step(s, e).calls then 1 else 0) + Step(s, e).released[b] + Occurs(Step(s, e).queues[q], b)
              == (if b in s.calls then 1 else 0) + s.released[b] + Occurs(s.queues[q], b)
  {
    if e.Take? {
      var c := s.queues[e.queue];
      assert c.packets == [c.packets[0]] + c.packets[1..];
    }
  }

  /** No step makes, loses or doubles a buffer; only its arrival brings it in. */
  lemma StepConserves(s: State, e: Event, b: Buffer)
    requires Enabled(s, e)
    ensures Count(Step(s, e), b) == Count(s, b) + if e.Arrive? && e.buffer == b then 1 else 0
  {
    hide Inside, Occurs;
    if e.Arrive? {
      InsideFresh(s.queues, b);
    } else {
      hide Step, Enabled;
      Balance(s, e, b);
      OthersUntouched(s, e);
      if Target(s, e).Some? {
        InsideUpdate(s.queues, Target(s, e).value, Step(s, e).queues[Target(s, e).value], b);
      }
    }
  }

  function Arrivals(events: seq<Event>, b: Buffer): nat {
    if events == [] then 0
    else (if events[0].Arrive? && events[0].buffer == b then 1 else 0) + Arrivals(events[1..], b)
  }

  lemma {:induction false} RunConserves(s: State, events: seq<Event>, b: Buffer)
    requires Possible(s, events)
    ensures Count(Run(s, events), b) == Count(s, b) + Arrivals(events, b)
    decreases |events|
  {
    hide Count, Enabled, Step;
    if events != [] {
      StepConserves(s, events[0], b);
      RunConserves(Step(s, events[0]), events[1..], b);
    }
  }

  /** A buffer that arrives once is released at most once, and then is nowhere else. */
  lemma ReleasedOnce(events: seq<Event>, b: Buffer)
    requires Possible(Init(), events) && Arrivals(events, b) <= 1
    ensures var s := Run(Init(), events);
            && s.released[b] <= 1
            && (s.released[b] == 1 ==> b !in s.calls && Inside(s.queues, b) == 0)
  {
    RunConserves(Init(), events, b);
  }

  // Order

  function InHand(c: Queue): seq<Buffer> {
    if c.hand.Some? then [c.hand.value] else []
  }

  /**
   What went into a queue is what was written, then what was discarded, then what is in the
   writer's hand, then what still waits: so packets are written in the order of their
   enqueueing, and none is written once discarding has begun.
   */
  ghost predicate InOrder(c: Queue) {
    && c.accepted == c.written + c.discarded + InHand(c) + c.packets
    && (c.writer.NotStarted? || c.writer.Active? || c.writer.Stopped? ==> c.discarded == [])
    && (c.writer.NotStarted? ==> c.written == [])
    && (c.hand.Some? ==> c.writer.Active? || c.writer.Draining?)
  }

  ghost predicate AllInOrder(s: State) {
    forall q: nat | q < |s.queues| :: InOrder(s.queues[q])
  }

  lemma StepInOrder(s: State, e: Event)
    requires AllInOrder(s) && Owned(s) && Enabled(s, e)
    ensures AllInOrder(Step(s, e))
  {
    var s' := Step(s, e);
    forall q: nat | q < |s'.queues| ensures InOrder(s'.queues[q]) {
      if q < |s.queues| {
        assert InOrder(s.queues[q]) && OwnerRight(s, q);
        if e.StartWriter? {
          assert OwnerRight(s, e.owner);
        }
        StillInOrder(s, e, q);
      }
    }
  }

  lemma StillInOrder(s: State, e: Event, q: nat)
    requires Enabled(s, e) && q < |s.queues| && InOrder(s.queues[q])
    requires e.StartWriter? && s.owners[e.owner].queue == q ==> s.queues[q].writer.NotStarted?
    ensures InOrder(Step(s, e).queues[q])
  {
    var c, c' := s.queues[q], Step(s, e).queues[q];
    if c != c' {
      match e
      case Enqueue(b) =>
        assert c.written + c.discarded + InHand(c) + (c.packets + [b]) == c.accepted + [b];
      case Take(_) =>
        assert c.packets == InHand(c') + c'.packets;
        assert c.written + c.discarded + [] + c.packets == c.written + c.discarded + InHand(c') + c'.packets;
      case WriteOut(_, _) =>
        assert c.written + [] + InHand(c) + c.packets == c'.written + [] + [] + c.packets;
      case Discard(_) =>
        assert c.written + c.discarded + InHand(c) + c.packets == c.written + c'.discarded + [] + c.packets;
      case _ =>
    }
  }

  lemma {:induction false} RunInOrder(s: State, events: seq<Event>)
    requires AllInOrder(s) && Owned(s) && Possible(s, events)
    ensures AllInOrder(Run(s, events))
    decreases |events|
  {
    hide Owned, AllInOrder, Enabled, Step;
    if events != [] {
      StepInOrder(s, events[0]);
      StepOwned(s, events[0]);
      RunInOrder(Step(s, events[0]), events[1..]);
    }
  }

  lemma StepFits(s: State, e: Event)
    requires Enabled(s, e) && forall c | c in s.queues :: |c.packets| <= 16
    ensures forall c | c in Step(s, e).queues :: |c.packets| <= 16
  {
  }

  /** No queue ever holds more than 16 packets. */
  lemma {:induction false} RunFits(s: State, events: seq<Event>)
    requires Possible(s, events) && forall c | c in s.queues :: |c.packets| <= 16
    ensures forall c | c in Run(s, events).queues :: |c.packets| <= 16
    decreases |events|
  {
    hide Enabled, Step;
    if events != [] {
      StepFits(s, events[0]);
      RunFits(Step(s, events[0]), events[1..]);
    }
  }

  /** Over every interleaving each queue writes a prefix of what it accepted, in order. */
  lemma WrittenInOrder(events: seq<Event>, q: nat)
    requires Possible(Init(), events) && q < |Run(Init(), events).queues|
    ensures var c := Run(Init(), events).queues[q];
            && c.written <= c.accepted
            && c.accepted == c.written + c.discarded + InHand(c) + c.packets
            && |c.packets| <= 16
            && (c.discarded != [] ==> c.writer.Draining? && c.closes == 1)
  {
    hide Enabled, Step, Possible, Run;
    RunOwned(Init(), events);
    RunFits(Init(), events);
    assert OwnerRight(Run(Init(), events), q);
    RunInOrder(Init(), events);
    var c := Run(Init(), events).queues[q];
    assert InOrder(c);
    assert c.accepted == c.written + (c.discarded + InHand(c) + c.packets);
  }

  // Routing

  /** The sources under which buffers have arrived. */
  function ArrivedAs(events: seq<Event>): set<(Key, Buffer)> {
    set i | 0 <= i < |events| && events[i].Arrive? :: (events[i].key, events[i].buffer)
  }

  /** Whatever is on call for a queue, or has ever been accepted by it, arrived under its owner's key. */
  ghost predicate Routed(s: State, arrived: set<(Key, Buffer)>) {
    && |s.owners| == |s.queues|
    && (forall b | b in s.calls :: s.calls[b].queue < |s.owners| && (s.owners[s.calls[b].queue].key, b) in arrived)
    && (forall q: nat, b | q < |s.queues| && b in s.queues[q].accepted :: (s.owners[q].key, b) in arrived)
  }

  lemma StepRouted(s: State, e: Event, arrived: set<(Key, Buffer)>)
    requires Owned(s) && Enabled(s, e) && Routed(s, arrived)
    ensures Routed(Step(s, e), arrived + ArrivedAs([e]))
  {
    if e.Arrive? {
      assert [e][0] == e;
      assert (e.key, e.buffer) in ArrivedAs([e]);
    }
  }

  lemma ArrivedFirst(events: seq<Event>)
    requires events != []
    ensures ArrivedAs(events) == ArrivedAs([events[0]]) + ArrivedAs(events[1..])
  {
    var first := [events[0]];
    forall x | x in ArrivedAs(events) ensures x in ArrivedAs(first) + ArrivedAs(events[1..]) {
      var i :| 0 <= i < |events| && events[i].Arrive? && x == (events[i].key, events[i].buffer);
      assert if i == 0 then first[0] == events[i] else events[1..][i - 1] == events[i];
    }
    forall x | x in ArrivedAs(events[1..]) ensures x in ArrivedAs(events) {
      var i :| 0 <= i < |events[1..]| && events[1..][i].Arrive? && x == (events[1..][i].key, events[1..][i].buffer);
      assert events[i + 1] == events[1..][i];
    }
    assert forall x | x in ArrivedAs(first) :: x in ArrivedAs(events) by {
      assert first[0] == events[0];
    }
  }

  lemma {:induction false} RunRouted(s: State, events: seq<Event>, arrived: set<(Key, Buffer)>)
    requires Owned(s) && Possible(s, events) && Routed(s, arrived)
    ensures Routed(Run(s, events), arrived + ArrivedAs(events))
    decreases |events|
  {
    hide Owned, Enabled, Step, Routed, ArrivedAs;
    if events == [] {
      NoArrivals();
      assert arrived + {} == arrived;
    } else {
      StepOwned(s, events[0]);
      StepRouted(s, events[0], arrived);
      RunRouted(Step(s, events[0]), events[1..], arrived + ArrivedAs([events[0]]));
      ArrivedFirst(events);
      assert arrived + ArrivedAs([events[0]]) + ArrivedAs(events[1..])
          == arrived + (ArrivedAs([events[0]]) + ArrivedAs(events[1..]));
    }
  }

  lemma NoArrivals()
    ensures ArrivedAs([]) == {}
  {
  }

  /** A queue has to do with a buffer: it is on call for it, waits in it, or has gone through it. */
  predicate Concerns(s: State, q: nat, b: Buffer)
    requires q < |s.queues|
  {
    || (b in s.calls && s.calls[b].queue == q)
    || b in s.queues[q].packets || s.queues[q].hand == Some(b)
    || b in s.queues[q].written || b in s.queues[q].discarded
  }

  /**
   Over every interleaving, a queue has to do only with buffers that arrived under its owner's
   key: no packet of one source is ever written on the connection of another.
   */
  lemma RoutedBySource(events: seq<Event>, q: nat, b: Buffer)
    requires Possible(Init(), events) && q < |Run(Init(), events).queues|
    requires Concerns(Run(Init(), events), q, b)
    ensures var s := Run(Init(), events);
            q < |s.owners| && exists i | 0 <= i < |events| :: events[i] == Arrive(s.owners[q].key, b)
  {
    hide Enabled, Step, Possible, Run;
    var s := Run(Init(), events);
    RunRouted(Init(), events, {});
    RunInOrder(Init(), events);
    var c := s.queues[q];
    assert InOrder(c);
    assert (s.owners[q].key, b) in {} + ArrivedAs(events);
    var i :| 0 <= i < |events| && events[i].Arrive? && (s.owners[q].key, b) == (events[i].key, events[i].buffer);
    assert events[i] == Arrive(s.owners[q].key, b);
  }

  /** An arrival goes to the queue that its source has in the table then, known before or not. */
  lemma ArrivalRouted(s: State, key: Key, b: Buffer)
    requires Owned(s) && Enabled(s, Arrive(key, b))
    ensures var s' := Step(s, Arrive(key, b));
            && key in s'.table && s'.calls[b].queue == s'.table[key] && s'.table - {key} == s.table - {key}
            && (s'.calls[b].loaded <==> key in s.table)
            && (key in s.table ==> s'.table == s.table && s'.queues == s.queues && s'.owners == s.owners)
            && (key !in s.table ==> |s'.queues| == |s.queues| + 1 == |s'.owners| && s'.table[key] == |s.queues|)
  {
  }

  // Which buffers are never released

  /** No one will take packets from the queue again. */
  predicate Deserted(s: State, q: nat)
    requires q < |s.owners| && q < |s.queues|
  {
    s.queues[q].writer.Stopped? || (s.queues[q].writer.NotStarted? && !Live(s.owners[q]))
  }

  lemma StepDeserted(s: State, e: Event, q: nat)
    requires Owned(s) && Enabled(s, e) && q < |s.queues| && Deserted(s, q)
    ensures var s' := Step(s, e);
            q < |s'.queues| && q < |s'.owners| && Deserted(s', q) && s.queues[q].packets <= s'.queues[q].packets
  {
    assert OwnerRight(s, q);
    if e.StartWriter? || e.Close? || e.Delete? {
      assert OwnerRight(s, e.owner);
    }
  }

  /** A deserted queue keeps its packets on every continuation: their buffers stay unreleased. */
  lemma {:induction false} DesertedForever(s: State, events: seq<Event>, q: nat)
    requires Owned(s) && Possible(s, events) && q < |s.queues| && Deserted(s, q)
    ensures var t := Run(s, events);
            q < |t.queues| && s.queues[q].packets <= t.queues[q].packets
    decreases |events|
  {
    hide Owned, Enabled, Step;
    if events != [] {
      StepDeserted(s, events[0], q);
      StepOwned(s, events[0]);
      OwnersMatch(Step(s, events[0]));
      DesertedForever(Step(s, events[0]), events[1..], q);
    } else {
      OwnersMatch(s);
    }
  }

  // When a writer ends

  /** The writer of a queue has returned. */
  predicate Ended(s: State, q: nat) {
    q < |s.queues| && s.queues[q].writer.Stopped?
  }

  lemma StepEnded(s: State, e: Event, q: nat)
    requires Owned(s) && Enabled(s, e)
    ensures Ended(Step(s, e), q) <==> Ended(s, q) || e == WriteOut(q, true)
    ensures q < |s.queues| && s.queues[q].writer.Draining? ==>
              q < |Step(s, e).queues| && Step(s, e).queues[q].writer.Draining?
  {
    if q < |s.queues| {
      assert OwnerRight(s, q);
    }
    if e.StartWriter? || e.Close? || e.Delete? {
      assert OwnerRight(s, e.owner);
    }
  }

  /** A writer returns exactly if one of its writes fails; closing its queue does not end it. */
  lemma {:induction false} WriterEndsIff(s: State, events: seq<Event>, q: nat)
    requires Owned(s) && Possible(s, events)
    ensures Ended(Run(s, events), q) <==> Ended(s, q) || WriteOut(q, true) in events
    decreases |events|
  {
    hide Owned, Enabled, Step, Ended;
    if events != [] {
      StepEnded(s, events[0], q);
      StepOwned(s, events[0]);
      WriterEndsIff(Step(s, events[0]), events[1..], q);
      assert events == [events[0]] + events[1..];
    }
  }

  /** A writer that has seen its queue closed discards for ever: nothing makes it return. */
  lemma {:induction false} DrainingForever(s: State, events: seq<Event>, q: nat)
    requires Owned(s) && Possible(s, events) && q < |s.queues| && s.queues[q].writer.Draining?
    ensures q < |Run(s, events).queues| && Run(s, events).queues[q].writer.Draining?
    decreases |events|
  {
    hide Owned, Enabled, Step;
    if events != [] {
      StepEnded(s, events[0], q);
      StepOwned(s, events[0]);
      DrainingForever(Step(s, events[0]), events[1..], q);
    }
  }

  lemma OwnersMatch(s: State)
    requires Owned(s)
    ensures |s.owners| == |s.queues|
  {
  }

  lemma {:induction false} RunConcat(s: State, a: seq<Event>, b: seq<Event>)
    requires Possible(s, a) && Possible(Run(s, a), b)
    ensures Possible(s, a + b) && Run(s, a + b) == Run(Run(s, a), b)
    ensures forall x :: Arrivals(a + b, x) == Arrivals(a, x) + Arrivals(b, x)
    decreases |a|
  {
    hide Enabled, Step;
    if a == [] {
      assert a + b == b;
    } else {
      assert (a + b)[1..] == a[1..] + b;
      RunConcat(Step(s, a[0]), a[1..], b);
    }
  }

  lemma RunOne(s: State, e: Event)
    requires Enabled(s, e)
    ensures Possible(s, [e]) && Run(s, [e]) == Step(s, e)
    ensures !e.Arrive? ==> forall x :: Arrivals([e], x) == 0
  {
    hide Enabled, Step;
    assert [e][1..] == [];
  }

  /** A queue whose writer could take its next packet at once. */
  predicate Ready(s: State, q: nat) {
    && q < |s.queues| && s.queues[q].hand.None?
    && (s.queues[q].writer.Active? || s.queues[q].writer.Draining?)
  }

  /** The one step, if any, after which the writer is ready. */
  lemma MakeReady(s: State, q: nat) returns (events: seq<Event>)
    requires Owned(s) && q < |s.queues| == |s.owners| && !Deserted(s, q)
    ensures Possible(s, events) && forall x :: Arrivals(events, x) == 0
    ensures var t := Run(s, events);
            Owned(t) && Ready(t, q) && t.queues[q].packets == s.queues[q].packets
  {
    assert OwnerRight(s, q);
    var c := s.queues[q];
    var e :=
      if c.writer.NotStarted? then StartWriter(q)
      else if c.writer.Active? then WriteOut(q, false)
      else Discard(q);
    if Ready(s, q) {
      events := [];
    } else {
      StepOwned(s, e);
      RunOne(s, e);
      events := [e];
    }
  }

  /** From a queue that is not deserted, whatever waits at its head can be released. */
  lemma HeadReleasable(s: State, q: nat) returns (events: seq<Event>)
    requires Owned(s) && q < |s.queues| == |s.owners| && !Deserted(s, q) && s.queues[q].packets != []
    ensures Possible(s, events) && forall x :: Arrivals(events, x) == 0
    ensures var t := Run(s, events);
            && Owned(t) && q < |t.queues| == |t.owners| && !Deserted(t, q)
            && t.queues[q].packets == s.queues[q].packets[1..]
            && s.queues[q].packets[0] in t.released
  {
    hide Owned, Enabled, Run, Possible, Arrivals;
    var prepare := MakeReady(s, q);
    var t := Run(s, prepare);
    var finish := if t.queues[q].writer.Active? then WriteOut(q, false) else Discard(q);
    TakeAndFinish(t, q, finish);
    RunConcat(s, prepare, [Take(q), finish]);
    events := prepare + [Take(q), finish];
  }

  lemma TakeAndFinish(s: State, q: nat, finish: Event)
    requires Owned(s) && Ready(s, q) && s.queues[q].packets != []
    requires finish == if s.queues[q].writer.Active? then WriteOut(q, false) else Discard(q)
    ensures Possible(s, [Take(q), finish]) && forall x :: Arrivals([Take(q), finish], x) == 0
    ensures var t := Run(s, [Take(q), finish]);
            && Owned(t) && q < |t.queues| == |t.owners| && !Deserted(t, q)
            && t.queues[q].packets == s.queues[q].packets[1..]
            && s.queues[q].packets[0] in t.released
  {
    hide Owned, Run, Possible, Arrivals;
    var s1 := Step(s, Take(q));
    StepOwned(s, Take(q));
    StepOwned(s1, finish);
    RunOne(s, Take(q));
    RunOne(s1, finish);
    RunConcat(s, [Take(q)], [finish]);
    assert [Take(q)] + [finish] == [Take(q), finish];
    OwnersMatch(Step(s1, finish));
  }

  /** The first `n` packets of a queue that is not deserted can all be released. */
  lemma {:induction false} AllReleasable(s: State, q: nat, i: nat) returns (events: seq<Event>)
    requires Owned(s) && q < |s.queues| == |s.owners| && !Deserted(s, q) && i < |s.queues[q].packets|
    ensures Possible(s, events) && s.queues[q].packets[i] in Run(s, events).released
    ensures forall x :: Arrivals(events, x) == 0
    decreases i
  {
    hide Owned, Enabled, Run, Possible, Arrivals, Deserted;
    events := HeadReleasable(s, q);
    if i > 0 {
      var more := AllReleasable(Run(s, events), q, i - 1);
      RunConcat(s, events, more);
      events := events + more;
    }
  }

  ghost predicate Releases(s: State, events: seq<Event>, b: Buffer) {
    Possible(s, events) && Arrivals(events, b) == 0 && b in Run(s, events).released
  }

  /**
   A waiting buffer can still be released on some continuation exactly if its queue is not
   deserted, that is, unless the writer failed, or the owner left without having started one.
   */
  lemma ReleasableIff(s: State, q: nat, i: nat)
    requires Owned(s) && q < |s.queues| == |s.owners| && i < |s.queues[q].packets|
    requires Count(s, s.queues[q].packets[i]) == 1
    ensures (exists events :: Releases(s, events, s.queues[q].packets[i])) <==> !Deserted(s, q)
  {
    hide Owned, Enabled, Run, Possible, Arrivals, Deserted, Count, Step;
    var b := s.queues[q].packets[i];
    if Deserted(s, q) {
      forall events | Possible(s, events) && Arrivals(events, b) == 0 ensures b !in Run(s, events).released {
        DesertedForever(s, events, q);
        RunConserves(s, events, b);
        var t := Run(s, events);
        assert b == t.queues[q].packets[i];
        WaitingUnreleased(t, q, b);
      }
    } else {
      var events := AllReleasable(s, q, i);
      assert Releases(s, events, b);
    }
  }

  lemma WaitingUnreleased(s: State, q: nat, b: Buffer)
    requires q < |s.queues| && b in s.queues[q].packets && Count(s, b) == 1
    ensures b !in s.released
  {
    InsideAtLeast(s.queues, q, b);
  }

  lemma {:induction false} InsideAtLeast(queues: seq<Queue>, q: nat, b: Buffer)
    requires q < |queues| && b in queues[q].packets
    ensures Inside(queues, b) >= 1
  {
    if q > 0 {
      InsideAtLeast(queues[1..], q - 1, b);
    }
  }
}
