/** The TCP forwarder's rewriting of packets, in place in the packet buffer. */
module TcpRewrite {
  import opened Octets
  import opened Checksum
  import opened TcpNatSpec
  import opened TcpRewriteSpec
  import opened TcpNat

  /** Overwrites part of the packet. */
  method SetBytes(pkt: array<Byte>, off: nat, b: Bytes)
    requires off + |b| <= pkt.Length
    modifies pkt
    ensures pkt[..] == Put(old(pkt[..]), off, b)
  {
    ghost var was := pkt[..];
    forall i | off <= i < off + |b| {
      pkt[i] := b[i - off];
    }
    assert pkt[..off] == was[..off] && pkt[off..off + |b|] == b && pkt[off + |b|..] == was[off + |b|..];
    assert pkt[..] == pkt[..off] + pkt[off..off + |b|] + pkt[off + |b|..];
  }

  /** An address is copied into its field as far as both reach. */
  function Fitting(addr: Bytes, size: nat): Bytes {
    addr[..Min(|addr|, size)]
  }

  /** The packet with its four endpoint fields set. */
  function Readdressed(p: Bytes, l: Layout, to: Flow): Bytes
    requires WellFormed(p, l)
  {
    var p1 := Put(p, l.source, Fitting(to.source.addr, l.size));
    var p2 := Put(p1, l.tcp, Be16(to.source.port));
    var p3 := Put(p2, l.destination, Fitting(to.destination.addr, l.size));
    Put(p3, l.tcp + 2, Be16(to.destination.port))
  }

  lemma ReaddressedFields(p: Bytes, l: Layout, to: Flow)
    requires WellFormed(p, l)
    ensures var r := Readdressed(p, l, to);
            && WellFormed(r, l) && Kept(p, r, l) && Carries(p, r, l, to)
            && (Flow(Source(r, l), Destination(r, l)) == to
                <==> |to.source.addr| == |to.destination.addr| == l.size)
  {
    hide Put, Kept, WellFormed, Carries;
    Bounds(p, l);
    KeptSelf(p, l);
    var s, d := Fitting(to.source.addr, l.size), Fitting(to.destination.addr, l.size);
    var sp, dp := Be16(to.source.port), Be16(to.destination.port);
    var p1 := Put(p, l.source, s);
    PutKept(p, p, l, l.source, s);
    var p2 := Put(p1, l.tcp, sp);
    PutKept(p, p1, l, l.tcp, sp);
    var p3 := Put(p2, l.destination, d);
    PutKept(p, p2, l, l.destination, d);
    var r := Put(p3, l.tcp + 2, dp);
    PutKept(p, p3, l, l.tcp + 2, dp);
    FieldsRead(p, l, s, sp, d, dp);
    ReadsFields(p, r, l, to);
  }

  /** An address field after an address was copied over its front. */
  function Overlaid(addr: Bytes, field: Bytes): Bytes {
    addr[..Min(|addr|, |field|)] + field[Min(|addr|, |field|)..]
  }

  /** The ports are the given ones; so are the addresses as far as they reach, and the rest is left. */
  ghost predicate Carries(p: Bytes, r: Bytes, l: Layout, to: Flow)
    requires WellFormed(p, l) && WellFormed(r, l)
  {
    && Source(r, l) == Endpoint(Overlaid(to.source.addr, Source(p, l).addr), to.source.port)
    && Destination(r, l) == Endpoint(Overlaid(to.destination.addr, Destination(p, l).addr), to.destination.port)
  }

  lemma ReadsFields(p: Bytes, r: Bytes, l: Layout, to: Flow)
    requires WellFormed(p, l) && WellFormed(r, l)
    requires AddressRead(p, r, l.source, l.size, Fitting(to.source.addr, l.size))
    requires AddressRead(p, r, l.destination, l.size, Fitting(to.destination.addr, l.size))
    requires r[l.tcp..l.tcp + 2] == Be16(to.source.port) && r[l.tcp + 2..l.tcp + 4] == Be16(to.destination.port)
    ensures Carries(p, r, l, to)
    ensures Flow(Source(r, l), Destination(r, l)) == to <==> |to.source.addr| == |to.destination.addr| == l.size
  {
    hide WellFormed, Be16, FromBe16, Fitting, AddressRead, Overlaid;
    Bounds(p, l);
    Bounds(r, l);
    PortsRead(to.source.port, to.destination.port);
    FieldRead(p, r, l.source, l.size, to.source.addr);
    FieldRead(p, r, l.destination, l.size, to.destination.addr);
  }

  lemma PortsRead(a: UInt16, b: UInt16)
    ensures FromBe16(Be16(a)) == a && FromBe16(Be16(b)) == b
  {
  }

  /** The field of `size` bytes at `off` starts with `s` and is otherwise as it was. */
  predicate AddressRead(p: Bytes, r: Bytes, off: nat, size: nat, s: Bytes) {
    && |s| <= size && off + size <= |r| && off + size <= |p|
    && r[off..off + |s|] == s && r[off + |s|..off + size] == p[off + |s|..off + size]
  }

  lemma FieldRead(p: Bytes, r: Bytes, off: nat, size: nat, addr: Bytes)
    requires AddressRead(p, r, off, size, Fitting(addr, size))
    ensures r[off..off + size] == Overlaid(addr, p[off..off + size])
    ensures r[off..off + size] == addr ==> |addr| == size
    ensures |addr| == size ==> r[off..off + size] == addr
  {
    var s := Fitting(addr, size);
    assert r[off..off + size] == r[off..off + |s|] + r[off + |s|..off + size];
    assert p[off..off + size][|s|..] == p[off + |s|..off + size];
  }

  lemma FieldsRead(p: Bytes, l: Layout, s: Bytes, sp: Bytes, d: Bytes, dp: Bytes)
    requires l.source + l.size == l.destination && l.destination + l.size <= l.tcp && l.tcp + 4 <= |p|
    requires |s| <= l.size && |d| <= l.size && |sp| == |dp| == 2
    ensures var r := Put(Put(Put(Put(p, l.source, s), l.tcp, sp), l.destination, d), l.tcp + 2, dp);
            && AddressRead(p, r, l.source, l.size, s) && AddressRead(p, r, l.destination, l.size, d)
            && r[l.tcp..l.tcp + 2] == sp && r[l.tcp + 2..l.tcp + 4] == dp
  {
    hide Put;
    var p1 := Put(p, l.source, s);
    var p2 := Put(p1, l.tcp, sp);
    var p3 := Put(p2, l.destination, d);
    var r := Put(p3, l.tcp + 2, dp);
    SourceRead(p, l, s, sp, d, dp);
    PutSlice(p, l.source, s, l.destination + |d|, l.tcp);
    PutSlice(p1, l.tcp, sp, l.destination + |d|, l.tcp);
    PutSlice(p2, l.destination, d, l.destination + |d|, l.tcp);
    PutSlice(p3, l.tcp + 2, dp, l.destination + |d|, l.tcp);
    SubSlice(p, r, l.destination + |d|, l.tcp, l.destination + |d|, l.destination + l.size);
    PutSlice(p2, l.destination, d, l.tcp, l.tcp + 2);
    PutSlice(p3, l.tcp + 2, dp, l.tcp, l.tcp + 2);
    PutSlice(p3, l.tcp + 2, dp, l.destination, l.destination + |d|);
  }

  lemma SourceRead(p: Bytes, l: Layout, s: Bytes, sp: Bytes, d: Bytes, dp: Bytes)
    requires l.source + l.size == l.destination && l.destination + l.size <= l.tcp && l.tcp + 4 <= |p|
    requires |s| <= l.size && |d| <= l.size && |sp| == |dp| == 2
    ensures var r := Put(Put(Put(Put(p, l.source, s), l.tcp, sp), l.destination, d), l.tcp + 2, dp);
            AddressRead(p, r, l.source, l.size, s)
  {
    hide Put;
    var p1 := Put(p, l.source, s);
    var p2 := Put(p1, l.tcp, sp);
    var p3 := Put(p2, l.destination, d);
    PutSlice(p, l.source, s, l.source + |s|, l.destination);
    PutSlice(p1, l.tcp, sp, l.source, l.source + |s|);
    PutSlice(p1, l.tcp, sp, l.source + |s|, l.destination);
    PutSlice(p2, l.destination, d, l.source, l.source + |s|);
    PutSlice(p2, l.destination, d, l.source + |s|, l.destination);
    PutSlice(p3, l.tcp + 2, dp, l.source, l.source + |s|);
    PutSlice(p3, l.tcp + 2, dp, l.source + |s|, l.destination);
  }

  lemma Bounds(p: Bytes, l: Layout)
    requires WellFormed(p, l)
    ensures l.source + l.size == l.destination && l.destination + l.size <= l.tcp
    ensures l.tcp + 20 <= l.end <= |p| && l.source % 2 == l.size % 2 == l.tcp % 2 == 0
  {
  }

  lemma KeptSelf(p: Bytes, l: Layout)
    ensures Kept(p, p, l)
  {
  }

  /** Writing inside the endpoint or checksum fields keeps the rest and the layout. */
  lemma PutKept(p0: Bytes, p: Bytes, l: Layout, off: nat, b: Bytes)
    requires WellFormed(p, l) && Kept(p0, p, l)
    requires || (l.source <= off && off + |b| <= l.destination + l.size)
             || (l.tcp <= off && off + |b| <= l.tcp + 4)
             || (off == l.tcp + 16 && |b| == 2) || (off == 10 && |b| == 2)
    ensures Kept(p0, Put(p, off, b), l) && WellFormed(Put(p, off, b), l)
  {
  }

  lemma PutSlice(p: Bytes, off: nat, b: Bytes, i: nat, j: nat)
    requires off + |b| <= |p| && i <= j <= |p|
    requires j <= off || off + |b| <= i
    ensures Put(p, off, b)[i..j] == p[i..j]
    ensures Put(p, off, b)[off..off + |b|] == b
  {
  }

  lemma PutInside(p: Bytes, from: nat, to: nat, off: nat, b: Bytes)
    requires from <= to <= |p| && off + |b| <= to - from
    ensures Put(p, from + off, b)[from..to] == Put(p[from..to], off, b)
    ensures b == [] || Put(p[from..to], off, b)[off..off + |b|] == b
  {
  }

  // Checksums

  /** What the packet becomes when its TCP checksum is recomputed. */
  function TcpFilled(p: Bytes, l: Layout): Bytes
    requires WellFormed(p, l)
  {
    var zeroed := Put(p, l.tcp + 16, [0, 0]);
    var sum := Fold(Words(PseudoHeader(p, l) + zeroed[l.tcp..l.end]));
    Put(zeroed, l.tcp + 16, Be16(Complement(sum)))
  }

  lemma TcpFilledVerifies(p: Bytes, l: Layout)
    requires WellFormed(p, l)
    ensures var r := TcpFilled(p, l);
            && WellFormed(r, l) && Kept(p, r, l)
            && Source(r, l) == Source(p, l) && Destination(r, l) == Destination(p, l)
            && r[..l.tcp] == p[..l.tcp]
            && SegmentVerifies(PseudoHeader(r, l), Segment(r, l))
            && SegmentVerifies(PseudoHeaderV6(r, l), Segment(r, l))
  {
    hide Words, Fold, Put, Kept, WellFormed, PseudoHeader, PseudoHeaderV6, Source, Destination;
    Bounds(p, l);
    KeptSelf(p, l);
    var zeroed := Put(p, l.tcp + 16, [0, 0]);
    PutKept(p, p, l, l.tcp + 16, [0, 0]);
    var pseudo, b := PseudoHeader(p, l), zeroed[l.tcp..l.end];
    var field := Be16(Complement(Fold(Words(pseudo + b))));
    var r := Put(zeroed, l.tcp + 16, field);
    PutKept(p, zeroed, l, l.tcp + 16, field);
    PutInside(p, l.tcp, l.end, 16, [0, 0]);
    PutInside(zeroed, l.tcp, l.end, 16, field);
    PseudoWords(p, l);
    FillVerifies(pseudo, b, 16);
    PutSlice(p, l.tcp + 16, [0, 0], 0, l.tcp + 4);
    PutSlice(zeroed, l.tcp + 16, field, 0, l.tcp + 4);
    FromHeader(p, r, l, 0, l.tcp + 4);
    SubSlice(p, r, 0, l.tcp + 4, 0, l.tcp);
    PseudoWords(r, l);
    WordsConcat(pseudo, Segment(r, l));
    WordsConcat(PseudoHeaderV6(r, l), Segment(r, l));
  }

  /** Endpoints and pseudo-header are read from the header and the first TCP bytes. */
  lemma FromHeader(p: Bytes, r: Bytes, l: Layout, from: nat, to: nat)
    requires WellFormed(p, l) && WellFormed(r, l) && |r| == |p|
    requires from <= l.source && l.tcp + 4 <= to <= |p| && r[from..to] == p[from..to]
    ensures Source(r, l) == Source(p, l) && Destination(r, l) == Destination(p, l)
    ensures PseudoHeader(r, l) == PseudoHeader(p, l)
  {
    SubSlice(p, r, from, to, l.source, l.source + l.size);
    SubSlice(p, r, from, to, l.destination, l.destination + l.size);
    SubSlice(p, r, from, to, l.tcp, l.tcp + 2);
    SubSlice(p, r, from, to, l.tcp + 2, l.tcp + 4);
  }

  lemma SubSlice(p: Bytes, r: Bytes, from: nat, to: nat, i: nat, j: nat)
    requires from <= i <= j <= to <= |p| == |r| && r[from..to] == p[from..to]
    ensures r[i..j] == p[i..j]
  {
    forall k | i <= k < j ensures r[k] == p[k] {
      assert r[k] == r[from..to][k - from] && p[k] == p[from..to][k - from];
    }
  }

  /** What the packet becomes when its IPv4 header checksum is recomputed. */
  function HeaderFilled(p: Bytes, l: Layout): Bytes
    requires WellFormed(p, l)
  {
    var zeroed := Put(p, 10, [0, 0]);
    Put(zeroed, 10, Be16(Complement(Fold(Words(zeroed[..l.tcp])))))
  }

  lemma HeaderFilledVerifies(p: Bytes, l: Layout)
    requires WellFormed(p, l) && l.source >= 12
    ensures var r := HeaderFilled(p, l);
            && WellFormed(r, l) && Kept(p, r, l)
            && Source(r, l) == Source(p, l) && Destination(r, l) == Destination(p, l)
            && HeaderVerifies(r, l)
  {
    hide Words, Fold, Put, Kept, WellFormed, Source, Destination;
    Bounds(p, l);
    KeptSelf(p, l);
    var zeroed := Put(p, 10, [0, 0]);
    PutKept(p, p, l, 10, [0, 0]);
    var b := zeroed[0..l.tcp];
    var field := Be16(Complement(Fold(Words(b))));
    var r := Put(zeroed, 10, field);
    PutKept(p, zeroed, l, 10, field);
    PutInside(p, 0, l.tcp, 10, [0, 0]);
    PutInside(zeroed, 0, l.tcp, 10, field);
    assert [] + b == b && [] + Put(b, 10, field) == Put(b, 10, field);
    FillVerifies([], b, 10);
    PutSlice(p, 10, [0, 0], 12, |p|);
    PutSlice(zeroed, 10, field, 12, |p|);
    FromHeader(p, r, l, 12, |p|);
    assert r[..l.tcp] == r[0..l.tcp];
  }

  /** The layout is read from bytes that a rewrite keeps. */
  lemma LayoutsKept(p: Bytes, r: Bytes)
    ensures WellFormedV4(p) && Kept(p, r, V4Layout(p)) && WellFormed(r, V4Layout(p)) ==>
              WellFormedV4(r) && V4Layout(r) == V4Layout(p)
    ensures WellFormedV6(p) && Kept(p, r, V6Layout(p)) && WellFormed(r, V6Layout(p)) ==>
              WellFormedV6(r) && V6Layout(r) == V6Layout(p)
  {
    if |r| == |p| >= 6 {
      Two(p, 2);
      Two(r, 2);
      Two(p, 4);
      Two(r, 4);
    }
  }

  lemma Two(p: Bytes, i: nat)
    requires i + 2 <= |p|
    ensures p[i..i + 2] == [p[i], p[i + 1]]
  {
  }

  lemma KeptThrough(p: Bytes, q: Bytes, r: Bytes, l: Layout)
    requires Kept(p, q, l) && Kept(q, r, l)
    ensures Kept(p, r, l)
  {
  }

  // The forwarder

  /** The tables after a packet with these endpoints has consulted them. */
  function Consulted(timeout: nat, f: Forwarder, n: Nat, source: Endpoint, destination: Endpoint, now: int): Nat
    requires n.pending.Idle?
  {
    var flow := Flow(source, destination);
    if source == Local(f) then Step(timeout, n, Inverse(destination.port, now))
    else if flow in n.addrMap then Step(timeout, n, Hit(flow))
    else Step(timeout, Step(timeout, n, Reserve(flow)), Commit(now))
  }

  /** What a packet makes the tables do: a reply looks its port up, any other packet its flow. */
  function PacketEvents(f: Forwarder, n: Nat, source: Endpoint, destination: Endpoint, now: int): seq<Event> {
    if source == Endpoint(f.addr, f.port) then [Inverse(destination.port, now)]
    else if Flow(source, destination) in n.addrMap then [Hit(Flow(source, destination))]
    else [Reserve(Flow(source, destination)), Commit(now)]
  }

  /** The tables after a packet are those of a state that the machine reaches by these steps. */
  lemma ConsultedReached(
    timeout: nat, f: Forwarder, t: Tracked, source: Endpoint, destination: Endpoint, now: int) returns (t': Tracked)
    requires Consistent(t) && t.machine.pending.Idle? && now >= t.clock
    ensures Reaches(timeout, t, PacketEvents(f, t.machine, source, destination, now), t')
    ensures t'.machine == Consulted(timeout, f, t.machine, source, destination, now)
    ensures Consistent(t') && t'.machine.pending.Idle?
  {
    var events := PacketEvents(f, t.machine, source, destination, now);
    t' := Advance(timeout, t, events[0]);
    AdvanceConsistent(timeout, t, events[0]);
    if |events| == 2 {
      var mid := t';
      AdvanceConsistent(timeout, mid, events[1]);
      t' := Advance(timeout, mid, events[1]);
      assert events[1..][1..] == [];
      assert Reaches(timeout, mid, events[1..], t');
    } else {
      assert events[1..] == [];
    }
  }

  /** A packet of a new flow leaves a port that leads back to it, whatever was there before. */
  lemma NewFlowLeads(
    timeout: nat, f: Forwarder, n: Nat, source: Endpoint, destination: Endpoint, now: int)
    requires n.pending.Idle? && source != Local(f) && Flow(source, destination) !in n.addrMap
    ensures var n', flow := Consulted(timeout, f, n, source, destination, now), Flow(source, destination);
            && flow in n'.addrMap && n'.portMap == n.portMap[n'.addrMap[flow] := Session(flow, now)]
            && LeadsTo(n', n'.addrMap[flow], flow) && !Orphan(n', flow)
  {
  }

  /**
   So the answer to the first packet of a flow comes back translated, with no condition on the
   tables before: at once, and for as long as its port is neither swept nor reused.
   */
  lemma NewFlowAnswered(
    timeout: nat, f: Forwarder, t: Tracked, source: Endpoint, destination: Endpoint, now: int,
    events: seq<Event>, t': Tracked) returns (mid: Tracked)
    requires Consistent(t) && t.machine.pending.Idle? && now >= t.clock
    requires source != Local(f) && Flow(source, destination) !in t.machine.addrMap
    ensures Reaches(timeout, t, [Reserve(Flow(source, destination)), Commit(now)], mid)
    ensures mid.machine == Consulted(timeout, f, t.machine, source, destination, now)
    ensures var out := Translate(f, mid.machine, source, destination);
            && out == Some(Flow(Endpoint(f.next, PortAt(t.count)), Local(f)))
            && (Reaches(timeout, mid, events, t') && Undisturbed(timeout, mid, events, PortAt(t.count)) ==>
                && Translate(f, t'.machine, Local(f), out.value.source) == Some(Flow(destination, source))
                && Accepted(f, f, t'.machine, out.value.source) == Some(Flow(source, destination)))
  {
    mid := ConsultedReached(timeout, f, t, source, destination, now);
    NewFlowLeads(timeout, f, t.machine, source, destination, now);
    var flow := Flow(source, destination);
    if Reaches(timeout, mid, events, t') && Undisturbed(timeout, mid, events, PortAt(t.count)) {
      TransparentRun(f, f, timeout, mid, events, t', flow);
    }
  }

  /** A packet whose flow is known already changes nothing, and a reply only its session's activity. */
  lemma KnownFlowKeeps(
    timeout: nat, f: Forwarder, n: Nat, source: Endpoint, destination: Endpoint, now: int)
    requires n.pending.Idle?
    ensures var n' := Consulted(timeout, f, n, source, destination, now);
            && (source != Local(f) && Flow(source, destination) in n.addrMap ==> n' == n)
            && (source == Local(f) ==>
                && n'.addrMap == n.addrMap && n'.portIndex == n.portIndex && n'.portMap.Keys == n.portMap.Keys
                && forall p, flow :: LeadsTo(n', p, flow) == LeadsTo(n, p, flow))
  {
  }

  /**
   A packet whose endpoints translate is written back with nothing else but the checksums
   changed, its endpoint fields filled with the translated ones, which it carries exactly if
   they are of the packet's family; any other packet is left as it is.
   */
  ghost predicate Forwarded(f: Forwarder, n: Nat, l: Layout, p: Bytes, p': Bytes, written: bool)
    requires WellFormed(p, l) && WellFormed(p', l)
  {
    var to := Translate(f, n, Source(p, l), Destination(p, l));
    && written == to.Some?
    && (!written ==> p' == p)
    && (written ==> Kept(p, p', l) && Carries(p, p', l, to.value))
    && (written ==>
         (Flow(Source(p', l), Destination(p', l)) == to.value
          <==> |to.value.source.addr| == |to.value.destination.addr| == l.size))
  }

  lemma V4Start(p: Bytes)
    requires WellFormedV4(p)
    ensures WellFormed(p, V4Layout(p)) && V4Layout(p).source >= 12
  {
  }

  lemma V6Start(p: Bytes)
    requires WellFormedV6(p)
    ensures WellFormed(p, V6Layout(p))
  {
  }

  lemma Offsets(p: Bytes, l: Layout)
    requires WellFormed(p, l)
    ensures DataOffset(p, l) % 2 == 0 && l.tcp + DataOffset(p, l) <= l.end <= |p|
  {
  }

  lemma SumsMatch(p: Bytes, l: Layout, pseudo: Bytes, header: Bytes, payload: Bytes)
    requires WellFormed(p, l) && |header| % 2 == 0
    requires pseudo == PseudoHeader(p, l) || pseudo == PseudoHeaderV6(p, l)
    ensures Sum(header, Combine(Sum(pseudo, 0), Sum(payload, 0)))
         == Fold(Words(PseudoHeader(p, l) + (header + payload)))
  {
    hide Words, Fold, WellFormed, PseudoHeader, PseudoHeaderV6, Combine;
    PseudoWords(p, l);
    SeparateSums(pseudo, header, payload);
    WordsConcat(pseudo, header + payload);
    WordsConcat(PseudoHeader(p, l), header + payload);
  }

  class TcpForwarder {
    const table: Table
    const v4: Forwarder
    const v6: Forwarder

    constructor (v4: Forwarder, v6: Forwarder, timeout: nat)
      ensures this.v4 == v4 && this.v6 == v6 && fresh(table)
      ensures table.timeout == timeout && table.State() == Init()
    {
      this.v4, this.v6 := v4, v6;
      table := new Table(timeout);
    }

    /** Replaces the endpoints of a packet; false when a reply belongs to no session. */
    method Readdress(pkt: array<Byte>, l: Layout, f: Forwarder, now: int) returns (known: bool)
      requires WellFormed(pkt[..], l) && table.pending.Idle?
      modifies pkt, table`portIndex, table`addrMap, table`portMap, table`pending
      ensures var source, destination := Source(old(pkt[..]), l), Destination(old(pkt[..]), l);
              var to := Translate(f, table.State(), source, destination);
              && table.State() == Consulted(table.timeout, f, old(table.State()), source, destination, now)
              && known == to.Some?
              && pkt[..] == if known then Readdressed(old(pkt[..]), l, to.value) else old(pkt[..])
    {
      hide WellFormed, Put;
      Bounds(pkt[..], l);
      ghost var p := pkt[..];
      var source, destination := Source(pkt[..], l), Destination(pkt[..], l);
      var to: Flow;
      if source == Local(f) {
        var session := table.LookupInverse(destination.port, now);
        if session.None? {
          return false;
        }
        to := Flow(session.value.flow.destination, session.value.flow.source);
      } else {
        var port := table.Lookup(Flow(source, destination), now);
        to := Flow(Endpoint(f.next, port), Local(f));
      }
      assert Translate(f, table.State(), source, destination) == Some(to);
      SetBytes(pkt, l.source, Fitting(to.source.addr, l.size));
      SetBytes(pkt, l.tcp, Be16(to.source.port));
      SetBytes(pkt, l.destination, Fitting(to.destination.addr, l.size));
      SetBytes(pkt, l.tcp + 2, Be16(to.destination.port));
      known := true;
    }

    /** The sum is put together from the payload, the pseudo-header and the TCP header. */
    method FillTcpChecksum(pkt: array<Byte>, l: Layout, pseudo: Bytes)
      requires WellFormed(pkt[..], l)
      requires pseudo == PseudoHeader(pkt[..], l) || pseudo == PseudoHeaderV6(pkt[..], l)
      modifies pkt
      ensures pkt[..] == TcpFilled(old(pkt[..]), l)
    {
      hide Words, Fold, Put, WellFormed, PseudoHeader, PseudoHeaderV6, Kept, DataOffset, Sum, Combine, Complement;
      Bounds(pkt[..], l);
      ghost var p := pkt[..];
      KeptSelf(p, l);
      PutKept(p, p, l, l.tcp + 16, [0, 0]);
      SetBytes(pkt, l.tcp + 16, [0, 0]);
      Offsets(pkt[..], l);
      var offset := DataOffset(pkt[..], l);
      var header, payload := pkt[l.tcp..l.tcp + offset], pkt[l.tcp + offset..l.end];
      SumsMatch(p, l, pseudo, header, payload);
      assert header + payload == pkt[..][l.tcp..l.end];
      SetBytes(pkt, l.tcp + 16, Be16(Complement(Sum(header, Combine(Sum(pseudo, 0), Sum(payload, 0))))));
    }

    method FillHeaderChecksum(pkt: array<Byte>, l: Layout)
      requires WellFormed(pkt[..], l)
      modifies pkt
      ensures pkt[..] == HeaderFilled(old(pkt[..]), l)
    {
      hide Words, Fold, Put, WellFormed;
      Bounds(pkt[..], l);
      SetBytes(pkt, 10, [0, 0]);
      assert pkt[..l.tcp] == pkt[..][..l.tcp];
      SetBytes(pkt, 10, Be16(Complement(Sum(pkt[..l.tcp], 0))));
    }

    /** A packet that is written back has its endpoints translated and both checksums right. */
    method ProcessIPv4(pkt: array<Byte>, now: int) returns (written: bool)
      requires WellFormedV4(pkt[..]) && table.pending.Idle?
      modifies pkt, table`portIndex, table`addrMap, table`portMap, table`pending
      ensures WellFormedV4(pkt[..]) && V4Layout(pkt[..]) == V4Layout(old(pkt[..]))
      ensures table.State() == Consulted(table.timeout, v4, old(table.State()),
                Source(old(pkt[..]), V4Layout(pkt[..])), Destination(old(pkt[..]), V4Layout(pkt[..])), now)
      ensures Forwarded(v4, table.State(), V4Layout(pkt[..]), old(pkt[..]), pkt[..], written)
      ensures written ==> HeaderVerifies(pkt[..], V4Layout(pkt[..]))
      ensures written ==> SegmentVerifies(PseudoHeader(pkt[..], V4Layout(pkt[..])), Segment(pkt[..], V4Layout(pkt[..])))
    {
      hide Put, WellFormed, Kept, Fitting, Readdressed, HeaderFilled, TcpFilled, PseudoHeader, Source, Destination;
      hide Consulted, Translate, V4Layout, Fold, Words;
      ghost var p := pkt[..];
      V4Start(p);
      var l := V4Layout(pkt[..]);
      Bounds(p, l);
      written := Readdress(pkt, l, v4, now);
      if written {
        ghost var to := Translate(v4, table.State(), Source(p, l), Destination(p, l)).value;
        ReaddressedFields(p, l, to);
        ghost var p1 := pkt[..];
        FillHeaderChecksum(pkt, l);
        HeaderFilledVerifies(p1, l);
        ghost var p2 := pkt[..];
        FillTcpChecksum(pkt, l, PseudoHeader(pkt[..], l));
        TcpFilledVerifies(p2, l);
        KeptThrough(p, p1, p2, l);
        KeptThrough(p, p2, pkt[..], l);
        LayoutsKept(p, pkt[..]);
      }
    }

    /** A connection accepted by the listener: from which flow, if from any. */
    method Dispatch(remote: Endpoint, now: int) returns (flow: Option<Flow>)
      modifies table`portMap
      ensures flow == Accepted(v4, v6, table.State(), remote)
      ensures table.State() == if remote.addr != v4.next && remote.addr != v6.next then old(table.State())
                               else Step(table.timeout, old(table.State()), Inverse(remote.port, now))
    {
      if remote.addr != v4.next && remote.addr != v6.next {
        return None;
      }
      var session := table.LookupInverse(remote.port, now);
      flow := if session.None? then None else Some(session.value.flow);
    }

    /** The IPv6 header has no checksum of its own. */
    method ProcessIPv6(pkt: array<Byte>, now: int) returns (written: bool)
      requires WellFormedV6(pkt[..]) && table.pending.Idle?
      modifies pkt, table`portIndex, table`addrMap, table`portMap, table`pending
      ensures WellFormedV6(pkt[..]) && V6Layout(pkt[..]) == V6Layout(old(pkt[..]))
      ensures table.State() == Consulted(table.timeout, v6, old(table.State()),
                Source(old(pkt[..]), V6Layout(pkt[..])), Destination(old(pkt[..]), V6Layout(pkt[..])), now)
      ensures Forwarded(v6, table.State(), V6Layout(pkt[..]), old(pkt[..]), pkt[..], written)
      ensures written ==>
                SegmentVerifies(PseudoHeaderV6(pkt[..], V6Layout(pkt[..])), Segment(pkt[..], V6Layout(pkt[..])))
    {
      hide Put, WellFormed, Kept, Fitting, Readdressed, TcpFilled, PseudoHeaderV6, Source, Destination;
      hide Consulted, Translate, V6Layout, Fold, Words;
      ghost var p := pkt[..];
      V6Start(p);
      var l := V6Layout(pkt[..]);
      Bounds(p, l);
      written := Readdress(pkt, l, v6, now);
      if written {
        ghost var to := Translate(v6, table.State(), Source(p, l), Destination(p, l)).value;
        ReaddressedFields(p, l, to);
        ghost var p1 := pkt[..];
        FillTcpChecksum(pkt, l, PseudoHeaderV6(pkt[..], l));
        TcpFilledVerifies(p1, l);
        KeptThrough(p, p1, pkt[..], l);
        LayoutsKept(p, pkt[..]);
      }
    }
  }

  /**
   Packet transparency: a packet of somebody else's flow is rewritten, the local stack answers
   it with the endpoints exchanged, and the answer is rewritten in a later state. If the port
   was neither swept nor reused on the way, the result carries the first packet's endpoints
   exchanged.
   */
  lemma AnswersReturn(
    f: Forwarder, timeout: nat, t: Tracked, events: seq<Event>, t': Tracked,
    l: Layout, p: Bytes, sent: Bytes, k: Layout, q: Bytes, answer: Bytes, written: bool)
    requires WellFormed(p, l) && WellFormed(sent, l) && WellFormed(q, k) && WellFormed(answer, k)
    requires k.size == l.size == |f.addr| == |f.next| && Source(p, l) != Local(f)
    requires Forwarded(f, t.machine, l, p, sent, true)
    requires t.machine.pending.Idle? && !Orphan(t.machine, Flow(Source(p, l), Destination(p, l)))
    requires Reaches(timeout, t, events, t') && Undisturbed(timeout, t, events, Source(sent, l).port)
    requires Source(q, k) == Destination(sent, l) && Destination(q, k) == Source(sent, l)
    requires Forwarded(f, t'.machine, k, q, answer, written)
    ensures written && Source(answer, k) == Destination(p, l) && Destination(answer, k) == Source(p, l)
  {
    hide Reaches, Undisturbed, Orphan, WellFormed, Kept, Carries;
    var flow := Flow(Source(p, l), Destination(p, l));
    assert Translate(f, t.machine, flow.source, flow.destination)
        == Some(Flow(Endpoint(f.next, t.machine.addrMap[flow]), Local(f)));
    TransparentRun(f, f, timeout, t, events, t', flow);
    AddressSizes(p, l);
  }

  lemma AddressSizes(p: Bytes, l: Layout)
    requires WellFormed(p, l)
    ensures |Source(p, l).addr| == |Destination(p, l).addr| == l.size
  {
  }
}
