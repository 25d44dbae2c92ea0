/** Where a TCP packet keeps its endpoints and checksums, and what readdressing it means. */
module TcpRewriteSpec {
  import opened Octets
  import opened Checksum
  import opened TcpNatSpec

  /** Offsets of the addresses, their size, where the TCP segment starts and where it ends. */
  datatype Layout = Layout(source: nat, destination: nat, size: nat, tcp: nat, end: nat)

  const TCP_PROTOCOL: Byte := 6

  function V4Layout(p: Bytes): Layout
    requires |p| >= 20
  {
    Layout(12, 16, 4, p[0] % 16 * 4, FromBe16(p[2..4]))
  }

  function V6Layout(p: Bytes): Layout
    requires |p| >= 40
  {
    Layout(8, 24, 16, 40, 40 + FromBe16(p[4..6]))
  }

  /** The header sections are where their length fields say, and so is the TCP payload. */
  predicate WellFormed(p: Bytes, l: Layout) {
    && l.source + l.size == l.destination && 12 <= l.source + 4 && l.destination + l.size <= l.tcp
    && l.size % 2 == 0 && l.source % 2 == 0 && l.tcp % 2 == 0
    && l.tcp + 20 <= l.end <= |p| && l.end - l.tcp < 0x1_0000
    && l.tcp + DataOffset(p, l) <= l.end
  }

  function DataOffset(p: Bytes, l: Layout): nat
    requires l.tcp + 20 <= l.end <= |p|
  {
    p[l.tcp + 12] / 16 * 4
  }

  predicate WellFormedV4(p: Bytes) {
    |p| >= 20 && p[0] % 16 >= 5 && WellFormed(p, V4Layout(p))
  }

  predicate WellFormedV6(p: Bytes) {
    |p| >= 40 && WellFormed(p, V6Layout(p))
  }

  function Source(p: Bytes, l: Layout): Endpoint
    requires WellFormed(p, l)
  {
    Endpoint(p[l.source..l.source + l.size], FromBe16(p[l.tcp..l.tcp + 2]))
  }

  function Destination(p: Bytes, l: Layout): Endpoint
    requires WellFormed(p, l)
  {
    Endpoint(p[l.destination..l.destination + l.size], FromBe16(p[l.tcp + 2..l.tcp + 4]))
  }

  function Segment(p: Bytes, l: Layout): Bytes
    requires WellFormed(p, l)
  {
    p[l.tcp..l.end]
  }

  /** The pseudo-header of section 3.1 of RFC 9293 over IPv4. */
  function PseudoHeader(p: Bytes, l: Layout): Bytes
    requires WellFormed(p, l)
  {
    p[l.source..l.source + l.size] + p[l.destination..l.destination + l.size]
    + [0, TCP_PROTOCOL] + Be16(l.end - l.tcp)
  }

  /** The pseudo-header of section 8.1 of RFC 8200: a 32-bit length and three zero bytes. */
  function PseudoHeaderV6(p: Bytes, l: Layout): Bytes
    requires WellFormed(p, l)
  {
    p[l.source..l.source + l.size] + p[l.destination..l.destination + l.size]
    + ([0, 0] + Be16(l.end - l.tcp)) + [0, 0, 0, TCP_PROTOCOL]
  }

  /** The receiver's test of a TCP segment: pseudo-header and segment sum to all ones. */
  ghost predicate SegmentVerifies(pseudo: Bytes, segment: Bytes) {
    Fold(Words(pseudo + segment)) == ALL_ONES
  }

  /** The receiver's test of an IPv4 header. */
  ghost predicate HeaderVerifies(p: Bytes, l: Layout)
    requires l.tcp <= |p|
  {
    Fold(Words(p[..l.tcp])) == ALL_ONES
  }

  /** Nothing but the addresses, the ports and the two checksums differs. */
  ghost predicate Kept(p: Bytes, p': Bytes, l: Layout) {
    && |p'| == |p|
    && forall i | 0 <= i < |p| :: p'[i] == p[i]
         || l.source <= i < l.destination + l.size || l.tcp <= i < l.tcp + 4
         || l.tcp + 16 <= i < l.tcp + 18 || 10 <= i < 12
  }

  /** The pseudo-headers byte by byte: addresses, zeros, protocol 6 and the segment's length. */
  lemma PseudoHeaderBytes(p: Bytes, l: Layout)
    requires WellFormed(p, l)
    ensures var h, a, n := PseudoHeader(p, l), 2 * l.size, l.end - l.tcp;
            && |h| == a + 4 && h[..a] == p[l.source..l.source + a]
            && h[a] == 0 && h[a + 1] == 6 && 0x100 * h[a + 2] + h[a + 3] as int == n
    ensures var h, a, n := PseudoHeaderV6(p, l), 2 * l.size, l.end - l.tcp;
            && |h| == a + 8 && h[..a] == p[l.source..l.source + a]
            && h[a] == h[a + 1] == 0 && 0x100 * h[a + 2] + h[a + 3] as int == n
            && h[a + 4] == h[a + 5] == h[a + 6] == 0 && h[a + 7] == 6
  {
    var a := 2 * l.size;
    assert p[l.source..l.source + l.size] + p[l.destination..l.destination + l.size] == p[l.source..l.source + a];
  }

  /** An IPv4 packet put together from its fields has them where they are looked for. */
  lemma V4Assembled(front: Bytes, src: Bytes, dst: Bytes, options: Bytes, sp: Bytes, dp: Bytes, rest: Bytes)
    requires |front| == 12 && |src| == |dst| == 4 && |sp| == |dp| == 2
    requires front[0] % 16 * 4 == 20 + |options|
    requires WellFormedV4(front + src + dst + options + sp + dp + rest)
    ensures var p := front + src + dst + options + sp + dp + rest;
            var l := V4Layout(p);
            && Source(p, l) == Endpoint(src, FromBe16(sp)) && Destination(p, l) == Endpoint(dst, FromBe16(dp))
            && l.end == FromBe16(front[2..4]) && l.tcp == 20 + |options|
            && (|p| == l.end ==> Segment(p, l) == sp + dp + rest)
  {
    hide FromBe16, WellFormed;
    var p := front + src + dst + options + sp + dp + rest;
    assert p[0] == front[0] && p[2..4] == front[2..4];
    Pieces(front, src, dst, options, sp, dp, rest);
    Bounds4(p);
  }

  /** The same for IPv6. */
  lemma V6Assembled(front: Bytes, src: Bytes, dst: Bytes, sp: Bytes, dp: Bytes, rest: Bytes)
    requires |front| == 8 && |src| == |dst| == 16 && |sp| == |dp| == 2
    requires WellFormedV6(front + src + dst + [] + sp + dp + rest)
    ensures var p := front + src + dst + [] + sp + dp + rest;
            var l := V6Layout(p);
            && Source(p, l) == Endpoint(src, FromBe16(sp)) && Destination(p, l) == Endpoint(dst, FromBe16(dp))
            && l.end == 40 + FromBe16(front[4..6]) && l.tcp == 40
            && (|p| == l.end ==> Segment(p, l) == sp + dp + rest)
  {
    hide FromBe16, WellFormed;
    var p := front + src + dst + [] + sp + dp + rest;
    assert p[4..6] == front[4..6];
    Pieces(front, src, dst, [], sp, dp, rest);
    Bounds6(p);
  }

  lemma Bounds4(p: Bytes)
    requires WellFormedV4(p)
    ensures WellFormed(p, V4Layout(p)) && V4Layout(p).tcp + 20 <= V4Layout(p).end <= |p|
  {
  }

  lemma Bounds6(p: Bytes)
    requires WellFormedV6(p)
    ensures WellFormed(p, V6Layout(p)) && V6Layout(p).tcp + 20 <= V6Layout(p).end <= |p|
  {
  }

  lemma Pieces(front: Bytes, src: Bytes, dst: Bytes, options: Bytes, sp: Bytes, dp: Bytes, rest: Bytes)
    requires |sp| == |dp| == 2
    ensures var p := front + src + dst + options + sp + dp + rest;
            var a, b := |front|, |front| + |src|;
            var c := b + |dst| + |options|;
            && p[a..b] == src && p[b..b + |dst|] == dst && p[c..c + 2] == sp && p[c + 2..c + 4] == dp
            && p[c..] == sp + dp + rest && p[c..|p|] == sp + dp + rest
  {
  }

  // Sums of the parts

  lemma {:induction false} PseudoWords(p: Bytes, l: Layout)
    requires WellFormed(p, l)
    ensures |PseudoHeader(p, l)| % 2 == 0 && |PseudoHeaderV6(p, l)| % 2 == 0
    ensures Words(PseudoHeader(p, l)) == Words(PseudoHeaderV6(p, l))
         == Words(p[l.source..l.source + l.size]) + Words(p[l.destination..l.destination + l.size])
            + (l.end - l.tcp) + TCP_PROTOCOL
  {
    hide Words, Be16, FromBe16, DataOffset;
    PseudoSum(p[l.source..l.source + l.size], p[l.destination..l.destination + l.size], l.end - l.tcp);
  }

  lemma PseudoSum(s: Bytes, d: Bytes, n: UInt16)
    requires |s| % 2 == 0 && |d| % 2 == 0
    ensures |Be16(n)| == 2
    ensures Words(s + d + [0, TCP_PROTOCOL] + Be16(n)) == Words(s) + Words(d) + n + TCP_PROTOCOL
    ensures Words(s + d + ([0, 0] + Be16(n)) + [0, 0, 0, TCP_PROTOCOL]) == Words(s) + Words(d) + n + TCP_PROTOCOL
  {
    hide Words, Be16;
    FixedWords(n);
    WordsConcat(s, d);
    WordsConcat(s + d, [0, TCP_PROTOCOL]);
    WordsConcat(s + d + [0, TCP_PROTOCOL], Be16(n));
    WordsConcat(s + d, [0, 0] + Be16(n));
    WordsConcat(s + d + ([0, 0] + Be16(n)), [0, 0, 0, TCP_PROTOCOL]);
  }

  lemma FixedWords(n: UInt16)
    ensures |Be16(n)| == 2 && Words(Be16(n)) == n && Words([0, 0] + Be16(n)) == n
    ensures Words([0, TCP_PROTOCOL]) == Words([0, 0, 0, TCP_PROTOCOL]) == TCP_PROTOCOL
  {
    hide Words;
    WordOf(n);
    WordOf(0);
    WordOf(TCP_PROTOCOL);
    assert Be16(0) == [0, 0] && Be16(TCP_PROTOCOL) == [0, TCP_PROTOCOL];
    WordsConcat([0, 0], Be16(n));
    WordsConcat([0, 0], [0, TCP_PROTOCOL]);
    assert [0, 0] + [0, TCP_PROTOCOL] == [0, 0, 0, TCP_PROTOCOL];
  }

  /**
   Payload, pseudo-header and TCP header summed separately and combined give the sum of the
   whole, for payloads of odd length too.
   */
  lemma SeparateSums(pseudo: Bytes, header: Bytes, payload: Bytes)
    requires |pseudo| % 2 == 0 && |header| % 2 == 0
    ensures Sum(header, Combine(Fold(Words(pseudo)), Sum(payload, 0)))
         == Fold(Words(pseudo + (header + payload)))
  {
    hide Words;
    CombineFolds(Words(pseudo), Words(payload));
    FoldEarly(Words(header), Words(pseudo) + Words(payload));
    WordsConcat(header, payload);
    WordsConcat(pseudo, header + payload);
  }

  /** Storing the complement of the sum in a zeroed field makes the whole verify. */
  lemma FillVerifies(pseudo: Bytes, b: Bytes, off: nat)
    requires |pseudo| % 2 == 0 && off % 2 == 0 && off + 2 <= |b| && b[off..off + 2] == [0, 0]
    ensures Fold(Words(pseudo + Put(b, off, Be16(Complement(Fold(Words(pseudo + b))))))) == ALL_ONES
  {
    hide Words, Fold, Put;
    var n := Words(pseudo + b);
    FieldAdds(b, off, Complement(Fold(n)));
    WordsConcat(pseudo, b);
    WordsConcat(pseudo, Put(b, off, Be16(Complement(Fold(n)))));
    ComplementVerifies(n);
  }

  // Translation

  /** One address family's side of the forwarder: its address, the next one, and its port. */
  datatype Forwarder = Forwarder(addr: Bytes, next: Bytes, port: UInt16)

  function Local(f: Forwarder): Endpoint {
    Endpoint(f.addr, f.port)
  }

  /** Where a packet is sent on: replies to their flow, everything else to the forwarder. */
  function Translate(f: Forwarder, n: Nat, source: Endpoint, destination: Endpoint): Option<Flow> {
    if source == Local(f) then
      if destination.port in n.portMap then
        var flow := n.portMap[destination.port].flow;
        Some(Flow(flow.destination, flow.source))
      else None
    else if Flow(source, destination) in n.addrMap then
      Some(Flow(Endpoint(f.next, n.addrMap[Flow(source, destination)]), Local(f)))
    else None
  }

  /** What an accepted connection is for: known only if it comes from an address put into packets. */
  function Accepted(v4: Forwarder, v6: Forwarder, n: Nat, remote: Endpoint): Option<Flow> {
    if remote.addr != v4.next && remote.addr != v6.next then None
    else if remote.port in n.portMap then Some(n.portMap[remote.port].flow)
    else None
  }

  /** Refused, unless from one of the two addresses put into packets and to a port with a session. */
  lemma AcceptedIff(v4: Forwarder, v6: Forwarder, n: Nat, remote: Endpoint, flow: Flow)
    ensures Accepted(v4, v6, n, remote) == Some(flow)
       <==> (remote.addr == v4.next || remote.addr == v6.next) && LeadsTo(n, remote.port, flow)
    ensures remote.addr != v4.next && remote.addr != v6.next ==> Accepted(v4, v6, n, remote) == None
  {
  }

  function Swap(flow: Flow): Flow {
    Flow(flow.destination, flow.source)
  }

  /**
   Transparency: a packet of a flow that is not the forwarder's own, sent on, answered by the
   local stack with its endpoints exchanged, and sent on again in a later state, carries the
   flow's endpoints exchanged. This is so exactly as long as the port leads back to the flow.
   */
  lemma TransparentIff(f: Forwarder, n: Nat, n': Nat, flow: Flow)
    requires flow.source != Local(f) && flow in n.addrMap
    ensures var out := Translate(f, n, flow.source, flow.destination);
            && out.Some?
            && (Translate(f, n', out.value.destination, out.value.source) == Some(Swap(flow))
                <==> LeadsTo(n', n.addrMap[flow], flow))
  {
  }

  /**
   So it is on every run in which the port, once the lookup has gone through and unless the
   flow is orphaned, is neither swept nor reused; and the local stack's connection from the
   rewritten source is accepted, as one from the flow's source to its destination.
   */
  lemma TransparentRun(
    f: Forwarder, other: Forwarder, timeout: nat, t: Tracked, events: seq<Event>, t': Tracked, flow: Flow)
    requires flow.source != Local(f)
    requires flow in t.machine.addrMap && t.machine.pending.Idle? && !Orphan(t.machine, flow)
    requires Reaches(timeout, t, events, t') && Undisturbed(timeout, t, events, t.machine.addrMap[flow])
    ensures var out := Translate(f, t.machine, flow.source, flow.destination);
            && out.Some?
            && Translate(f, t'.machine, out.value.destination, out.value.source) == Some(Swap(flow))
            && Accepted(f, other, t'.machine, out.value.source) == Some(flow)
            && Accepted(other, f, t'.machine, out.value.source) == Some(flow)
  {
    LeadsOn(timeout, t, events, t', t.machine.addrMap[flow], flow);
    TransparentIff(f, t.machine, t'.machine, flow);
  }
}
