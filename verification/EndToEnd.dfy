/** From the bytes one end writes to the bytes the other end's reads return. */
module EndToEnd {
  import opened Octets
  import opened StreamDecoder
  import opened StreamConn
  import Padded = PaddedFrames
  import ChainSpec = AuthChainSpec
  import Chain = AuthChain
  import ChainProofs = AuthChainProofs

  // auth_chain

  const COUNTER_RANGE := 0x1_0000_0000

  /** Everything that a list of writes is cut into. */
  function AllPieces(writes: seq<Bytes>): seq<Bytes> {
    if writes == [] then [] else Chain.Pieces(writes[0]) + AllPieces(writes[1..])
  }

  /** The same from the first write on, which the header cuts after `head` bytes. */
  function ConnectionPieces(writes: seq<Bytes>, head: nat): seq<Bytes>
    requires writes != [] && head <= |writes[0]|
  {
    [writes[0][..head]] + (Chain.Pieces(writes[0][head..]) + AllPieces(writes[1..]))
  }

  lemma {:induction false} AllPiecesWhole(writes: seq<Bytes>)
    ensures Flatten(AllPieces(writes)) == Flatten(writes)
    ensures forall i | 0 <= i < |AllPieces(writes)| :: 1 <= |AllPieces(writes)[i]| <= 2800
  {
    if writes != [] {
      Chain.PiecesWhole(writes[0]);
      AllPiecesWhole(writes[1..]);
      FlattenConcat(Chain.Pieces(writes[0]), AllPieces(writes[1..]));
    }
  }

  lemma ConnectionPiecesWhole(writes: seq<Bytes>, head: nat)
    requires writes != [] && head <= |writes[0]|
    ensures Flatten(ConnectionPieces(writes, head)) == Flatten(writes)
    ensures forall i | 1 <= i < |ConnectionPieces(writes, head)| :: 1 <= |ConnectionPieces(writes, head)[i]| <= 2800
  {
    hide AllPieces, Chain.Pieces, Flatten;
    var first, rest, later := writes[0][..head], Chain.Pieces(writes[0][head..]), AllPieces(writes[1..]);
    Chain.PiecesWhole(writes[0][head..]);
    AllPiecesWhole(writes[1..]);
    FlattenConcat(rest, later);
    FlattenConcat([first], rest + later);
    FlattenOne(first);
    FlattenFirst(writes);
    CutAt(writes[0], head, Flatten(writes[1..]));
    Sizes(rest, later);
  }

  lemma CutAt(b: Bytes, head: nat, more: Bytes)
    requires head <= |b|
    ensures b[..head] + (b[head..] + more) == b + more
  {
  }

  lemma FlattenFirst(writes: seq<Bytes>)
    requires writes != []
    ensures Flatten(writes) == writes[0] + Flatten(writes[1..])
  {
  }

  lemma Sizes(a: seq<Bytes>, b: seq<Bytes>)
    requires forall i | 0 <= i < |a| :: 1 <= |a[i]| <= 2800
    requires forall i | 0 <= i < |b| :: 1 <= |b[i]| <= 2800
    ensures forall i | 0 <= i < |a + b| :: 1 <= |(a + b)[i]| <= 2800
  {
  }

  lemma FlattenOne(b: Bytes)
    ensures Flatten([b]) == b
  {
    var one := [b];
    assert one[1..] == [] && b + [] == b;
  }

  /** Pieces of the right sizes can be sent from where the counter will not be 1. */
  lemma {:induction false} SendableBeforeWrap(id: UInt32, pieces: seq<Bytes>)
    requires ChainProofs.Ones(id, |pieces|) == 0
    requires forall i | 0 <= i < |pieces| :: 1 <= |pieces[i]| <= 2800
    ensures ChainSpec.Sendable(id, pieces)
    decreases |pieces|
  {
    if pieces != [] {
      SendableBeforeWrap(ChainSpec.Bump(id), pieces[1..]);
    }
  }

  /**
   The reads of a peer in step return what was written, two bytes short wherever the frame
   counter is 1, and nothing else missing or added, for any sizes of writes, any padding, any
   segmentation on the way and any sizes of the readers' buffers.
   */
  lemma ChainWritesReachReads(
    cfg: ChainSpec.Config, s: ChainSpec.State, r: ChainSpec.State, s': ChainSpec.State,
    pieces: seq<Bytes>, wire: Bytes, calls: seq<Call>)
    requires ChainProofs.InStep(s, r) && ChainSpec.Sendable(s.id, pieces)
    requires ChainSpec.Sends(cfg, s, pieces, wire, s')
    requires Flatten(Reads(Chain.Decoding(cfg), ConnState(Decoder(r, false), [], []), calls).consumed) <= wire
    ensures var run := Reads(Chain.Decoding(cfg), ConnState(Decoder(r, false), [], []), calls);
            var all := ChainSpec.DeliveredAll(s.id, pieces);
            && run.returned + run.conn.decoded <= all
            && (Flatten(run.consumed) == wire ==> run.returned + run.conn.decoded == all)
  {
    hide *;
    Chain.DecodingImplements(cfg);
    ChainProofs.StreamRoundTrip(cfg, s, r, pieces, wire, s');
    ChainProofs.DrainEmpty(cfg, r);
    WholeDelivery(Chain.Decoding(cfg), ChainProofs.Receiver(cfg), Chain.GoesRaw, r, wire, calls);
  }

  /**
   Whole connections, from the first write with its head in the header's frame: up to 2^32
   frames, the reads return exactly what was written but for the first two bytes.
   */
  lemma ChainConnection(
    cfg: ChainSpec.Config, s: ChainSpec.State, r: ChainSpec.State, s': ChainSpec.State,
    writes: seq<Bytes>, head: nat, wire: Bytes, calls: seq<Call>)
    requires ChainProofs.InStep(s, r) && s.id == 1
    requires writes != [] && 2 <= head <= |writes[0]| && head <= 2800
    requires |ConnectionPieces(writes, head)| <= COUNTER_RANGE
    requires ChainSpec.Sends(cfg, s, ConnectionPieces(writes, head), wire, s')
    requires Flatten(Reads(Chain.Decoding(cfg), ConnState(Decoder(r, false), [], []), calls).consumed) <= wire
    ensures var run := Reads(Chain.Decoding(cfg), ConnState(Decoder(r, false), [], []), calls);
            && |Flatten(writes)| >= 2
            && run.returned + run.conn.decoded <= Flatten(writes)[2..]
            && (Flatten(run.consumed) == wire ==> run.returned + run.conn.decoded == Flatten(writes)[2..])
  {
    hide ChainSpec.Sends, Reads, Flatten, ChainProofs.Ones, ChainSpec.DeliveredAll, Chain.Decoding;
    var pieces := ConnectionPieces(writes, head);
    ConnectionPiecesWhole(writes, head);
    ChainProofs.OnesClosedForm(2, |pieces| - 1);
    ChainProofs.FirstWrap(|pieces|);
    SendableBeforeWrap(2, pieces[1..]);
    ChainProofs.LosslessUntilWrap(pieces);
    ChainWritesReachReads(cfg, s, r, s', pieces, wire, calls);
  }

  /** And once all frames have come in, reads whose buffers take the rest return all of it. */
  lemma ChainConnectionReturned(
    cfg: ChainSpec.Config, s: ChainSpec.State, r: ChainSpec.State, s': ChainSpec.State,
    writes: seq<Bytes>, head: nat, wire: Bytes, calls: seq<Call>, more: seq<Call>)
    requires ChainProofs.InStep(s, r) && s.id == 1
    requires writes != [] && 2 <= head <= |writes[0]| && head <= 2800
    requires |ConnectionPieces(writes, head)| <= COUNTER_RANGE
    requires ChainSpec.Sends(cfg, s, ConnectionPieces(writes, head), wire, s')
    requires var run := Reads(Chain.Decoding(cfg), ConnState(Decoder(r, false), [], []), calls);
             Flatten(run.consumed) == wire && TotalCapacity(more) >= |run.conn.decoded|
    requires forall c | c in more :: c.arrival.Broken?
    ensures |Flatten(writes)| >= 2
    ensures Reads(Chain.Decoding(cfg), ConnState(Decoder(r, false), [], []), calls + more).returned
         == Flatten(writes)[2..]
  {
    hide *;
    var conn := ConnState(Decoder(r, false), [], []);
    ChainConnection(cfg, s, r, s', writes, head, wire, calls);
    ReadsConcat(Chain.Decoding(cfg), conn, calls, more);
    HeldReturned(Chain.Decoding(cfg), Reads(Chain.Decoding(cfg), conn, calls).conn, more);
  }

  // auth_aes128 and auth_sha1_v4

  function AllPaddedPieces(writes: seq<Bytes>): (r: seq<Padded.Piece>)
    ensures Padded.AllData(r) == Flatten(writes)
    ensures forall p | p in r :: Padded.Sendable(p)
  {
    if writes == [] then [] else
    var first := Padded.Pieces(writes[0], |writes[0]|);
    var rest := AllPaddedPieces(writes[1..]);
    Padded.AllDataConcat(first, rest);
    first + rest
  }

  /** The same from the first write on, whose first `head` bytes travel in the header. */
  function PaddedConnectionPieces(writes: seq<Bytes>, head: nat): (r: seq<Padded.Piece>)
    requires writes != [] && head <= |writes[0]|
    ensures head <= |Flatten(writes)| && Padded.AllData(r) == Flatten(writes)[head..]
    ensures forall p | p in r :: Padded.Sendable(p)
  {
    var first := Padded.Pieces(writes[0][head..], |writes[0]|);
    var rest := AllPaddedPieces(writes[1..]);
    Padded.AllDataConcat(first, rest);
    assert Flatten(writes) == writes[0] + Flatten(writes[1..]);
    first + rest
  }

  /**
   Whole connections of the two formats of padded frames: the reads of a peer return exactly
   what was written behind the header, with no condition on the counter.
   */
  lemma PaddedConnection(
    fmt: Padded.Format, id: UInt32, id': UInt32, writes: seq<Bytes>, head: nat, wire: Bytes, calls: seq<Call>)
    requires Padded.Bounded(fmt) && writes != [] && head <= |writes[0]|
    requires Padded.Sends(fmt, id, PaddedConnectionPieces(writes, head), wire, id')
    requires Flatten(Reads(Padded.Decoding(fmt), ConnState(Decoder(id, false), [], []), calls).consumed) <= wire
    ensures var run := Reads(Padded.Decoding(fmt), ConnState(Decoder(id, false), [], []), calls);
            && head <= |Flatten(writes)|
            && run.returned + run.conn.decoded <= Flatten(writes)[head..]
            && (Flatten(run.consumed) == wire ==> run.returned + run.conn.decoded == Flatten(writes)[head..])
  {
    hide *;
    Padded.DecodingImplements(fmt);
    Padded.StreamRoundTrip(fmt, id, PaddedConnectionPieces(writes, head), wire, id');
    Padded.DrainEmpty(fmt, id);
    WholeDelivery(Padded.Decoding(fmt), Padded.Receiver(fmt), Padded.GoesRaw, id, wire, calls);
  }

  lemma PaddedConnectionReturned(
    fmt: Padded.Format, id: UInt32, id': UInt32, writes: seq<Bytes>, head: nat, wire: Bytes,
    calls: seq<Call>, more: seq<Call>)
    requires Padded.Bounded(fmt) && writes != [] && head <= |writes[0]|
    requires Padded.Sends(fmt, id, PaddedConnectionPieces(writes, head), wire, id')
    requires var run := Reads(Padded.Decoding(fmt), ConnState(Decoder(id, false), [], []), calls);
             Flatten(run.consumed) == wire && TotalCapacity(more) >= |run.conn.decoded|
    requires forall c | c in more :: c.arrival.Broken?
    ensures head <= |Flatten(writes)|
    ensures Reads(Padded.Decoding(fmt), ConnState(Decoder(id, false), [], []), calls + more).returned
         == Flatten(writes)[head..]
  {
    hide *;
    var conn := ConnState(Decoder(id, false), [], []);
    PaddedConnection(fmt, id, id', writes, head, wire, calls);
    ReadsConcat(Padded.Decoding(fmt), conn, calls, more);
    HeldReturned(Padded.Decoding(fmt), Reads(Padded.Decoding(fmt), conn, calls).conn, more);
  }
}
