/** The connection wrapper that reassembles, decodes and hands out data in the caller's portions. */
module StreamConn {
  import opened Octets
  import opened Buffers
  import opened StreamDecoder

  /** A decoder between two calls; once `raw`, it passes bytes through. */
  datatype Decoder<S> = Decoder(state: S, raw: bool)

  datatype Decoded<S, E> = Decoded(decoder: Decoder<S>, output: Bytes, rest: Bytes, error: Option<E>)

  /** What one call of a codec's `Decode` does with the bytes that have arrived. */
  ghost function DecodeBy<S(!new), E(!new)>(
    step: (S, Bytes) -> Step<S, E>, goesRaw: E -> bool, d: Decoder<S>, under: Bytes): Decoded<S, E>
    requires Incremental(step)
  {
    if d.raw then Decoded(d, under, [], None) else
    var o := Drain(step, d.state, under);
    Decoded(Decoder(o.state, o.error.Some? && goesRaw(o.error.value)), o.output, o.rest, o.error)
  }

  datatype ConnState<S> = ConnState(decoder: Decoder<S>, decoded: Bytes, under: Bytes)

  /** What the connection underneath would answer if it were read. */
  datatype Arrival = Data(chunk: Bytes) | Broken

  datatype ReadError<E> = Transport | Decoding(error: E)

  datatype ReadResult<S, E> = ReadResult(conn: ConnState<S>, returned: Bytes, error: Option<ReadError<E>>)

  function Take(conn: ConnState, capacity: nat): (r: (ConnState, Bytes))
    ensures r.1 + r.0.decoded == conn.decoded && |r.1| <= capacity
    ensures r.0 == conn.(decoded := r.0.decoded)
  {
    var n := Min(capacity, |conn.decoded|);
    (conn.(decoded := conn.decoded[n..]), conn.decoded[..n])
  }

  /** One `Read`: left-over data first, and only then the connection underneath. */
  function ReadOnce<S(!new), E(!new)>(
    decode: (Decoder<S>, Bytes) -> Decoded<S, E>, conn: ConnState<S>, capacity: nat, arrival: Arrival): ReadResult<S, E>
  {
    if conn.decoded != [] then
      var (conn', b) := Take(conn, capacity);
      ReadResult(conn', b, None)
    else if arrival.Broken? then ReadResult(conn, [], Some(Transport))
    else
      var d := decode(conn.decoder, conn.under + arrival.chunk);
      var conn1 := ConnState(d.decoder, d.output, d.rest);
      if d.error.Some? then ReadResult(conn1, [], Some(Decoding(d.error.value)))
      else
        var (conn', b) := Take(conn1, capacity);
        ReadResult(conn', b, None)
  }

  class Conn<S(!new), E(!new)> {
    const decode: (Decoder<S>, Bytes) -> Decoded<S, E>
    var decoder: Decoder<S>
    const decoded: Buffer
    const underDecoded: Buffer
    ghost var produced: Bytes
    ghost var delivered: Bytes

    /** Nothing the decoder has produced is lost, repeated or reordered. */
    ghost predicate Valid()
      reads this, decoded
    {
      decoded != underDecoded && delivered + decoded.data == produced
    }

    ghost function State(): ConnState<S>
      reads this, decoded, underDecoded
    {
      ConnState(decoder, decoded.data, underDecoded.data)
    }

    constructor (decode: (Decoder<S>, Bytes) -> Decoded<S, E>, decoder: Decoder<S>)
      ensures Valid() && State() == ConnState(decoder, [], []) && produced == []
      ensures this.decode == decode
    {
      this.decode, this.decoder := decode, decoder;
      decoded := new Buffer();
      underDecoded := new Buffer();
      produced, delivered := [], [];
    }

    /** Hands out held data. */
    method Deliver(capacity: nat) returns (b: Bytes)
      requires Valid()
      modifies this`delivered, decoded
      ensures Valid() && delivered == old(delivered) + b
      ensures (ConnState(decoder, decoded.data, underDecoded.data), b) == Take(old(State()), capacity)
    {
      ghost var held := decoded.data;
      b := decoded.Next(capacity);
      assert held == b + decoded.data;
      assert delivered + held == (delivered + b) + decoded.data;
      delivered := delivered + b;
    }

    method Read(capacity: nat, arrival: Arrival) returns (b: Bytes, error: Option<ReadError<E>>)
      requires Valid()
      modifies this, decoded, underDecoded
      ensures Valid() && delivered == old(delivered) + b && old(produced) <= produced
      ensures ReadResult(State(), b, error) == ReadOnce(decode, old(State()), capacity, arrival)
    {
      hide Take;
      if |decoded.data| > 0 {
        b := Deliver(capacity);
        return b, None;
      }
      if arrival.Broken? {
        return [], Some(Transport);
      }
      underDecoded.Write(arrival.chunk);
      var d := decode(decoder, underDecoded.data);
      decoder := d.decoder;
      decoded.Write(d.output);
      assert decoded.data == d.output;
      produced := produced + d.output;
      underDecoded.data := d.rest;
      if d.error.Some? {
        return [], Some(Decoding(d.error.value));
      }
      b := Deliver(capacity);
      error := None;
    }
  }

  // Whole runs of reads

  datatype Call = Call(capacity: nat, arrival: Arrival)

  datatype Run<S> = Run(conn: ConnState<S>, returned: Bytes, consumed: seq<Bytes>)

  /** A sequence of `Read` calls: what they returned in all and which chunks they took in. */
  function Reads<S(!new), E(!new)>(
    decode: (Decoder<S>, Bytes) -> Decoded<S, E>, conn: ConnState<S>, calls: seq<Call>): Run<S>
    decreases |calls|
  {
    if calls == [] then Run(conn, [], []) else
    var r := ReadOnce(decode, conn, calls[0].capacity, calls[0].arrival);
    var chunk := if conn.decoded == [] && calls[0].arrival.Data? then [calls[0].arrival.chunk] else [];
    var rest := Reads(decode, r.conn, calls[1..]);
    Run(rest.conn, r.returned + rest.returned, chunk + rest.consumed)
  }

  /** What a read has to give: what is left over, or else what the new chunk decodes to. */
  function Held<S(!new), E(!new)>(
    decode: (Decoder<S>, Bytes) -> Decoded<S, E>, conn: ConnState<S>, arrival: Arrival): Bytes
  {
    if conn.decoded != [] then conn.decoded
    else if arrival.Broken? then []
    else decode(conn.decoder, conn.under + arrival.chunk).output
  }

  /**
   A read that reports no error returns as much of what it has as the caller's buffer takes,
   and holds the rest; one that reports an error returns nothing and holds all of it. It
   reports one exactly if nothing is left over and the transport or the decoder does.
   */
  lemma ReadAmount<S(!new), E(!new)>(
    decode: (Decoder<S>, Bytes) -> Decoded<S, E>, conn: ConnState<S>, capacity: nat, arrival: Arrival)
    ensures var r, held := ReadOnce(decode, conn, capacity, arrival), Held(decode, conn, arrival);
            && r.returned + r.conn.decoded == held
            && (r.error.None? ==> |r.returned| == if capacity < |held| then capacity else |held|)
            && (r.error.Some? ==> r.returned == [])
            && (r.error == Some(Transport) <==> conn.decoded == [] && arrival.Broken?)
            && ((r.error.Some? && r.error.value.Decoding?) <==>
                && conn.decoded == [] && arrival.Data?
                && decode(conn.decoder, conn.under + arrival.chunk).error.Some?)
  {
  }

  /** How much the callers' buffers take in all. */
  function TotalCapacity(calls: seq<Call>): nat {
    if calls == [] then 0 else calls[0].capacity + TotalCapacity(calls[1..])
  }

  /** When nothing more comes in, reads whose buffers take all that is held return all of it. */
  lemma {:induction false} HeldReturned<S(!new), E(!new)>(
    decode: (Decoder<S>, Bytes) -> Decoded<S, E>, conn: ConnState<S>, calls: seq<Call>)
    requires forall c | c in calls :: c.arrival.Broken?
    requires TotalCapacity(calls) >= |conn.decoded|
    ensures var run := Reads(decode, conn, calls);
            run.returned == conn.decoded && run.conn.decoded == [] && run.consumed == []
    decreases |calls|
  {
    hide Reads, ReadOnce;
    if calls == [] {
      EmptyRun(decode, conn);
    } else {
      var r := ReadOnce(decode, conn, calls[0].capacity, calls[0].arrival);
      ReadsUnfold(decode, conn, calls);
      ReadAmount(decode, conn, calls[0].capacity, calls[0].arrival);
      HeldReturned(decode, r.conn, calls[1..]);
    }
  }

  /** One sequence of reads after another is the sequence of all of them. */
  lemma {:induction false} ReadsConcat<S(!new), E(!new)>(
    decode: (Decoder<S>, Bytes) -> Decoded<S, E>, conn: ConnState<S>, a: seq<Call>, b: seq<Call>)
    ensures var first := Reads(decode, conn, a);
            var second := Reads(decode, first.conn, b);
            Reads(decode, conn, a + b)
            == Run(second.conn, first.returned + second.returned, first.consumed + second.consumed)
    decreases |a|
  {
    hide Reads, ReadOnce;
    if a == [] {
      EmptyRun(decode, conn);
      assert a + b == b;
      var second := Reads(decode, conn, b);
      assert [] + second.returned == second.returned && [] + second.consumed == second.consumed;
    } else {
      var r := ReadOnce(decode, conn, a[0].capacity, a[0].arrival);
      assert (a + b)[1..] == a[1..] + b;
      ReadsUnfold(decode, conn, a);
      ReadsUnfold(decode, conn, a + b);
      ReadsConcat(decode, r.conn, a[1..], b);
      var rest := Reads(decode, r.conn, a[1..]);
      var second := Reads(decode, rest.conn, b);
      assert r.returned + (rest.returned + second.returned) == (r.returned + rest.returned) + second.returned;
      assert forall x: seq<Bytes> :: x + (rest.consumed + second.consumed) == (x + rest.consumed) + second.consumed;
    }
  }

  /** A decoder called on each chunk in turn, whatever errors it reports on the way. */
  function DecodeAll<S(!new), E(!new)>(
    decode: (Decoder<S>, Bytes) -> Decoded<S, E>, d: Decoder<S>, under: Bytes, chunks: seq<Bytes>): Progress<S>
    decreases |chunks|
  {
    if chunks == [] then Progress(d, [], under) else
    var r := decode(d, under + chunks[0]);
    var rest := DecodeAll(decode, r.decoder, r.rest, chunks[1..]);
    Progress(rest.decoder, r.output + rest.output, rest.rest)
  }

  datatype Progress<S> = Progress(decoder: Decoder<S>, output: Bytes, rest: Bytes)

  lemma DecodeAllFirst<S(!new), E(!new)>(
    decode: (Decoder<S>, Bytes) -> Decoded<S, E>, d: Decoder<S>, under: Bytes, chunk: Bytes, chunks: seq<Bytes>)
    ensures var r := decode(d, under + chunk);
            var rest := DecodeAll(decode, r.decoder, r.rest, chunks);
            DecodeAll(decode, d, under, [chunk] + chunks) == Progress(rest.decoder, r.output + rest.output, rest.rest)
  {
    assert ([chunk] + chunks)[1..] == chunks;
  }

  /**
   Delivery on every run, through any errors: what the reads returned, followed by what is
   still held, is what was held before and then all output of the decoder, call by call.
   */
  lemma {:induction false} ReadsConserve<S(!new), E(!new)>(
    decode: (Decoder<S>, Bytes) -> Decoded<S, E>, conn: ConnState<S>, calls: seq<Call>)
    ensures var run := Reads(decode, conn, calls);
            var p := DecodeAll(decode, conn.decoder, conn.under, run.consumed);
            && run.returned + run.conn.decoded == conn.decoded + p.output
            && run.conn.decoder == p.decoder && run.conn.under == p.rest
    decreases |calls|
  {
    hide Reads, ReadOnce;
    if calls == [] {
      EmptyRun(decode, conn);
      return;
    }
    var call := calls[0];
    var r := ReadOnce(decode, conn, call.capacity, call.arrival);
    var rest := Reads(decode, r.conn, calls[1..]);
    ReadsUnfold(decode, conn, calls);
    ReadOnceCases(decode, conn, call.capacity, call.arrival);
    ReadsConserve(decode, r.conn, calls[1..]);
    var more := DecodeAll(decode, r.conn.decoder, r.conn.under, rest.consumed).output;
    AppendMiddle(r.returned, r.conn.decoded, rest.returned, rest.conn.decoded, more);
    if conn.decoded == [] && call.arrival.Data? {
      DecodeAllFirst(decode, conn.decoder, conn.under, call.arrival.chunk, rest.consumed);
      assert [] + (decode(conn.decoder, conn.under + call.arrival.chunk).output + more)
          == decode(conn.decoder, conn.under + call.arrival.chunk).output + more;
    }
  }

  /** A decoder that has gone raw passes on everything, in order. */
  lemma {:induction false} RawPassesOn<S(!new), E(!new)>(
    decode: (Decoder<S>, Bytes) -> Decoded<S, E>, step: (S, Bytes) -> Step<S, E>, goesRaw: E -> bool,
    d: Decoder<S>, under: Bytes, chunks: seq<Bytes>)
    requires Incremental(step) && Implements(decode, step, goesRaw) && d.raw
    ensures var p := DecodeAll(decode, d, under, chunks);
            p.decoder == d && p.output + p.rest == under + Flatten(chunks) && (chunks != [] ==> p.rest == [])
    decreases |chunks|
  {
    hide Incremental;
    if chunks != [] {
      assert decode(d, under + chunks[0]) == DecodeBy(step, goesRaw, d, under + chunks[0]);
      RawPassesOn(decode, step, goesRaw, d, [], chunks[1..]);
      var p := DecodeAll(decode, d, [], chunks[1..]);
      assert (under + chunks[0]) + p.output + p.rest == (under + chunks[0]) + (p.output + p.rest);
      assert under + (chunks[0] + Flatten(chunks[1..])) == (under + chunks[0]) + Flatten(chunks[1..]);
    }
  }

  /** `decode` is the codec that takes frames by `step` and goes raw on some errors. */
  ghost predicate Implements<S(!new), E(!new)>(
    decode: (Decoder<S>, Bytes) -> Decoded<S, E>, step: (S, Bytes) -> Step<S, E>, goesRaw: E -> bool)
    requires Incremental(step)
  {
    forall d: Decoder<S>, under: Bytes :: decode(d, under) == DecodeBy(step, goesRaw, d, under)
  }

  lemma ReadsUnfold<S(!new), E(!new)>(
    decode: (Decoder<S>, Bytes) -> Decoded<S, E>, conn: ConnState<S>, calls: seq<Call>)
    requires calls != []
    ensures var r := ReadOnce(decode, conn, calls[0].capacity, calls[0].arrival);
            var rest := Reads(decode, r.conn, calls[1..]);
            var run := Reads(decode, conn, calls);
            && run.conn == rest.conn && run.returned == r.returned + rest.returned
            && run.consumed == if conn.decoded == [] && calls[0].arrival.Data?
                               then [calls[0].arrival.chunk] + rest.consumed else rest.consumed
  {
    hide ReadOnce;
  }

  /** What one `Read` does, by where its data comes from. */
  lemma ReadOnceCases<S(!new), E(!new)>(
    decode: (Decoder<S>, Bytes) -> Decoded<S, E>, conn: ConnState<S>, capacity: nat, arrival: Arrival)
    ensures var r := ReadOnce(decode, conn, capacity, arrival);
            if conn.decoded != [] || arrival.Broken? then
              && r.returned + r.conn.decoded == conn.decoded
              && r.conn.decoder == conn.decoder && r.conn.under == conn.under
            else
              var d := decode(conn.decoder, conn.under + arrival.chunk);
              && r.returned + r.conn.decoded == d.output
              && r.conn.decoder == d.decoder && r.conn.under == d.rest
  {
  }

  /**
   Delivery: as long as no error came before the last chunk taken in, what the reads returned,
   followed by what is still held, is all that decoding those chunks produces, whatever the
   chunk sizes and the callers' buffer sizes. Data decoded in front of an error is included.
   */
  lemma {:induction false} ReadsDeliver<S(!new), E(!new)>(
    decode: (Decoder<S>, Bytes) -> Decoded<S, E>, step: (S, Bytes) -> Step<S, E>, goesRaw: E -> bool,
    conn: ConnState<S>, calls: seq<Call>)
    requires Incremental(step) && Implements(decode, step, goesRaw)
    requires !conn.decoder.raw
    requires NoEarlyError(step, conn, Reads(decode, conn, calls).consumed)
    ensures var run := Reads(decode, conn, calls);
            var o := Feed(step, conn.decoder.state, conn.under, run.consumed);
            && run.returned + run.conn.decoded == conn.decoded + o.output
            && (o.error.None? ==>
                run.conn.decoder == Decoder(o.state, false) && run.conn.under == o.rest)
    decreases |calls|
  {
    hide Reads, ReadOnce, Feed, Drain, Incremental, NoEarlyError;
    if calls == [] {
      NoReads(decode, step, conn);
      return;
    }
    var call := calls[0];
    var r := ReadOnce(decode, conn, call.capacity, call.arrival);
    var rest := Reads(decode, r.conn, calls[1..]);
    ReadsUnfold(decode, conn, calls);
    ReadOnceCases(decode, conn, call.capacity, call.arrival);
    if conn.decoded != [] || call.arrival.Broken? {
      SameDecoder(step, conn, r.conn, rest.consumed);
      ReadsDeliver(decode, step, goesRaw, r.conn, calls[1..]);
      var more := Feed(step, conn.decoder.state, conn.under, rest.consumed).output;
      AppendMiddle(r.returned, r.conn.decoded, rest.returned, rest.conn.decoded, more);
    } else {
      var o := Drain(step, conn.decoder.state, conn.under + call.arrival.chunk);
      assert decode(conn.decoder, conn.under + call.arrival.chunk)
          == DecodeBy(step, goesRaw, conn.decoder, conn.under + call.arrival.chunk);
      FeedFirst(step, conn.decoder.state, conn.under, call.arrival.chunk, rest.consumed);
      ErrorIsLast(step, conn, r.conn, call.arrival.chunk, rest.consumed);
      if o.error.Some? {
        OnlyHeldData(decode, r.conn, calls[1..]);
        AppendMiddle(r.returned, r.conn.decoded, rest.returned, rest.conn.decoded, []);
      } else {
        ReadsDeliver(decode, step, goesRaw, r.conn, calls[1..]);
        var more := Feed(step, o.state, o.rest, rest.consumed).output;
        AppendMiddle(r.returned, r.conn.decoded, rest.returned, rest.conn.decoded, more);
      }
    }
  }

  /** Every chunk but the last decodes without an error. */
  ghost predicate NoEarlyError<S(!new), E(!new)>(
    step: (S, Bytes) -> Step<S, E>, conn: ConnState<S>, taken: seq<Bytes>)
    requires Incremental(step)
  {
    taken != [] ==> Feed(step, conn.decoder.state, conn.under, taken[..|taken| - 1]).error.None?
  }

  lemma SameDecoder<S(!new), E(!new)>(
    step: (S, Bytes) -> Step<S, E>, conn: ConnState<S>, conn': ConnState<S>, taken: seq<Bytes>)
    requires Incremental(step) && conn'.decoder == conn.decoder && conn'.under == conn.under
    ensures NoEarlyError(step, conn, taken) == NoEarlyError(step, conn', taken)
  {
  }

  lemma NoReads<S(!new), E(!new)>(
    decode: (Decoder<S>, Bytes) -> Decoded<S, E>, step: (S, Bytes) -> Step<S, E>, conn: ConnState<S>)
    requires Incremental(step)
    ensures Reads(decode, conn, []) == Run(conn, [], [])
    ensures Feed(step, conn.decoder.state, conn.under, []) == Outcome(conn.decoder.state, [], conn.under, None)
  {
  }

  lemma ErrorIsLast<S(!new), E(!new)>(
    step: (S, Bytes) -> Step<S, E>, conn: ConnState<S>, conn': ConnState<S>, chunk: Bytes, chunks: seq<Bytes>)
    requires Incremental(step) && NoEarlyError(step, conn, [chunk] + chunks)
    ensures var o := Drain(step, conn.decoder.state, conn.under + chunk);
            if o.error.Some? then chunks == []
            else conn'.decoder.state == o.state && conn'.under == o.rest ==> NoEarlyError(step, conn', chunks)
  {
    hide Drain, Feed;
    if chunks != [] {
      var taken := [chunk] + chunks;
      assert taken[..|taken| - 1] == [chunk] + chunks[..|chunks| - 1];
      FeedFirst(step, conn.decoder.state, conn.under, chunk, chunks[..|chunks| - 1]);
    }
  }

  lemma AppendMiddle(a: Bytes, held: Bytes, b: Bytes, held': Bytes, more: Bytes)
    requires b + held' == held + more
    ensures (a + b) + held' == (a + held) + more
  {
    assert (a + b) + held' == a + (b + held') && (a + held) + more == a + (held + more);
  }

  lemma FeedFirst<S(!new), E(!new)>(
    step: (S, Bytes) -> Step<S, E>, s: S, rest: Bytes, chunk: Bytes, chunks: seq<Bytes>)
    requires Incremental(step)
    ensures var o := Drain(step, s, rest + chunk);
            Feed(step, s, rest, [chunk] + chunks) ==
              if o.error.Some? then o else Prepend(o.output, Feed(step, o.state, o.rest, chunks))
  {
    assert ([chunk] + chunks)[1..] == chunks;
  }

  /** Reads that take in no chunk only pass on what is held. */
  lemma {:induction false} OnlyHeldData<S(!new), E(!new)>(
    decode: (Decoder<S>, Bytes) -> Decoded<S, E>, conn: ConnState<S>, calls: seq<Call>)
    requires Reads(decode, conn, calls).consumed == []
    ensures var run := Reads(decode, conn, calls); run.returned + run.conn.decoded == conn.decoded
    decreases |calls|
  {
    hide Reads, ReadOnce;
    if calls == [] {
      EmptyRun(decode, conn);
    } else {
      var r := ReadOnce(decode, conn, calls[0].capacity, calls[0].arrival);
      var rest := Reads(decode, r.conn, calls[1..]);
      ReadsUnfold(decode, conn, calls);
      ReadOnceCases(decode, conn, calls[0].capacity, calls[0].arrival);
      OnlyHeldData(decode, r.conn, calls[1..]);
      assert (r.returned + rest.returned) + rest.conn.decoded == r.returned + (rest.returned + rest.conn.decoded);
    }
  }

  lemma EmptyRun<S(!new), E(!new)>(decode: (Decoder<S>, Bytes) -> Decoded<S, E>, conn: ConnState<S>)
    ensures Reads(decode, conn, []) == Run(conn, [], [])
  {
  }

  /**
   Over a stream that decodes without error, reads with any buffer sizes on any segmentation
   return the decoded stream in order, and all of it once every byte has come in and been read.
   */
  lemma WholeDelivery<S(!new), E(!new)>(
    decode: (Decoder<S>, Bytes) -> Decoded<S, E>, step: (S, Bytes) -> Step<S, E>, goesRaw: E -> bool,
    s: S, wire: Bytes, calls: seq<Call>)
    requires Incremental(step) && Implements(decode, step, goesRaw)
    requires step(s, []) == More(s) && Drain(step, s, wire).error.None?
    requires Flatten(Reads(decode, ConnState(Decoder(s, false), [], []), calls).consumed) <= wire
    ensures var run := Reads(decode, ConnState(Decoder(s, false), [], []), calls);
            var sent := Drain(step, s, wire).output;
            && run.returned + run.conn.decoded <= sent
            && (Flatten(run.consumed) == wire ==> run.returned + run.conn.decoded == sent)
  {
    hide Reads, Feed, Drain, Incremental, Implements;
    var conn := ConnState(Decoder(s, false), [], []);
    var run := Reads(decode, conn, calls);
    PrefixSafe(step, s, run.consumed, wire);
    if run.consumed != [] {
      var early := run.consumed[..|run.consumed| - 1];
      assert run.consumed == early + run.consumed[|run.consumed| - 1..];
      FlattenConcat(early, run.consumed[|run.consumed| - 1..]);
      PrefixSafe(step, s, early, wire);
    }
    ReadsDeliver(decode, step, goesRaw, conn, calls);
    SegmentationIrrelevant(step, s, [], run.consumed);
    assert [] + Flatten(run.consumed) == Flatten(run.consumed);
    assert conn.decoded + Feed(step, s, [], run.consumed).output == Feed(step, s, [], run.consumed).output;
  }

  /**
   Once every byte of a stream that decodes without error has come in, reads whose buffers take
   what is still held bring what was returned to exactly the decoded stream.
   */
  lemma WholeReturned<S(!new), E(!new)>(
    decode: (Decoder<S>, Bytes) -> Decoded<S, E>, step: (S, Bytes) -> Step<S, E>, goesRaw: E -> bool,
    s: S, wire: Bytes, calls: seq<Call>, more: seq<Call>)
    requires Incremental(step) && Implements(decode, step, goesRaw)
    requires step(s, []) == More(s) && Drain(step, s, wire).error.None?
    requires var run := Reads(decode, ConnState(Decoder(s, false), [], []), calls);
             Flatten(run.consumed) == wire && TotalCapacity(more) >= |run.conn.decoded|
    requires forall c | c in more :: c.arrival.Broken?
    ensures Reads(decode, ConnState(Decoder(s, false), [], []), calls + more).returned == Drain(step, s, wire).output
  {
    hide Reads, Drain, Incremental, Implements, TotalCapacity;
    var conn := ConnState(Decoder(s, false), [], []);
    WholeDelivery(decode, step, goesRaw, s, wire, calls);
    ReadsConcat(decode, conn, calls, more);
    HeldReturned(decode, Reads(decode, conn, calls).conn, more);
  }
}
