/**
 Decoders that read frames off the front of a growing byte buffer.

 A decoder is a step function: given its state and everything buffered so far, it asks
 for more bytes, takes a frame, or stops with an error. Asking for more may still change
 the state. The module proves once, for every such decoder whose step is decided by a
 prefix of the buffer, that how the stream was cut into pieces makes no difference.
 */
module StreamDecoder {
  import opened Octets

  datatype Step<S, E> =
    | More(state: S)
    | Frame(state: S, payload: Bytes, used: nat)
    | Stop(state: S, error: E)

  datatype Outcome<S, E> = Outcome(state: S, output: Bytes, rest: Bytes, error: Option<E>)

  /**
   What appending `more` to a buffer may do to a step: frames and errors stand, and a step
   that asked for more gives, tried again from the state it left, what it would have given
   from the state it started in.
   */
  ghost predicate Stable<S, E>(step: (S, Bytes) -> Step<S, E>, s: S, buf: Bytes, more: Bytes) {
    match step(s, buf)
    case More(s') => step(s', buf + more) == step(s, buf + more)
    case Frame(_, _, used) => 0 < used <= |buf| && step(s, buf + more) == step(s, buf)
    case Stop(_, _) => step(s, buf + more) == step(s, buf)
  }

  ghost predicate Incremental<S(!new), E(!new)>(step: (S, Bytes) -> Step<S, E>) {
    forall s: S, buf: Bytes, more: Bytes :: Stable(step, s, buf, more)
  }

  /** Takes frames until the step asks for more or stops; an error discards the buffer. */
  function Drain<S(!new), E(!new)>(step: (S, Bytes) -> Step<S, E>, s: S, buf: Bytes): Outcome<S, E>
    requires Incremental(step)
    decreases |buf|
  {
    assert Stable(step, s, buf, []);
    match step(s, buf)
    case More(s') => Outcome(s', [], buf, None)
    case Stop(s', e) => Outcome(s', [], [], Some(e))
    case Frame(s', payload, used) => Prepend(payload, Drain(step, s', buf[used..]))
  }

  function Prepend<S, E>(output: Bytes, r: Outcome<S, E>): Outcome<S, E> {
    r.(output := output + r.output)
  }

  lemma PrependTwice<S, E>(a: Bytes, b: Bytes, r: Outcome<S, E>)
    ensures Prepend(a, Prepend(b, r)) == Prepend(a + b, r)
    ensures Prepend([], r) == r
  {
    assert a + (b + r.output) == (a + b) + r.output;
  }

  /** Draining after the arrival of each chunk, up to and including the first error. */
  function Feed<S(!new), E(!new)>(step: (S, Bytes) -> Step<S, E>, s: S, rest: Bytes, chunks: seq<Bytes>): Outcome<S, E>
    requires Incremental(step)
    decreases |chunks|
  {
    if chunks == [] then Outcome(s, [], rest, None) else
    var r := Drain(step, s, rest + chunks[0]);
    if r.error.Some? then r else Prepend(r.output, Feed(step, r.state, r.rest, chunks[1..]))
  }

  /** One unrolling of the drained stream. */
  lemma DrainUnfold<S(!new), E(!new)>(step: (S, Bytes) -> Step<S, E>, s: S, buf: Bytes)
    requires Incremental(step)
    ensures step(s, buf).More? ==> Drain(step, s, buf) == Outcome(step(s, buf).state, [], buf, None)
    ensures step(s, buf).Stop? ==> Drain(step, s, buf) == Outcome(step(s, buf).state, [], [], Some(step(s, buf).error))
    ensures step(s, buf).Frame? ==>
              && 0 < step(s, buf).used <= |buf|
              && Drain(step, s, buf) ==
                   Prepend(step(s, buf).payload, Drain(step, step(s, buf).state, buf[step(s, buf).used..]))
  {
    assert Stable(step, s, buf, []);
  }

  /** A drained decoder is at rest: trying again without new bytes changes nothing. */
  lemma {:induction false} DrainRests<S(!new), E(!new)>(step: (S, Bytes) -> Step<S, E>, s: S, buf: Bytes)
    requires Incremental(step)
    ensures var r := Drain(step, s, buf); r.error.None? ==> step(r.state, r.rest) == More(r.state)
    decreases |buf|
  {
    assert Stable(step, s, buf, []);
    assert buf + [] == buf;
    match step(s, buf)
    case More(_) =>
    case Stop(_, _) =>
    case Frame(s', _, used) => DrainRests(step, s', buf[used..]);
  }

  lemma {:induction false} DrainSplit<S(!new), E(!new)>(step: (S, Bytes) -> Step<S, E>, s: S, a: Bytes, b: Bytes)
    requires Incremental(step)
    ensures var r := Drain(step, s, a);
            Drain(step, s, a + b) ==
              if r.error.Some? then r else Prepend(r.output, Drain(step, r.state, r.rest + b))
    decreases |a|
  {
    assert Stable(step, s, a, b);
    match step(s, a)
    case More(s') =>
      assert Prepend([], Drain(step, s', a + b)) == Drain(step, s', a + b);
      assert Stable(step, s, a + b, []) && Stable(step, s', a + b, []);
    case Stop(_, _) =>
    case Frame(s', payload, used) =>
      DrainSplit(step, s', a[used..], b);
      assert (a + b)[used..] == a[used..] + b;
      var r := Drain(step, s', a[used..]);
      if r.error.None? {
        var t := Drain(step, r.state, r.rest + b);
        assert payload + (r.output + t.output) == (payload + r.output) + t.output;
      }
  }

  /**
   Segmentation independence: feeding a stream in any pieces gives the same output, error,
   leftover and final state as draining it whole.
   */
  lemma {:induction false} SegmentationIrrelevant<S(!new), E(!new)>(
    step: (S, Bytes) -> Step<S, E>, s: S, rest: Bytes, chunks: seq<Bytes>)
    requires Incremental(step)
    requires step(s, rest) == More(s)
    ensures Feed(step, s, rest, chunks) == Drain(step, s, rest + Flatten(chunks))
    decreases |chunks|
  {
    if chunks == [] {
      assert rest + Flatten(chunks) == rest;
    } else {
      var r := Drain(step, s, rest + chunks[0]);
      DrainSplit(step, s, rest + chunks[0], Flatten(chunks[1..]));
      assert rest + Flatten(chunks) == (rest + chunks[0]) + Flatten(chunks[1..]);
      if r.error.None? {
        DrainRests(step, s, rest + chunks[0]);
        SegmentationIrrelevant(step, r.state, r.rest, chunks[1..]);
      }
    }
  }

  /** One whole frame at the front of a stream is taken, whatever follows it. */
  lemma DrainFrame<S(!new), E(!new)>(step: (S, Bytes) -> Step<S, E>, s: S, frame: Bytes, more: Bytes)
    requires Incremental(step)
    requires step(s, frame).Frame? && step(s, frame).used == |frame|
    ensures var f := step(s, frame);
            Drain(step, s, frame + more) == Prepend(f.payload, Drain(step, f.state, more))
  {
    assert Stable(step, s, frame, more);
    assert (frame + more)[|frame|..] == more;
  }

  /** While a stream that decodes without error is still arriving, no error is reported early. */
  lemma PrefixSafe<S(!new), E(!new)>(step: (S, Bytes) -> Step<S, E>, s: S, chunks: seq<Bytes>, whole: Bytes)
    requires Incremental(step) && step(s, []) == More(s)
    requires Flatten(chunks) <= whole
    requires Drain(step, s, whole).error.None?
    ensures var r := Feed(step, s, [], chunks);
            r.error.None? && r.output <= Drain(step, s, whole).output
  {
    hide Incremental, Drain, Feed;
    var a := Flatten(chunks);
    SegmentationIrrelevant(step, s, [], chunks);
    assert [] + a == a;
    DrainSplit(step, s, a, whole[|a|..]);
    assert a + whole[|a|..] == whole;
  }
}
