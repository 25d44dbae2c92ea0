/** What auth_chain frames guarantee over whole streams. */
module AuthChainProofs {
  import opened Octets
  import opened Random
  import opened StreamDecoder
  import opened AuthChainPadding
  import opened AuthChainSpec

  ghost function Receiver(cfg: Config): (State, Bytes) -> Step<State, Error> {
    (s: State, buf: Bytes) => Receive(cfg, s, buf)
  }

  // Retrying an incomplete frame

  /**
   A receiver that stopped on an incomplete frame has already overwritten two bytes of its
   hash and reseeded its generator; none of that shows in any later result.
   */
  lemma RetryHarmless(cfg: Config, s: State, buf: Bytes, more: Bytes)
    ensures Stable(Receiver(cfg), s, buf, more)
  {
    match Receive(cfg, s, buf)
    case More(_) => ScratchHidden(cfg, s, buf, buf + more);
    case Frame(_, _, _) => DecidedByPrefix(cfg, s, buf, more);
    case Stop(_, _) => DecidedByPrefix(cfg, s, buf, more);
  }

  lemma ScratchHidden(cfg: Config, s: State, buf: Bytes, longer: Bytes)
    requires Receive(cfg, s, buf).More? && buf <= longer
    ensures Receive(cfg, Receive(cfg, s, buf).state, longer) == Receive(cfg, s, longer)
  {
    hide XorStream, DataStart;
    if |buf| > 4 {
      assert longer[..2] == buf[..2];
      ScratchState(cfg, Xor16(FromLe16(buf[..2]), LengthMask(s.hash)), s);
    }
  }

  lemma DecidedByPrefix(cfg: Config, s: State, buf: Bytes, more: Bytes)
    requires !Receive(cfg, s, buf).More?
    ensures Receive(cfg, s, buf + more) == Receive(cfg, s, buf)
    ensures Receive(cfg, s, buf).Frame? ==> 0 < Receive(cfg, s, buf).used <= |buf|
  {
    hide Xor16, Open;
    var length := Xor16(FromLe16(buf[..2]), LengthMask(s.hash));
    var padded := cfg.padding(length, s.hash, s.gen);
    var total := length + padded.pad;
    assert (buf + more)[..2] == buf[..2];
    if total < LENGTH_LIMIT {
      assert (buf + more)[..total + 2] == buf[..total + 2];
      assert (buf + more)[total + 2..total + 4] == buf[total + 2..total + 4];
      var mac := cfg.hmac(MacKey(cfg, s.id), buf[..total + 2]);
      OpenPrefix(cfg, s.(hash := padded.hash, gen := padded.gen), mac, length, padded.pad, buf, more);
    }
  }

  lemma OpenPrefix(cfg: Config, s: State, mac: Block, length: nat, pad: nat, buf: Bytes, more: Bytes)
    requires 4 + length + pad <= |buf|
    ensures var step := Open(cfg, s, mac, length, pad, buf);
            && Open(cfg, s, mac, length, pad, buf + more) == step
            && !step.More? && (step.Frame? ==> 0 < step.used <= |buf|)
            && (step.Stop? ==> step.error == Panic)
  {
    hide XorStream, Draw, Advance;
    var start := DataStart(length, pad, s.gen).0;
    assert (buf + more)[2 + start..2 + start + length] == buf[2 + start..2 + start + length];
  }

  lemma ScratchState(cfg: Config, length: nat, s: State)
    ensures var a := cfg.padding(length, s.hash, s.gen);
            LengthMask(a.hash) == LengthMask(s.hash) && cfg.padding(length, a.hash, a.gen) == a
  {
    var a := cfg.padding(length, s.hash, s.gen);
    assert LawfulAt(cfg.padding, length, s.hash, s.hash, s.gen, s.gen);
    assert a.hash[14..16] == a.hash[2..][12..14] && s.hash[2..][12..14] == s.hash[14..16];
  }

  lemma ReceiverIncremental(cfg: Config)
    ensures Incremental(Receiver(cfg))
  {
    forall s: State, buf: Bytes, more: Bytes ensures Stable(Receiver(cfg), s, buf, more) {
      RetryHarmless(cfg, s, buf, more);
    }
  }

  /**
   On any input at all, honest or not, cutting the stream differently changes nothing up to
   and including the first error.
   */
  lemma ChunkedEqualsWhole(cfg: Config, s: State, chunks: seq<Bytes>)
    ensures Incremental(Receiver(cfg))
    ensures Feed(Receiver(cfg), s, [], chunks) == Drain(Receiver(cfg), s, Flatten(chunks))
  {
    ReceiverIncremental(cfg);
    SegmentationIrrelevant(Receiver(cfg), s, [], chunks);
    assert [] + Flatten(chunks) == Flatten(chunks);
  }

  // Round trip

  /** The two ends agree at a frame boundary; their generators need not. */
  ghost predicate InStep(sender: State, receiver: State) {
    sender.hash == receiver.hash && sender.offset == receiver.offset && sender.id == receiver.id
  }

  lemma FrameLayout(cfg: Config, s: State, payload: Bytes, filler: Bytes)
    requires |filler| == Room(cfg, s, |payload|)
    ensures var (frame, s') := Send(cfg, s, payload, filler);
            var padded := cfg.padding(|payload|, s.hash, s.gen);
            var (start, gen) := DataStart(|payload|, padded.pad, padded.gen);
            var total := |payload| + padded.pad;
            && |frame| == total + 4
            && frame[..2] == Le16(Xor16(|payload| % 0x1_0000, LengthMask(s.hash)))
            && frame[2 + start..2 + start + |payload|] == XorStream(cfg.keystream, s.offset, payload)
            && s'.hash == cfg.hmac(MacKey(cfg, s.id), frame[..total + 2])
            && frame[total + 2..] == s'.hash[..2]
  {
    hide XorStream, Draw, Advance, Xor16;
    var padded := cfg.padding(|payload|, s.hash, s.gen);
    var start := DataStart(|payload|, padded.pad, padded.gen).0;
    var body := Body(cfg, s, payload, filler);
    var (frame, _) := Send(cfg, s, payload, filler);
    assert frame[..padded.pad + |payload| + 2] == body;
    assert frame[2 + start..2 + start + |payload|] == body[2 + start..2 + start + |payload|];
  }

  lemma MaskUndo(n: UInt16, mask: UInt16)
    ensures Xor16(FromLe16(Le16(Xor16(n, mask))), mask) == n
  {
    XorUndo(n, mask);
  }

  /** Opening a sent frame, once its length and padding are known, gives the payload back. */
  lemma OpenSent(cfg: Config, s: State, r: State, mac: Block, payload: Bytes, filler: Bytes)
    requires |filler| == Room(cfg, s, |payload|)
    requires r.id == s.id && r.offset == s.offset
    requires |filler| > 0 ==> r.gen == cfg.padding(|payload|, s.hash, s.gen).gen
    ensures var (frame, s') := Send(cfg, s, payload, filler);
            && |frame| == 4 + |payload| + |filler|
            && var step := Open(cfg, r, mac, |payload|, |filler|, frame);
               if s.id == 1 && |payload| < 2 then step.Stop? && step.error == Panic
               else step.Frame? && step.used == |frame| && step.payload == Delivered(s.id, payload)
                    && step.state.hash == mac && step.state.offset == s'.offset && step.state.id == s'.id
  {
    hide XorStream, Body, Draw, Advance;
    FrameLayout(cfg, s, payload, filler);
    XorStreamUndo(cfg.keystream, s.offset, payload);
  }

  /**
   A receiver in step with the sender takes a sent frame whole, as soon as more than four bytes
   have come in, and stays in step. A first frame that carries fewer than two bytes makes it
   panic instead: at once, unless the frame is empty and without padding, and then as soon as
   any further byte arrives.
   */
  lemma FrameRoundTrip(cfg: Config, s: State, r: State, payload: Bytes, filler: Bytes, more: Bytes)
    requires InStep(s, r) && |filler| == Room(cfg, s, |payload|)
    requires |payload| <= CHUNK
    ensures var (frame, s') := Send(cfg, s, payload, filler);
            var step := Receive(cfg, r, frame + more);
            && |frame| == 4 + |payload| + |filler|
            && if |frame + more| <= 4 then step == More(r) && payload == filler == more == []
               else if r.id == 1 && |payload| < 2 then step.Stop? && step.error == Panic
               else step.Frame? && step.used == |frame| && step.payload == Delivered(s.id, payload)
                    && InStep(s', step.state)
  {
    hide XorStream, Body, Xor16, Open, DataStart, Send;
    var (frame, s') := Send(cfg, s, payload, filler);
    var n := |payload|;
    FrameLayout(cfg, s, payload, filler);
    MaskUndo(n, LengthMask(s.hash));
    assert LawfulAt(cfg.padding, n, s.hash, r.hash, s.gen, r.gen);
    var total := n + |filler|;
    var buf := frame + more;
    FrontOfBuffer(frame, more, total);
    var padded := cfg.padding(n, r.hash, r.gen);
    var r1 := r.(hash := padded.hash, gen := padded.gen);
    OpenSent(cfg, s, r1, s'.hash, payload, filler);
    OpenPrefix(cfg, r1, s'.hash, n, |filler|, frame, more);
  }

  lemma FrontOfBuffer(frame: Bytes, more: Bytes, total: nat)
    requires |frame| == total + 4
    ensures var buf := frame + more;
            && buf[..2] == frame[..2] && buf[..total + 2] == frame[..total + 2]
            && buf[total + 2..total + 4] == frame[total + 2..]
  {
  }

  // Frames bit by bit

  /** The key that authenticates a frame: the user key and the counter in four bytes. */
  ghost predicate Authenticates(cfg: Config, id: UInt32, data: Bytes, mac: Block) {
    mac == cfg.hmac(cfg.userKey + [id % 0x100, id / 0x100 % 0x100, id / 0x1_0000 % 0x100, id / 0x100_0000], data)
  }

  /** `plain` under the key stream from `offset` on is `cipher`, bit by bit. */
  ghost predicate Encrypted(cfg: Config, offset: nat, plain: Bytes, cipher: Bytes) {
    |plain| == |cipher| && forall i | 0 <= i < |plain| :: IsXor(plain[i], cfg.keystream(offset + i), cipher[i])
  }

  /** Where the data lies inside the padding: a remainder of the number drawn, twice reduced. */
  ghost predicate Placed(length: nat, pad: nat, gen: Generator, start: nat, gen': Generator) {
    if length == 0 || pad == 0 then start == 0 && gen' == gen
    else start == Draw(gen) % 8589934609 % pad && gen' == Advance(gen)
  }

  /**
   A sent frame on the wire: the length under the last two bytes of the previous hash, the
   encrypted data inside its padding, and the first two bytes of the hash of all this, which
   is the next frame's previous hash.
   */
  lemma SentOnWire(cfg: Config, s: State, payload: Bytes, filler: Bytes)
    requires |filler| == Room(cfg, s, |payload|)
    ensures var (frame, s') := Send(cfg, s, payload, filler);
            var n, padded := |payload|, cfg.padding(|payload|, s.hash, s.gen);
            var total := n + padded.pad;
            && |frame| == 4 + total
            && IsXor(n % 0x1_0000, s.hash[14] as int + 0x100 * s.hash[15] as int,
                     frame[0] as int + 0x100 * frame[1] as int)
            && (exists start: nat ::
                  && start <= padded.pad && Placed(n, padded.pad, padded.gen, start, s'.gen)
                  && Encrypted(cfg, s.offset, payload, frame[2 + start..2 + start + n])
                  && frame[2..2 + start] + frame[2 + start + n..2 + total] == filler)
            && Authenticates(cfg, s.id, frame[..total + 2], s'.hash) && frame[total + 2..] == s'.hash[..2]
            && s'.offset == s.offset + n && s'.id == (s.id + 1) % 0x1_0000_0000
  {
    hide XorStream, Draw, Advance, Xor16, Lawful, LawfulAt;
    var (frame, s') := Send(cfg, s, payload, filler);
    var n := |payload|;
    var padded := cfg.padding(n, s.hash, s.gen);
    var start := DataStart(n, padded.pad, padded.gen).0;
    FrameLayout(cfg, s, payload, filler);
    MaskOnWire(n % 0x1_0000, s.hash, frame[..2]);
    XorStreamBits(cfg.keystream, s.offset, payload);
    FillerAround(cfg, s, payload, filler);
    assert Placed(n, padded.pad, padded.gen, start, s'.gen);
    assert Encrypted(cfg, s.offset, payload, frame[2 + start..2 + start + n]);
  }

  lemma MaskOnWire(n: UInt16, hash: Block, front: Bytes)
    requires front == Le16(Xor16(n, LengthMask(hash)))
    ensures |front| == 2
    ensures IsXor(n, hash[14] as int + 0x100 * hash[15] as int, front[0] as int + 0x100 * front[1] as int)
  {
    hide Xor16;
    assert hash[14..16] == [hash[14], hash[15]];
    XorBits(n, LengthMask(hash));
    Xor16Is(n, LengthMask(hash));
  }

  lemma Xor16Is(a: UInt16, b: UInt16)
    ensures Xor16(a, b) == Xor(a, b)
  {
  }

  lemma FillerAround(cfg: Config, s: State, payload: Bytes, filler: Bytes)
    requires |filler| == Room(cfg, s, |payload|)
    ensures var frame := Send(cfg, s, payload, filler).0;
            var padded := cfg.padding(|payload|, s.hash, s.gen);
            var start := DataStart(|payload|, padded.pad, padded.gen).0;
            && |frame| == 4 + |payload| + |filler|
            && frame[2..2 + start] + frame[2 + start + |payload|..2 + |payload| + |filler|] == filler
  {
    hide XorStream, Draw, Advance, Xor16;
    var padded := cfg.padding(|payload|, s.hash, s.gen);
    var start := DataStart(|payload|, padded.pad, padded.gen).0;
    var frame := Send(cfg, s, payload, filler).0;
    assert frame[2..2 + start] == filler[..start];
    assert frame[2 + start + |payload|..2 + |payload| + |filler|] == filler[start..];
    assert filler[..start] + filler[start..] == filler;
  }

  /**
   What a receiver makes of any buffer with more than four bytes, from its bytes: the length
   under the mask; an error for 4096 bytes of data and padding or more; patience; an error for
   a wrong hash; and otherwise the decrypted data of the frame, two bytes short at counter 1.
   */
  lemma ReceivedOnWire(cfg: Config, s: State, buf: Bytes)
    requires |buf| > 4
    ensures exists n: UInt16 :: LengthOnWire(s, buf, n) && ReceivedAs(cfg, s, buf, n)
  {
    hide XorStream, Draw, Advance, Xor16, Lawful, LawfulAt;
    var front := buf[..2];
    var n := Xor16(FromLe16(front), LengthMask(s.hash));
    assert s.hash[14..16] == [s.hash[14], s.hash[15]];
    XorBits(FromLe16(front), LengthMask(s.hash));
    Xor16Is(FromLe16(front), LengthMask(s.hash));
    assert LengthOnWire(s, buf, n);
    var padded := cfg.padding(n, s.hash, s.gen);
    var total := n as int + padded.pad;
    if total < 4096 && 4 + total <= |buf| {
      var mac := cfg.hmac(MacKey(cfg, s.id), buf[..total + 2]);
      var (start, gen) := DataStart(n, padded.pad, padded.gen);
      var data := buf[2 + start..2 + start + n];
      XorStreamBits(cfg.keystream, s.offset, data);
      assert Authenticates(cfg, s.id, buf[..total + 2], mac);
      assert Placed(n, padded.pad, padded.gen, start, gen);
      var plain := XorStream(cfg.keystream, s.offset, data);
      assert Encrypted(cfg, s.offset, data, plain);
      if mac[..2] == buf[total + 2..total + 4] && !(s.id == 1 && n < 2) {
        assert OpenedAs(cfg, s, buf, n, padded, start, plain, State(mac, gen, s.offset + n, Bump(s.id)));
      }
    }
    assert ReceivedAs(cfg, s, buf, n);
  }

  ghost predicate LengthOnWire(s: State, buf: Bytes, n: UInt16)
    requires |buf| > 4
  {
    IsXor(buf[0] as int + 0x100 * buf[1] as int, s.hash[14] as int + 0x100 * s.hash[15] as int, n)
  }

  ghost predicate ReceivedAs(cfg: Config, s: State, buf: Bytes, n: UInt16) {
    var padded := cfg.padding(n, s.hash, s.gen);
    var step, total := Receive(cfg, s, buf), n as int + padded.pad;
    && (step.Stop? && step.error == LengthError <==> total >= 4096)
    && (step.More? <==> total < 4096 && 4 + total > |buf|)
    && (step.More? ==> step.state == s.(hash := padded.hash, gen := padded.gen))
    && (total < 4096 && 4 + total <= |buf| ==>
        exists mac :: Authenticates(cfg, s.id, buf[..total + 2], mac)
                      && (step.Stop? && step.error == ChecksumError <==> mac[..2] != buf[total + 2..total + 4]))
    && (step.Stop? && step.error == Panic ==> s.id == 1 && n < 2)
    && (step.Frame? ==>
        && step.used == total + 4 <= |buf|
        && exists start: nat, plain :: OpenedAs(cfg, s, buf, n, padded, start, plain, step.state)
                                  && step.payload == if s.id == 1 then plain[2..] else plain)
  }

  ghost predicate OpenedAs(
    cfg: Config, s: State, buf: Bytes, n: nat, padded: Padded, start: nat, plain: Bytes, s': State)
  {
    && 4 + n + padded.pad <= |buf| && start <= padded.pad && (s.id == 1 ==> |plain| >= 2)
    && Placed(n, padded.pad, padded.gen, start, s'.gen)
    && Encrypted(cfg, s.offset, buf[2 + start..2 + start + n], plain)
    && Authenticates(cfg, s.id, buf[..n + padded.pad + 2], s'.hash)
    && s'.offset == s.offset + n && s'.id == (s.id + 1) % 0x1_0000_0000
  }

  lemma NoFrames(cfg: Config, s: State, wire: Bytes, s': State)
    requires Sends(cfg, s, [], wire, s')
    ensures wire == [] && s' == s
  {
  }

  lemma FirstFrame(cfg: Config, s: State, payloads: seq<Bytes>, wire: Bytes, s': State)
    returns (filler: Bytes, frame: Bytes, mid: State)
    requires payloads != [] && Sends(cfg, s, payloads, wire, s')
    ensures |filler| == Room(cfg, s, |payloads[0]|) && Send(cfg, s, payloads[0], filler) == (frame, mid)
    ensures frame <= wire && Sends(cfg, mid, payloads[1..], wire[|frame|..], s')
    ensures mid.id == Bump(s.id)
  {
    filler :| |filler| == Room(cfg, s, |payloads[0]|)
      && var (frame, mid) := Send(cfg, s, payloads[0], filler);
         frame <= wire && Sends(cfg, mid, payloads[1..], wire[|frame|..], s');
    frame, mid := Send(cfg, s, payloads[0], filler).0, Send(cfg, s, payloads[0], filler).1;
  }

  /**
   Round trip: whatever padding bytes the sender drew, the receiver outputs the payloads,
   never an error, consumes the wire exactly and ends in step with the sender.
   */
  lemma {:induction false} StreamRoundTrip(
    cfg: Config, s: State, r: State, payloads: seq<Bytes>, wire: Bytes, s': State)
    requires InStep(s, r) && Sendable(s.id, payloads) && Sends(cfg, s, payloads, wire, s')
    ensures Incremental(Receiver(cfg))
    ensures var o := Drain(Receiver(cfg), r, wire);
            && o.error == None && o.rest == []
            && o.output == DeliveredAll(s.id, payloads)
            && InStep(s', o.state)
    decreases |payloads|
  {
    hide Sends, Send, Receive, Incremental, Drain;
    ReceiverIncremental(cfg);
    if payloads == [] {
      NoFrames(cfg, s, wire, s');
      DrainEmpty(cfg, r);
    } else {
      var filler, frame, mid := FirstFrame(cfg, s, payloads, wire, s');
      FrameRoundTrip(cfg, s, r, payloads[0], filler, []);
      assert frame + [] == frame;
      var next := Receive(cfg, r, frame).state;
      StreamRoundTrip(cfg, mid, next, payloads[1..], wire[|frame|..], s');
      DrainFrame(Receiver(cfg), r, frame, wire[|frame|..]);
      assert frame + wire[|frame|..] == wire;
    }
  }

  /** One transmission after another is a transmission of all the payloads. */
  lemma {:induction false} SendsConcat(
    cfg: Config, a: State, payloads: seq<Bytes>, wire: Bytes, b: State,
    payloads': seq<Bytes>, wire': Bytes, c: State)
    requires Sends(cfg, a, payloads, wire, b) && Sends(cfg, b, payloads', wire', c)
    ensures Sends(cfg, a, payloads + payloads', wire + wire', c)
    decreases |payloads|
  {
    hide Send, Sends;
    if payloads == [] {
      NoFrames(cfg, a, wire, b);
      assert payloads + payloads' == payloads' && wire + wire' == wire';
    } else {
      var filler, frame, mid := FirstFrame(cfg, a, payloads, wire, b);
      SendsConcat(cfg, mid, payloads[1..], wire[|frame|..], b, payloads', wire', c);
      SendsCons(cfg, a, payloads[0], filler, frame, mid, payloads[1..] + payloads', wire[|frame|..] + wire', c);
      assert payloads + payloads' == [payloads[0]] + (payloads[1..] + payloads');
      assert wire + wire' == frame + (wire[|frame|..] + wire');
    }
  }

  lemma SendsCons(
    cfg: Config, s: State, payload: Bytes, filler: Bytes, frame: Bytes, mid: State,
    payloads: seq<Bytes>, wire: Bytes, s': State)
    requires |filler| == Room(cfg, s, |payload|) && Send(cfg, s, payload, filler) == (frame, mid)
    requires Sends(cfg, mid, payloads, wire, s')
    ensures Sends(cfg, s, [payload] + payloads, frame + wire, s')
  {
    hide Send;
    assert ([payload] + payloads)[1..] == payloads;
    assert (frame + wire)[|frame|..] == wire;
  }

  lemma SendsOne(cfg: Config, s: State, payload: Bytes, filler: Bytes)
    requires |filler| == Room(cfg, s, |payload|)
    ensures var (frame, s') := Send(cfg, s, payload, filler);
            Sends(cfg, s, [payload], frame, s')
  {
    hide Send;
    var (frame, s') := Send(cfg, s, payload, filler);
    assert Sends(cfg, s', [], [], s');
    SendsCons(cfg, s, payload, filler, frame, s', [], [], s');
    assert [payload] + [] == [payload] && frame + [] == frame;
  }

  lemma DrainEmpty(cfg: Config, r: State)
    requires Incremental(Receiver(cfg))
    ensures Drain(Receiver(cfg), r, []) == Outcome(r, [], [], None)
    ensures Receiver(cfg)(r, []) == More(r)
  {
  }

  /** The same for any segmentation of the wire, and no early error on any part of it. */
  lemma SegmentedRoundTrip(
    cfg: Config, s: State, r: State, payloads: seq<Bytes>, wire: Bytes, s': State, chunks: seq<Bytes>)
    requires InStep(s, r) && Sendable(s.id, payloads) && Sends(cfg, s, payloads, wire, s')
    requires Flatten(chunks) <= wire
    ensures Incremental(Receiver(cfg))
    ensures var o := Feed(Receiver(cfg), r, [], chunks);
            && o.error == None && o.output <= DeliveredAll(s.id, payloads)
            && (Flatten(chunks) == wire ==>
                o.output == DeliveredAll(s.id, payloads) && o.rest == [] && InStep(s', o.state))
  {
    StreamRoundTrip(cfg, s, r, payloads, wire, s');
    DrainEmpty(cfg, r);
    PrefixSafe(Receiver(cfg), r, chunks, wire);
    ChunkedEqualsWhole(cfg, r, chunks);
  }

  // The frame counter wraps

  /** How often the counter is 1 over `n` frames that start at `id`. */
  function Ones(id: UInt32, n: nat): nat
    decreases n
  {
    if n == 0 then 0 else (if id == 1 then 1 else 0) + Ones(Bump(id), n - 1)
  }

  lemma {:induction false} OnesClosedForm(id: UInt32, n: nat)
    ensures Ones(id, n) == (n + (id + 0xFFFF_FFFE) % 0x1_0000_0000) / 0x1_0000_0000
    decreases n
  {
    if n > 0 {
      OnesClosedForm(Bump(id), n - 1);
      PhaseStep(id);
      Carry(n, (id + 0xFFFF_FFFE) % 0x1_0000_0000);
    }
  }

  lemma PhaseStep(id: UInt32)
    ensures (id + 0xFFFF_FFFE) % 0x1_0000_0000 == 0xFFFF_FFFF <==> id == 1
    ensures (Bump(id) + 0xFFFF_FFFE) % 0x1_0000_0000
         == if id == 1 then 0 else (id + 0xFFFF_FFFE) % 0x1_0000_0000 + 1
  {
  }

  lemma Carry(n: nat, phase: UInt32)
    requires n >= 1
    ensures (n + phase) / 0x1_0000_0000
         == if phase == 0xFFFF_FFFF then 1 + (n - 1) / 0x1_0000_0000 else (n - 1 + (phase + 1)) / 0x1_0000_0000
  {
  }

  lemma {:induction false} DeliveredLength(id: UInt32, payloads: seq<Bytes>)
    requires Sendable(id, payloads)
    ensures |DeliveredAll(id, payloads)| == |Flatten(payloads)| - 2 * Ones(id, |payloads|)
    ensures Ones(id, |payloads|) == 0 ==> DeliveredAll(id, payloads) == Flatten(payloads)
    decreases |payloads|
  {
    if payloads != [] {
      DeliveredLength(Bump(id), payloads[1..]);
    }
  }

  /**
   The receiver drops two bytes whenever its 32-bit counter is 1. A connection delivers
   everything but the first two bytes exactly as long as it carries at most 2^32 frames.
   */
  lemma LosslessUntilWrap(payloads: seq<Bytes>)
    requires payloads != [] && Sendable(1, payloads)
    ensures DeliveredAll(1, payloads) == Flatten(payloads)[2..] <==> |payloads| <= 0x1_0000_0000
    ensures |DeliveredAll(1, payloads)|
         == |Flatten(payloads)| - 2 * ((|payloads| + 0xFFFF_FFFF) / 0x1_0000_0000)
  {
    hide Ones;
    var n := |payloads|;
    OnesClosedForm(1, n);
    DeliveredLength(1, payloads);
    DeliveredLength(2, payloads[1..]);
    OnesClosedForm(2, n - 1);
    FirstWrap(n);
    assert Flatten(payloads) == payloads[0] + Flatten(payloads[1..]);
    assert Flatten(payloads)[2..] == payloads[0][2..] + Flatten(payloads[1..]);
  }

  lemma FirstWrap(n: nat)
    requires n >= 1
    ensures (n - 1) / 0x1_0000_0000 == 0 <==> n <= 0x1_0000_0000
    ensures (n + 0xFFFF_FFFF) / 0x1_0000_0000 == 1 <==> n <= 0x1_0000_0000
  {
  }
}
