/**
 The frame format that auth_aes128 and auth_sha1_v4 share: a 16-bit length with a two-byte
 check, a padding whose own length is given in one byte or three, the data, and a four-byte
 check over everything before it. They differ in byte order, in the checks, in how much
 padding they draw, and in whether a frame counter enters the checks.
 */
module PaddedFrames {
  import opened Octets
  import opened StreamDecoder
  import opened StreamConn

  const FRAME_LIMIT := 8192
  const MIN_FRAME := 7
  const CHUNK := 8100

  type Check2 = b: Bytes | |b| == 2 witness [0, 0]
  type Check4 = b: Bytes | |b| == 4 witness [0, 0, 0, 0]

  datatype Order = LittleEndian | BigEndian

  /** `padLimit(data, write)` bounds the padding drawn for a frame of a write of that many bytes. */
  datatype Format = Format(
    order: Order,
    counted: bool,
    headCheck: (UInt32, Bytes) -> Check2,
    tailCheck: (UInt32, Bytes) -> Check4,
    padLimit: (nat, nat) -> nat)

  datatype Error = HeadError | LengthError | TailError | Panic

  function Put16(order: Order, n: UInt16): (b: Bytes)
    ensures |b| == 2
  {
    if order.BigEndian? then Be16(n) else Le16(n)
  }

  function Get16(order: Order, b: Bytes): UInt16
    requires |b| == 2
  {
    if order.BigEndian? then FromBe16(b) else FromLe16(b)
  }

  lemma PutGet(order: Order, n: UInt16)
    ensures Get16(order, Put16(order, n)) == n
  {
  }

  function Next(fmt: Format, id: UInt32): UInt32 {
    if fmt.counted then (id + 1) % 0x1_0000_0000 else id
  }

  /** Where the data starts, read from the padding's own length field. */
  function DataOffset(order: Order, frame: Bytes): nat
    requires |frame| >= MIN_FRAME
  {
    if frame[4] < 255 then frame[4] + 4 else Get16(order, frame[5..7]) + 4
  }

  /** One turn of the receiver's loop. */
  function Receive(fmt: Format, id: UInt32, buf: Bytes): Step<UInt32, Error> {
    if |buf| <= 4 then More(id)
    else if fmt.headCheck(id, buf[..2]) != buf[2..4] then Stop(id, HeadError)
    else
      var length := Get16(fmt.order, buf[..2]);
      if length >= FRAME_LIMIT || length < MIN_FRAME then Stop(id, LengthError)
      else if length > |buf| then More(id)
      else if fmt.tailCheck(id, buf[..length - 4]) != buf[length - 4..length] then Stop(id, TailError)
      else
        var pos := DataOffset(fmt.order, buf);
        if pos > length - 4 then Stop(Next(fmt, id), Panic)
        else Frame(Next(fmt, id), buf[pos..length - 4], length)
  }

  function Receiver(fmt: Format): (UInt32, Bytes) -> Step<UInt32, Error> {
    (id: UInt32, buf: Bytes) => Receive(fmt, id, buf)
  }

  lemma ShortBuffer(fmt: Format, id: UInt32, buf: Bytes)
    requires |buf| <= 4
    ensures Receive(fmt, id, buf) == More(id)
  {
  }

  lemma ReceiverIncremental(fmt: Format)
    ensures Incremental(Receiver(fmt))
  {
    forall id: UInt32, buf: Bytes, more: Bytes ensures Stable(Receiver(fmt), id, buf, more) {
      DecidedByPrefix(fmt, id, buf, more);
    }
  }

  lemma DecidedByPrefix(fmt: Format, id: UInt32, buf: Bytes, more: Bytes)
    ensures Stable(Receiver(fmt), id, buf, more)
  {
    var step := Receive(fmt, id, buf);
    if !step.More? {
      assert (buf + more)[..2] == buf[..2] && (buf + more)[2..4] == buf[2..4];
      var length := Get16(fmt.order, buf[..2]);
      if step.Frame? || step.error == TailError || step.error == Panic {
        assert (buf + more)[..length - 4] == buf[..length - 4];
        assert (buf + more)[length - 4..length] == buf[length - 4..length];
        assert (buf + more)[5..7] == buf[5..7];
        var pos := DataOffset(fmt.order, buf);
        if pos <= length - 4 {
          assert (buf + more)[pos..length - 4] == buf[pos..length - 4];
        }
      }
    }
  }

  /** The errors after which a codec passes bytes through. */
  predicate GoesRaw(e: Error) {
    e.LengthError? || e.TailError?
  }

  /** What one call of a codec's `Decode` makes of the bytes that have arrived. */
  ghost function DecodeChunk(fmt: Format, d: Decoder<UInt32>, under: Bytes): Decoded<UInt32, Error> {
    ReceiverIncremental(fmt);
    DecodeBy(Receiver(fmt), GoesRaw, d, under)
  }

  ghost function Decoding(fmt: Format): (Decoder<UInt32>, Bytes) -> Decoded<UInt32, Error> {
    (d: Decoder<UInt32>, under: Bytes) => DecodeChunk(fmt, d, under)
  }

  lemma DecodingImplements(fmt: Format)
    ensures Incremental(Receiver(fmt)) && Implements(Decoding(fmt), Receiver(fmt), GoesRaw)
  {
    hide Incremental, Receive;
    ReceiverIncremental(fmt);
  }

  // Sending

  /** The padding's length field: one byte, or a marker and two bytes. */
  function PadHead(order: Order, pad: nat): Bytes {
    if pad < 128 then [pad + 1] else [255] + Put16(order, (pad + 3) % 0x1_0000)
  }

  lemma PadHeadLength(order: Order, pad: nat)
    ensures |PadHead(order, pad)| == if pad < 128 then 1 else 3
  {
  }

  function FrameLength(pad: nat, data: nat): nat {
    (if pad < 128 then 9 else 11) + pad + data
  }

  /** The frame that carries `data` behind the padding `filler`. */
  function Pack(fmt: Format, id: UInt32, data: Bytes, filler: Bytes): Bytes {
    var head := Put16(fmt.order, FrameLength(|filler|, |data|) % 0x1_0000);
    var body := head + fmt.headCheck(id, head) + (PadHead(fmt.order, |filler|) + filler) + data;
    body + fmt.tailCheck(id, body)
  }

  /** A frame's worth of data and the size of the write that it belongs to. */
  datatype Piece = Piece(data: Bytes, write: nat)

  ghost predicate Sendable(p: Piece) {
    1 <= |p.data| <= CHUNK
  }

  /** Whatever padding is drawn, a frame can be received. */
  ghost predicate Bounded(fmt: Format) {
    forall data: nat, write: nat :: BoundedAt(fmt, data, write)
  }

  ghost predicate BoundedAt(fmt: Format, data: nat, write: nat) {
    1 <= data <= CHUNK ==> 1 <= fmt.padLimit(data, write) <= FRAME_LIMIT - 11 - data
  }

  /** `wire` is a possible transmission of `pieces`, for some padding lengths and bytes. */
  ghost predicate Sends(fmt: Format, id: UInt32, pieces: seq<Piece>, wire: Bytes, id': UInt32)
    decreases |pieces|
  {
    if pieces == [] then wire == [] && id' == id else
    exists filler: Bytes | |filler| < fmt.padLimit(|pieces[0].data|, pieces[0].write) ::
      var frame := Pack(fmt, id, pieces[0].data, filler);
      frame <= wire && Sends(fmt, Next(fmt, id), pieces[1..], wire[|frame|..], id')
  }

  function AllData(pieces: seq<Piece>): Bytes {
    if pieces == [] then [] else pieces[0].data + AllData(pieces[1..])
  }

  lemma FrameSlices(head: Bytes, check: Bytes, padding: Bytes, data: Bytes, tail: Bytes)
    requires |head| == |check| == 2 && |tail| == 4
    ensures var body := head + check + padding + data;
            var frame := body + tail;
            var n := |frame|;
            && n == 8 + |padding| + |data|
            && frame[..2] == head && frame[2..4] == check
            && frame[..n - 4] == body && frame[n - 4..n] == tail
            && frame[4 + |padding|..n - 4] == data
            && frame == (head + check) + padding + (data + tail)
  {
  }

  lemma {:induction false} AllDataConcat(a: seq<Piece>, b: seq<Piece>)
    ensures AllData(a + b) == AllData(a) + AllData(b)
  {
    if a == [] {
      assert a + b == b;
    } else {
      assert (a + b)[1..] == a[1..] + b;
      AllDataConcat(a[1..], b);
    }
  }

  /** A received frame gives back its data, with either form of the padding's length field. */
  lemma FrameRoundTrip(fmt: Format, id: UInt32, data: Bytes, filler: Bytes)
    requires 1 <= |data| && FrameLength(|filler|, |data|) < FRAME_LIMIT
    ensures var frame := Pack(fmt, id, data, filler);
            && 10 <= |frame| < FRAME_LIMIT
            && Receive(fmt, id, frame) == Frame(Next(fmt, id), data, |frame|)
  {
    hide DataOffset, Put16, Get16;
    var n := FrameLength(|filler|, |data|);
    var head := Put16(fmt.order, n);
    var check := fmt.headCheck(id, head);
    var padding := PadHead(fmt.order, |filler|) + filler;
    var tail := fmt.tailCheck(id, head + check + padding + data);
    PutGet(fmt.order, n);
    FrameSlices(head, check, padding, data, tail);
    PaddingLength(fmt.order, Pack(fmt, id, data, filler), head + check, filler, data + tail);
  }

  lemma PaddingLength(order: Order, frame: Bytes, front: Bytes, filler: Bytes, back: Bytes)
    requires |front| == 4 && |back| >= 2 && |filler| < FRAME_LIMIT
    requires frame == front + (PadHead(order, |filler|) + filler) + back
    ensures |frame| >= MIN_FRAME && DataOffset(order, frame) == 4 + |PadHead(order, |filler|)| + |filler|
  {
    if |filler| >= 128 {
      PutGet(order, |filler| + 3);
      assert frame[5..7] == Put16(order, |filler| + 3);
    }
  }

  lemma NoFrames(fmt: Format, id: UInt32, wire: Bytes, id': UInt32)
    requires Sends(fmt, id, [], wire, id')
    ensures wire == [] && id' == id
  {
  }

  lemma FirstFrame(fmt: Format, id: UInt32, pieces: seq<Piece>, wire: Bytes, id': UInt32)
    returns (filler: Bytes, frame: Bytes)
    requires pieces != [] && Sends(fmt, id, pieces, wire, id')
    ensures |filler| < fmt.padLimit(|pieces[0].data|, pieces[0].write)
    ensures frame == Pack(fmt, id, pieces[0].data, filler) && frame <= wire
    ensures Sends(fmt, Next(fmt, id), pieces[1..], wire[|frame|..], id')
  {
    hide Pack;
    filler :| |filler| < fmt.padLimit(|pieces[0].data|, pieces[0].write)
      && var frame := Pack(fmt, id, pieces[0].data, filler);
         frame <= wire && Sends(fmt, Next(fmt, id), pieces[1..], wire[|frame|..], id');
    frame := Pack(fmt, id, pieces[0].data, filler);
  }

  lemma SendsCons(fmt: Format, id: UInt32, piece: Piece, filler: Bytes, pieces: seq<Piece>, wire: Bytes, id': UInt32)
    requires |filler| < fmt.padLimit(|piece.data|, piece.write)
    requires Sends(fmt, Next(fmt, id), pieces, wire, id')
    ensures Sends(fmt, id, [piece] + pieces, Pack(fmt, id, piece.data, filler) + wire, id')
  {
    hide Pack;
    var frame := Pack(fmt, id, piece.data, filler);
    assert ([piece] + pieces)[1..] == pieces;
    assert (frame + wire)[|frame|..] == wire;
  }

  /** One transmission after another is a transmission of all the pieces. */
  lemma {:induction false} SendsConcat(
    fmt: Format, a: UInt32, pieces: seq<Piece>, wire: Bytes, b: UInt32,
    pieces': seq<Piece>, wire': Bytes, c: UInt32)
    requires Sends(fmt, a, pieces, wire, b) && Sends(fmt, b, pieces', wire', c)
    ensures Sends(fmt, a, pieces + pieces', wire + wire', c)
    decreases |pieces|
  {
    hide Pack, Sends;
    if pieces == [] {
      NoFrames(fmt, a, wire, b);
      assert pieces + pieces' == pieces' && wire + wire' == wire';
    } else {
      var filler, frame := FirstFrame(fmt, a, pieces, wire, b);
      SendsConcat(fmt, Next(fmt, a), pieces[1..], wire[|frame|..], b, pieces', wire', c);
      SendsCons(fmt, a, pieces[0], filler, pieces[1..] + pieces', wire[|frame|..] + wire', c);
      assert pieces + pieces' == [pieces[0]] + (pieces[1..] + pieces');
      assert wire + wire' == frame + (wire[|frame|..] + wire');
    }
  }

  /** What an encoder cuts its input into, each piece marked with the size of the whole write. */
  function Pieces(b: Bytes, write: nat): (r: seq<Piece>)
    ensures AllData(r) == b
    ensures forall p | p in r :: Sendable(p) && p.write == write
    ensures forall i | 0 <= i < |r| - 1 :: |r[i].data| == 8100
    decreases |b|
  {
    if |b| > CHUNK then [Piece(b[..CHUNK], write)] + Pieces(b[CHUNK..], write)
    else if b != [] then [Piece(b, write)]
    else []
  }

  lemma PiecesUnfold(b: Bytes, write: nat, before: seq<Piece>)
    requires |b| > CHUNK
    ensures before + Pieces(b, write) == (before + [Piece(b[..CHUNK], write)]) + Pieces(b[CHUNK..], write)
  {
  }

  lemma SendsNothing(fmt: Format, id: UInt32)
    ensures Sends(fmt, id, [], [], id)
  {
  }

  lemma SendsMore(fmt: Format, a: UInt32, pieces: seq<Piece>, wire: Bytes, b: UInt32, piece: Piece, filler: Bytes)
    requires Sends(fmt, a, pieces, wire, b)
    requires |filler| < fmt.padLimit(|piece.data|, piece.write)
    ensures Sends(fmt, a, pieces + [piece], wire + Pack(fmt, b, piece.data, filler), Next(fmt, b))
  {
    hide Pack, Sends;
    var frame := Pack(fmt, b, piece.data, filler);
    SendsNothing(fmt, Next(fmt, b));
    SendsCons(fmt, b, piece, filler, [], [], Next(fmt, b));
    assert [piece] + [] == [piece] && frame + [] == frame;
    SendsConcat(fmt, a, pieces, wire, b, [piece], frame, Next(fmt, b));
  }

  lemma DrainEmpty(fmt: Format, id: UInt32)
    requires Incremental(Receiver(fmt))
    ensures Receiver(fmt)(id, []) == More(id)
    ensures Drain(Receiver(fmt), id, []) == Outcome(id, [], [], None)
  {
  }

  /**
   Round trip: whatever padding was drawn, a receiver with the sender's counter outputs the
   data, never an error, consumes the wire exactly, and ends with the sender's counter.
   */
  lemma {:induction false} StreamRoundTrip(fmt: Format, id: UInt32, pieces: seq<Piece>, wire: Bytes, id': UInt32)
    requires Bounded(fmt) && (forall p | p in pieces :: Sendable(p))
    requires Sends(fmt, id, pieces, wire, id')
    ensures Incremental(Receiver(fmt))
    ensures Drain(Receiver(fmt), id, wire) == Outcome(id', AllData(pieces), [], None)
    ensures id' == if fmt.counted then (id + |pieces|) % 0x1_0000_0000 else id
    decreases |pieces|
  {
    hide Sends, Pack, Receive, Incremental, Drain;
    ReceiverIncremental(fmt);
    if pieces == [] {
      NoFrames(fmt, id, wire, id');
      DrainEmpty(fmt, id);
    } else {
      var filler, frame := FirstFrame(fmt, id, pieces, wire, id');
      assert Sendable(pieces[0]) && BoundedAt(fmt, |pieces[0].data|, pieces[0].write);
      FrameRoundTrip(fmt, id, pieces[0].data, filler);
      StreamRoundTrip(fmt, Next(fmt, id), pieces[1..], wire[|frame|..], id');
      DrainFrame(Receiver(fmt), id, frame, wire[|frame|..]);
      assert frame + wire[|frame|..] == wire;
    }
  }

  /** The same for any segmentation of the wire, and no early error on any part of it. */
  lemma SegmentedRoundTrip(
    fmt: Format, id: UInt32, pieces: seq<Piece>, wire: Bytes, id': UInt32, chunks: seq<Bytes>)
    requires Bounded(fmt) && (forall p | p in pieces :: Sendable(p))
    requires Sends(fmt, id, pieces, wire, id') && Flatten(chunks) <= wire
    ensures Incremental(Receiver(fmt))
    ensures var o := Feed(Receiver(fmt), id, [], chunks);
            && o.error == None && o.output <= AllData(pieces)
            && (Flatten(chunks) == wire ==> o == Outcome(id', AllData(pieces), [], None))
  {
    hide Sends, Pack, Receive, Incremental, Drain, Feed;
    StreamRoundTrip(fmt, id, pieces, wire, id');
    DrainEmpty(fmt, id);
    PrefixSafe(Receiver(fmt), id, chunks, wire);
    SegmentationIrrelevant(Receiver(fmt), id, [], chunks);
    assert [] + Flatten(chunks) == Flatten(chunks);
  }

  // Frames byte by byte

  /** Two bytes as a number in the format's order. */
  function Number(order: Order, a: Byte, b: Byte): nat {
    if order == BigEndian then 0x100 * a + b as int else a as int + 0x100 * b
  }

  lemma Get16Is(order: Order, b: Bytes)
    requires |b| == 2
    ensures Get16(order, b) == Number(order, b[0], b[1])
  {
  }

  /**
   A sent frame on the wire: its length and that length's check, the padding behind one byte
   or three that give its size, the data, and a check over all of it.
   */
  lemma FrameOnWire(fmt: Format, id: UInt32, data: Bytes, filler: Bytes)
    requires FrameLength(|filler|, |data|) < 0x1_0000
    ensures var frame, pad := Pack(fmt, id, data, filler), |filler|;
            var n := |frame|;
            var start := if pad < 128 then 5 else 7;
            && n == start + pad + |data| + 4
            && Number(fmt.order, frame[0], frame[1]) == n && frame[2..4] == fmt.headCheck(id, frame[..2])
            && (pad < 128 ==> frame[4] == pad + 1)
            && (pad >= 128 ==> frame[4] == 255 && Number(fmt.order, frame[5], frame[6]) == pad + 3)
            && frame[start..start + pad] == filler && frame[start + pad..n - 4] == data
            && frame[n - 4..] == fmt.tailCheck(id, frame[..n - 4])
  {
    hide Put16, Get16, Number;
    var pad, n := |filler|, FrameLength(|filler|, |data|);
    var frame := Pack(fmt, id, data, filler);
    var head := Put16(fmt.order, n);
    var check := fmt.headCheck(id, head);
    var tail := fmt.tailCheck(id, head + check + (PadHead(fmt.order, pad) + filler) + data);
    PutGet(fmt.order, n);
    Get16Is(fmt.order, head);
    FrameSlices(head, check, PadHead(fmt.order, pad) + filler, data, tail);
    PadHeadLength(fmt.order, pad);
    Inside(frame, head + check, PadHead(fmt.order, pad), filler, data + tail);
    if pad >= 128 {
      PutGet(fmt.order, pad + 3);
      Get16Is(fmt.order, Put16(fmt.order, pad + 3));
    }
    assert frame[0] == head[0] && frame[1] == head[1];
    assert frame[n - 4..] == frame[n - 4..n];
  }

  lemma Inside(frame: Bytes, front: Bytes, padHead: Bytes, filler: Bytes, back: Bytes)
    requires |front| == 4 && frame == front + (padHead + filler) + back
    ensures forall i | 0 <= i < |padHead| :: frame[4 + i] == padHead[i]
    ensures frame[4 + |padHead|..4 + |padHead| + |filler|] == filler
  {
  }

  /**
   What a receiver makes of any buffer of more than four bytes, from its bytes: an error for a
   wrong check of the length, for a length below 7 or from 8192 on, patience, an error for a
   wrong check of the frame; otherwise the frame is authentic.
   */
  lemma ReceivedOnWire(fmt: Format, id: UInt32, buf: Bytes)
    requires |buf| > 4
    ensures var step, n := Receive(fmt, id, buf), Number(fmt.order, buf[0], buf[1]);
            var checked := fmt.headCheck(id, buf[..2]) == buf[2..4];
            var inRange := 7 <= n < 8192;
            && (step == Stop(id, HeadError) <==> !checked)
            && (step == Stop(id, LengthError) <==> checked && !inRange)
            && (step == More(id) <==> checked && inRange && n > |buf|)
            && (step == Stop(id, TailError) <==>
                checked && inRange && n <= |buf| && fmt.tailCheck(id, buf[..n - 4]) != buf[n - 4..n])
            && (Authentic(fmt, id, buf) <==>
                checked && inRange && n <= |buf| && fmt.tailCheck(id, buf[..n - 4]) == buf[n - 4..n])
            && (step.Frame? ==> Authentic(fmt, id, buf) && PayloadOnWire(fmt, id, buf, step, n))
  {
    hide Get16;
    Get16Is(fmt.order, buf[..2]);
    if Authentic(fmt, id, buf) {
      Get16Is(fmt.order, buf[5..7]);
    }
  }

  /** The data of a taken frame, from where its padding says on, and the counter behind it. */
  predicate PayloadOnWire(fmt: Format, id: UInt32, buf: Bytes, step: Step<UInt32, Error>, n: nat)
    requires |buf| >= 7 && step.Frame?
  {
    var start := 4 + if buf[4] < 255 then buf[4] as int else Number(fmt.order, buf[5], buf[6]);
    && start <= n - 4 && n <= |buf| && step.payload == buf[start..n - 4] && step.used == n
    && step.state == if fmt.counted then (id + 1) % 0x1_0000_0000 else id
  }

  // Authentic frames that cannot be read

  /** The buffer starts with a frame whose length is in range and whose checks both hold. */
  predicate Authentic(fmt: Format, id: UInt32, buf: Bytes) {
    && |buf| >= MIN_FRAME
    && fmt.headCheck(id, buf[..2]) == buf[2..4]
    && var n := Get16(fmt.order, buf[..2]);
       MIN_FRAME <= n < FRAME_LIMIT && n <= |buf| && fmt.tailCheck(id, buf[..n - 4]) == buf[n - 4..n]
  }

  /**
   An authentic frame makes its receiver slice out of range exactly if its padding, in either
   form of its length, claims to reach past the data; otherwise it is taken whole. A frame of
   7 bytes always does. In one of 8 bytes the padding's length is read out of the last check,
   and only if what is read there is zero is the frame taken.
   */
  lemma OversizedPaddingPanics(fmt: Format, id: UInt32, buf: Bytes)
    requires Authentic(fmt, id, buf)
    ensures var n, step := Get16(fmt.order, buf[..2]), Receive(fmt, id, buf);
            && (step == Stop(Next(fmt, id), Panic) <==> DataOffset(fmt.order, buf) > n - 4)
            && (step.Frame? <==> DataOffset(fmt.order, buf) <= n - 4)
            && (step.Frame? ==> step.used == n && |step.payload| == n - 4 - DataOffset(fmt.order, buf))
            && (n == 7 ==> step == Stop(Next(fmt, id), Panic))
            && (n == 8 ==>
                (step == Stop(Next(fmt, id), Panic)
                 <==> buf[4] != 0 && !(buf[4] == 255 && buf[5..7] == [0, 0])))
  {
    var n := Get16(fmt.order, buf[..2]);
    if n == 8 {
      ZeroOnly(fmt.order, buf[5..7]);
    }
  }

  /** The shortest length in range is not long enough for any frame. */
  lemma ShortestFramePanics(fmt: Format, id: UInt32, buf: Bytes, more: Bytes)
    requires Authentic(fmt, id, buf) && Get16(fmt.order, buf[..2]) == MIN_FRAME
    ensures Receive(fmt, id, buf + more) == Stop(Next(fmt, id), Panic)
  {
    OversizedPaddingPanics(fmt, id, buf);
    DecidedByPrefix(fmt, id, buf, more);
  }

  lemma ZeroOnly(order: Order, b: Bytes)
    requires |b| == 2
    ensures Get16(order, b) == 0 <==> b == [0, 0]
  {
  }

  /** Frames built around any content of at least 3 bytes: whose padding claims too much. */
  lemma OversizedContentPanics(fmt: Format, id: UInt32, content: Bytes)
    requires 3 <= |content| < FRAME_LIMIT - 8
    ensures var head := Put16(fmt.order, 8 + |content|);
            var body := head + fmt.headCheck(id, head) + content;
            var claimed := if content[0] < 255 then content[0] else Get16(fmt.order, content[1..3]);
            Receive(fmt, id, body + fmt.tailCheck(id, body)) ==
              if claimed > |content| then Stop(Next(fmt, id), Panic)
              else Frame(Next(fmt, id), content[claimed..], 8 + |content|)
  {
    hide Put16, Get16;
    var n := 8 + |content|;
    var head := Put16(fmt.order, n);
    var check := fmt.headCheck(id, head);
    var body := head + check + content;
    var frame := body + fmt.tailCheck(id, body);
    PutGet(fmt.order, n);
    assert frame[..2] == head && frame[2..4] == check;
    assert frame[..n - 4] == body && frame[n - 4..n] == fmt.tailCheck(id, body);
    assert frame[4] == content[0] && frame[5..7] == content[1..3];
    OversizedPaddingPanics(fmt, id, frame);
    var claimed := if content[0] < 255 then content[0] else Get16(fmt.order, content[1..3]);
    if claimed <= |content| {
      assert frame[claimed + 4..n - 4] == content[claimed..];
    }
  }
}
