/** The auth_aes128 stream codec, for either of its two digests. */
module AuthAes128 {
  import opened Octets
  import opened Buffers
  import opened Protocol
  import opened StreamDecoder
  import opened StreamConn
  import opened PaddedFrames

  type Digest = d: Bytes | |d| >= 16 witness seq(16, _ => 0)

  /** The padding drawn for `data` bytes out of a write of `write` bytes is below this. */
  function PadLimit(overhead: nat, data: nat, write: nat): nat {
    var spare := 1460 - data - 9;
    if write >= 32 * 1024 - overhead || spare == 0 then 1
    else if spare > 0 then spare
    else if spare > -1460 then spare + 1460
    else 32
  }

  function MacKey(userKey: Bytes, id: UInt32): Bytes {
    userKey + Le32(id)
  }

  function Prefix2(d: Digest): Check2 {
    d[..2]
  }

  function Prefix4(d: Digest): Check4 {
    d[..4]
  }

  function Aes128Format(hmac: (Bytes, Bytes) -> Digest, userKey: Bytes, overhead: nat): Format {
    Format(
      LittleEndian,
      true,
      (id: UInt32, b: Bytes) => Prefix2(hmac(MacKey(userKey, id), b)),
      (id: UInt32, b: Bytes) => Prefix4(hmac(MacKey(userKey, id), b)),
      (data: nat, write: nat) => PadLimit(overhead, data, write))
  }

  /**
   The format in terms of its digest: both checks are the front of the digest keyed by the user
   key and the counter in four bytes; and the bound of the padding by its three ranges.
   */
  lemma Aes128Checks(
    hmac: (Bytes, Bytes) -> Digest, userKey: Bytes, overhead: nat, id: UInt32, b: Bytes, data: nat, write: nat)
    ensures var fmt := Aes128Format(hmac, userKey, overhead);
            var mac := hmac(userKey + [id % 0x100, id / 0x100 % 0x100, id / 0x1_0000 % 0x100, id / 0x100_0000], b);
            && fmt.order == LittleEndian && fmt.counted
            && fmt.headCheck(id, b) == mac[..2] && fmt.tailCheck(id, b) == mac[..4]
            && (write >= 32768 - overhead || data == 1451 ==> fmt.padLimit(data, write) == 1)
            && (write < 32768 - overhead ==>
                && (data < 1451 ==> fmt.padLimit(data, write) + data == 1451)
                && (1451 < data < 2911 ==> fmt.padLimit(data, write) + data == 2911)
                && (2911 <= data ==> fmt.padLimit(data, write) == 32))
  {
    MacKeyIs(userKey, id);
  }

  lemma MacKeyIs(userKey: Bytes, id: UInt32)
    ensures MacKey(userKey, id)
         == userKey + [id % 0x100, id / 0x100 % 0x100, id / 0x1_0000 % 0x100, id / 0x100_0000]
  {
  }

  /** Every frame that can be built, whatever its padding, has a length the receiver accepts. */
  lemma Aes128Bounded(hmac: (Bytes, Bytes) -> Digest, userKey: Bytes, overhead: nat)
    ensures Bounded(Aes128Format(hmac, userKey, overhead))
  {
    var fmt := Aes128Format(hmac, userKey, overhead);
    forall data: nat, write: nat ensures BoundedAt(fmt, data, write) {
      assert fmt.padLimit(data, write) == PadLimit(overhead, data, write);
    }
  }

  /** What a header draws at random, its encrypted block included. */
  datatype HeaderDraws = HeaderDraws(check: Bytes, block: Bytes, noise: Bytes)

  predicate Drawn(h: HeaderDraws, data: nat) {
    |h.check| == 1 && |h.block| == 16 && |h.noise| < if data > 400 then 512 else 1024
  }

  class Codec {
    const hmac: (Bytes, Bytes) -> Digest
    const key: Bytes
    const userKey: Bytes
    const userID: Bytes
    const iv: Bytes
    const overhead: nat
    var hasSentHeader: bool
    var rawTrans: bool
    var packID: UInt32
    var recvID: UInt32

    constructor (hmac: (Bytes, Bytes) -> Digest, key: Bytes, userKey: Bytes, userID: Bytes, iv: Bytes, overhead: nat)
      ensures !hasSentHeader && !rawTrans && packID == recvID == 1
      ensures this.hmac == hmac && this.key == key && this.userKey == userKey
      ensures this.userID == userID && this.iv == iv && this.overhead == overhead
    {
      this.hmac, this.key, this.userKey := hmac, key, userKey;
      this.userID, this.iv, this.overhead := userID, iv, overhead;
      hasSentHeader, rawTrans, packID, recvID := false, false, 1, 1;
    }

    function Shape(): Format {
      Aes128Format(hmac, userKey, overhead)
    }

    /** One turn of the receiver's loop: checks and takes a frame. */
    method DecodeFrame(dst: Buffer, src: Buffer) returns (turn: Turn<Error>)
      requires dst != src && |src.data| > 4
      modifies this`rawTrans, this`recvID, dst, src
      ensures match Receive(Shape(), old(recvID), old(src.data))
              case More(id) =>
                && turn == Incomplete && recvID == id && rawTrans == old(rawTrans)
                && dst.data == old(dst.data) && src.data == old(src.data)
              case Frame(id, payload, used) =>
                && turn == Taken && recvID == id && rawTrans == old(rawTrans)
                && dst.data == old(dst.data) + payload
                && used <= |old(src.data)| && src.data == old(src.data)[used..]
              case Stop(id, e) =>
                && turn == Failed(e) && recvID == id && dst.data == old(dst.data)
                && (e != Panic ==> src.data == [])
                && rawTrans == (old(rawTrans) || e == LengthError || e == TailError)
    {
      var macKey := MacKey(userKey, recvID);
      assert Shape().headCheck(recvID, src.data[..2]) == Prefix2(hmac(macKey, src.data[..2]));
      if hmac(macKey, src.data[..2])[..2] != src.data[2..4] {
        src.Reset();
        return Failed(HeadError);
      }
      var length := FromLe16(src.data[..2]);
      if length >= 8192 || length < 7 {
        rawTrans := true;
        src.Reset();
        return Failed(LengthError);
      }
      if length > |src.data| {
        return Incomplete;
      }
      assert Shape().tailCheck(recvID, src.data[..length - 4]) == Prefix4(hmac(macKey, src.data[..length - 4]));
      if hmac(macKey, src.data[..length - 4])[..4] != src.data[length - 4..length] {
        rawTrans := true;
        src.Reset();
        return Failed(TailError);
      }
      recvID := (recvID + 1) % 0x1_0000_0000;
      var pos: int := src.data[4];
      if pos < 255 {
        pos := pos + 4;
      } else {
        pos := FromLe16(src.data[5..7]) + 4;
      }
      if pos > length - 4 {
        return Failed(Panic);
      }
      dst.Write(src.data[pos..length - 4]);
      ghost var buf := src.data;
      var used := src.Next(length);
      assert src.data == buf[length..];
      turn := Taken;
    }

    /** Takes every complete frame off `src`: the drained stream of the frame format. */
    method Decode(dst: Buffer, src: Buffer) returns (error: Option<Error>)
      requires dst != src
      modifies this`rawTrans, this`recvID, dst, src
      ensures var d := DecodeChunk(Shape(), Decoder(old(recvID), old(rawTrans)), old(src.data));
              && error == d.error && dst.data == old(dst.data) + d.output && Decoder(recvID, rawTrans) == d.decoder
              && (error != Some(Panic) ==> src.data == d.rest)
      ensures rawTrans == (old(rawTrans) || error == Some(LengthError) || error == Some(TailError))
      ensures error.Some? && error != Some(Panic) ==> src.data == []
    {
      hide Incremental, Drain, Receive, Aes128Format;
      ReceiverIncremental(Shape());
      if rawTrans {
        dst.ReadFrom(src);
        return None;
      }
      ghost var step := Receiver(Shape());
      ghost var whole := Drain(step, recvID, src.data);
      ghost var taken: Bytes := [];
      PrependTwice([], [], whole);
      while |src.data| > 4
        invariant !rawTrans && dst.data == old(dst.data) + taken
        invariant Prepend(taken, Drain(step, recvID, src.data)) == whole
        decreases |src.data|
      {
        ghost var id, buf := recvID, src.data;
        DrainUnfold(step, id, buf);
        var turn := DecodeFrame(dst, src);
        match turn {
          case Taken =>
            PrependTwice(taken, Receive(Shape(), id, buf).payload, Drain(step, recvID, src.data));
            taken := taken + Receive(Shape(), id, buf).payload;
          case Incomplete =>
            return None;
          case Failed(e) =>
            return Some(e);
        }
      }
      DrainUnfold(step, recvID, src.data);
      ShortBuffer(Shape(), recvID, src.data);
      error := None;
    }

    method RandDataLength(dataLength: nat, fullDataLength: nat) returns (n: nat)
      ensures n < PadLimit(overhead, dataLength, fullDataLength)
      ensures fullDataLength >= 32768 - overhead || dataLength == 1451 ==> n == 0
      ensures dataLength < 1451 ==> n < 1451 - dataLength
      ensures 1451 < dataLength < 2911 ==> n < 2911 - dataLength
      ensures 2911 <= dataLength ==> n < 32
    {
      if fullDataLength >= 32 * 1024 - overhead {
        return 0;
      }
      var revLength := 1460 - dataLength - 9;
      if revLength == 0 {
        return 0;
      }
      if revLength < 0 {
        if revLength > -1460 {
          n := TrapezoidRandom(revLength + 1460);
        } else {
          n := Intn(32);
        }
        return;
      }
      if dataLength > 900 {
        n := Intn(revLength);
      } else {
        n := TrapezoidRandom(revLength);
      }
    }

    /** Scaling a fraction of at least 0 and less than 1: any number below `max`. */
    static method TrapezoidRandom(max: nat) returns (n: nat)
      requires max > 0
      ensures n < max
    {
      n := Intn(max);
    }

    method PackRandData(buf: Buffer, size: nat) returns (ghost filler: Bytes)
      modifies buf
      ensures |filler| == size
      ensures buf.data == old(buf.data) + (PadHead(LittleEndian, size) + filler)
    {
      if size < 128 {
        buf.Write([size + 1]);
      } else {
        buf.Write([255]);
        buf.Write(Le16((size + 3) % 0x1_0000));
      }
      var noise := RandBytes(size);
      buf.Write(noise);
      filler := noise;
    }

    /** The length and its check. */
    method PackHead(buf: Buffer, packed: nat, macKey: Bytes)
      modifies buf
      ensures var head := Le16(packed % 0x1_0000);
              buf.data == old(buf.data) + (head + hmac(macKey, head)[..2])
    {
      ghost var was := buf.data;
      var head := Le16(packed % 0x1_0000);
      buf.Write(head);
      BodyAtEnd(was, head);
      buf.Write(hmac(macKey, buf.data[|buf.data| - 2..])[..2]);
    }

    /** Everything of a frame but its last check. */
    method PackBody(buf: Buffer, packed: nat, macKey: Bytes, pad: nat, data: Bytes)
      returns (ghost filler: Bytes, ghost body: Bytes)
      modifies buf
      ensures |filler| == pad
      ensures var head := Le16(packed % 0x1_0000);
              body == head + hmac(macKey, head)[..2] + (PadHead(LittleEndian, pad) + filler) + data
      ensures |body| == FrameLength(pad, |data|) - 4
      ensures buf.data == old(buf.data) + body
    {
      ghost var was, head := buf.data, Le16(packed % 0x1_0000);
      PackHead(buf, packed, macKey);
      filler := PackRandData(buf, pad);
      buf.Write(data);
      body := head + hmac(macKey, head)[..2] + (PadHead(LittleEndian, pad) + filler) + data;
      Regroup(was, head + hmac(macKey, head)[..2], PadHead(LittleEndian, pad) + filler, data);
    }

    method PackData(buf: Buffer, data: Bytes, fullDataLength: nat) returns (ghost filler: Bytes)
      modifies this`packID, buf
      ensures |filler| < Shape().padLimit(|data|, fullDataLength)
      ensures buf.data == old(buf.data) + Pack(Shape(), old(packID), data, filler)
      ensures packID == Next(Shape(), old(packID))
    {
      hide Pack, PadHead, Le16, PadLimit;
      ghost var was := buf.data;
      var randDataLength := RandDataLength(|data|, fullDataLength);
      var packed := 2 + 2 + 3 + randDataLength + |data| + 4;
      if randDataLength < 128 {
        packed := packed - 2;
      }
      var macKey := MacKey(userKey, packID);
      packID := (packID + 1) % 0x1_0000_0000;
      ghost var body;
      filler, body := PackBody(buf, packed, macKey, randDataLength, data);
      BodyAtEnd(was, body);
      var tail := hmac(macKey, buf.data[|buf.data| - packed + 4..])[..4];
      Packed(old(packID), data, filler);
      assert (was + body) + tail == was + (body + tail);
      buf.Write(tail);
    }

    lemma Packed(id: UInt32, data: Bytes, filler: Bytes)
      ensures var macKey := MacKey(userKey, id);
              var head := Le16(FrameLength(|filler|, |data|) % 0x1_0000);
              var body := head + hmac(macKey, head)[..2] + (PadHead(LittleEndian, |filler|) + filler) + data;
              Pack(Shape(), id, data, filler) == body + hmac(macKey, body)[..4]
    {
    }

    /** What the buffer becomes when the header that carries `data` is appended to `was`. */
    function WithHeader(was: Bytes, h: HeaderDraws, data: Bytes): Bytes
      requires |h.check| == 1
    {
      var checkHead := was + h.check;
      var identified := checkHead + hmac(iv + key, checkHead)[..6] + userID + h.block;
      var whole := identified + hmac(iv + key, identified[7..])[..4] + h.noise + data;
      whole + hmac(userKey, whole)[..4]
    }

    /** The header adds 35 bytes, its noise and its data to the buffer; the data comes last but four. */
    lemma HeaderCarries(was: Bytes, h: HeaderDraws, data: Bytes)
      requires |userID| == 4 && |h.check| == 1 && |h.block| == 16
      ensures var b := WithHeader(was, h, data);
              && |b| == |was| + 35 + |h.noise| + |data|
              && was <= b && b[|b| - 4 - |data|..|b| - 4] == data
    {
    }

    /** Each field of the header, and what each of its digests covers. */
    lemma HeaderOnWire(was: Bytes, h: HeaderDraws, data: Bytes)
      requires |userID| == 4 && |h.check| == 1 && |h.block| == 16
      ensures var b, w := WithHeader(was, h, data), |was|;
              && |b| == w + 35 + |h.noise| + |data|
              && b[..w + 1] == was + h.check
              && b[w + 1..w + 7] == hmac(iv + key, b[..w + 1])[..6]
              && b[w + 7..w + 11] == userID && b[w + 11..w + 27] == h.block
              && b[w + 27..w + 31] == hmac(iv + key, b[7..w + 27])[..4]
              && b[w + 31..w + 31 + |h.noise|] == h.noise
              && b[|b| - 4..] == hmac(userKey, b[..|b| - 4])[..4]
    {
      var start := was + h.check;
      var identified := start + hmac(iv + key, start)[..6] + userID + h.block;
      var whole := identified + hmac(iv + key, identified[7..])[..4] + h.noise + data;
      var b := WithHeader(was, h, data);
      assert b[..|was| + 1] == start;
      assert b[..|was| + 27] == identified;
      assert b[7..|was| + 27] == identified[7..];
      assert b[..|b| - 4] == whole;
    }

    /**
     The header, which carries the first bytes of the stream for a server to read; nothing
     at all when there are none.
     */
    method PackAuthData(buf: Buffer, data: Bytes) returns (ghost h: HeaderDraws)
      requires |userID| == 4
      modifies buf
      ensures data == [] ==> buf.data == old(buf.data)
      ensures data != [] ==> Drawn(h, |data|) && buf.data == WithHeader(old(buf.data), h, data)
    {
      if |data| == 0 {
        return HeaderDraws([], [], []);
      }
      var macKey := iv + key;
      var pad := Intn(if |data| > 400 then 512 else 1024);
      var checkHead := RandBytes(1);
      buf.Write(checkHead);
      buf.Write(hmac(macKey, buf.data)[..6]);
      buf.Write(userID);
      var block := RandBytes(16);
      buf.Write(block);
      buf.Write(hmac(macKey, buf.data[7..])[..4]);
      var noise := RandBytes(pad);
      buf.Write(noise);
      buf.Write(data);
      buf.Write(hmac(userKey, buf.data)[..4]);
      h := HeaderDraws(checkHead, block, noise);
    }

    /** Appends the frames for `b`, on the first call behind the header with its first bytes. */
    method Encode(buf: Buffer, b: Bytes) returns (ghost head: nat, ghost h: HeaderDraws, ghost wire: Bytes)
      requires |userID| == 4
      modifies this`hasSentHeader, this`packID, buf
      ensures hasSentHeader && head <= |b|
      ensures !old(hasSentHeader) ==> Min(|b|, 4) <= head && (head > 0 <==> b != [])
      ensures old(hasSentHeader) || b == [] ==> head == 0 && buf.data == old(buf.data) + wire
      ensures head > 0 ==> Drawn(h, head) && buf.data == WithHeader(old(buf.data), h, b[..head]) + wire
      ensures Sends(Shape(), old(packID), Pieces(b[head..], |b|), wire, packID)
    {
      hide Sends, Pack, WithHeader;
      head, h := 0, HeaderDraws([], [], []);
      var rest := b;
      if !hasSentHeader {
        var dataLength := GetDataLength(b);
        h := PackAuthData(buf, b[..dataLength]);
        head := dataLength;
        rest := b[dataLength..];
        hasSentHeader := true;
      }
      wire := EncodeRest(buf, rest, |b|);
    }

    method EncodeRest(buf: Buffer, data: Bytes, full: nat) returns (ghost wire: Bytes)
      modifies this`packID, buf
      ensures buf.data == old(buf.data) + wire
      ensures Sends(Shape(), old(packID), Pieces(data, full), wire, packID)
    {
      hide Sends, Pack, Aes128Format, AllData;
      var b := data;
      ghost var fmt, id0 := Shape(), packID;
      ghost var sent: seq<Piece> := [];
      wire := [];
      SendsNothing(fmt, id0);
      while |b| > CHUNK
        invariant buf.data == old(buf.data) + wire
        invariant Sends(fmt, id0, sent, wire, packID)
        invariant sent + Pieces(b, full) == Pieces(data, full)
        decreases |b|
      {
        ghost var id, piece := packID, Piece(b[..CHUNK], full);
        ghost var filler := PackData(buf, b[..CHUNK], full);
        SendsMore(fmt, id0, sent, wire, id, piece, filler);
        PiecesUnfold(b, full, sent);
        wire := wire + Pack(fmt, id, piece.data, filler);
        sent := sent + [piece];
        b := b[CHUNK..];
      }
      if |b| > 0 {
        ghost var id := packID;
        ghost var filler := PackData(buf, b, full);
        SendsMore(fmt, id0, sent, wire, id, Piece(b, full), filler);
        wire := wire + Pack(fmt, id, b, filler);
      } else {
        assert sent + [] == sent;
      }
    }
  }
}
