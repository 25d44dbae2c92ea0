/** The auth_sha1_v4 stream codec. */
module AuthSha1V4 {
  import opened Octets
  import opened Buffers
  import opened Protocol
  import opened StreamDecoder
  import opened StreamConn
  import opened PaddedFrames

  type Digest = d: Bytes | |d| == 20 witness seq(20, _ => 0)

  /** The checksums and the digest that the codec is built on. */
  datatype Primitives = Primitives(
    crc32: Bytes -> UInt32,
    adler32: Bytes -> UInt32,
    hmacSha1: (Bytes, Bytes) -> Digest)

  /** The padding drawn for a frame that carries `data` bytes is below this. */
  function PadLimit(data: nat): nat {
    if data > 1200 then 1 else if data > 400 then 256 else 512
  }

  function HeadCheck(p: Primitives, b: Bytes): Check2 {
    Le16(p.crc32(b) % 0x1_0000)
  }

  function TailCheck(p: Primitives, b: Bytes): Check4 {
    Le32(p.adler32(b))
  }

  function Sha1V4Format(p: Primitives): Format {
    Format(
      BigEndian,
      false,
      (id: UInt32, b: Bytes) => HeadCheck(p, b),
      (id: UInt32, b: Bytes) => TailCheck(p, b),
      (data: nat, write: nat) => PadLimit(data))
  }

  /**
   The format in terms of its checksums: the lower half of the CRC and all of the Adler sum,
   least significant byte first, without a counter; and the bound of the padding.
   */
  lemma Sha1V4Checks(p: Primitives, id: UInt32, b: Bytes, data: nat, write: nat)
    ensures var fmt := Sha1V4Format(p);
            var crc, adler := p.crc32(b), p.adler32(b);
            && fmt.order == BigEndian && !fmt.counted
            && fmt.headCheck(id, b) == [crc % 0x100, crc / 0x100 % 0x100]
            && fmt.tailCheck(id, b)
               == [adler % 0x100, adler / 0x100 % 0x100, adler / 0x1_0000 % 0x100, adler / 0x100_0000]
            && fmt.padLimit(data, write) == if data > 1200 then 1 else if data > 400 then 256 else 512
  {
    LowerHalf(p.crc32(b));
  }

  lemma LowerHalf(n: UInt32)
    ensures n % 0x1_0000 % 0x100 == n % 0x100 && n % 0x1_0000 / 0x100 == n / 0x100 % 0x100
  {
    var q := n as int / 0x1_0000;
    assert n as int == q * 0x1_0000 + n as int % 0x1_0000;
    assert n as int / 0x100 == q * 0x100 + n as int % 0x1_0000 / 0x100;
  }

  /** Every frame that can be built, whatever its padding, has a length the receiver accepts. */
  lemma Sha1V4Bounded(p: Primitives)
    ensures Bounded(Sha1V4Format(p))
  {
    var fmt := Sha1V4Format(p);
    forall data: nat, write: nat ensures BoundedAt(fmt, data, write) {
      assert fmt.padLimit(data, write) == PadLimit(data);
    }
  }

  /** The name of the protocol. */
  const SALT: Bytes := [97, 117, 116, 104, 95, 115, 104, 97, 49, 95, 118, 52]

  /** What a header takes from chance and from the clock. */
  datatype HeaderDraws = HeaderDraws(noise: Bytes, time: Bytes)

  predicate Drawn(h: HeaderDraws, data: nat) {
    |h.noise| < PadLimit(12 + data) && |h.time| == 4
  }

  lemma Assembled(was: Bytes, a: Bytes, b: Bytes, c: Bytes, d: Bytes, e: Bytes, f: Bytes, g: Bytes)
    ensures was + a + b + c + d + e + f + g == was + (a + b + c + (d + e + f) + g)
  {
  }

  class Codec {
    const primitives: Primitives
    const key: Bytes
    const iv: Bytes
    const clientID: Bytes
    const connectionID: UInt32
    var hasSentHeader: bool
    var rawTrans: bool

    constructor (primitives: Primitives, key: Bytes, iv: Bytes, clientID: Bytes, connectionID: UInt32)
      ensures !hasSentHeader && !rawTrans
      ensures this.primitives == primitives && this.key == key && this.iv == iv
      ensures this.clientID == clientID && this.connectionID == connectionID
    {
      this.primitives, this.key, this.iv := primitives, key, iv;
      this.clientID, this.connectionID := clientID, connectionID;
      hasSentHeader, rawTrans := false, false;
    }

    function Shape(): Format {
      Sha1V4Format(primitives)
    }

    /** One turn of the receiver's loop: checks and takes a frame. */
    method DecodeFrame(dst: Buffer, src: Buffer) returns (turn: Turn<Error>)
      requires dst != src && |src.data| > 4
      modifies this`rawTrans, dst, src
      ensures match Receive(Shape(), 0, old(src.data))
              case More(id) =>
                && id == 0 && turn == Incomplete && rawTrans == old(rawTrans)
                && dst.data == old(dst.data) && src.data == old(src.data)
              case Frame(id, payload, used) =>
                && id == 0 && turn == Taken && rawTrans == old(rawTrans)
                && dst.data == old(dst.data) + payload
                && used <= |old(src.data)| && src.data == old(src.data)[used..]
              case Stop(id, e) =>
                && id == 0 && turn == Failed(e) && dst.data == old(dst.data)
                && (e != Panic ==> src.data == [])
                && rawTrans == (old(rawTrans) || e == LengthError || e == TailError)
    {
      assert Shape().headCheck(0, src.data[..2]) == HeadCheck(primitives, src.data[..2]);
      if HeadCheck(primitives, src.data[..2]) != src.data[2..4] {
        src.Reset();
        return Failed(HeadError);
      }
      var length := FromBe16(src.data[..2]);
      if length >= 8192 || length < 7 {
        rawTrans := true;
        src.Reset();
        return Failed(LengthError);
      }
      if length > |src.data| {
        return Incomplete;
      }
      assert Shape().tailCheck(0, src.data[..length - 4]) == TailCheck(primitives, src.data[..length - 4]);
      if TailCheck(primitives, src.data[..length - 4]) != src.data[length - 4..length] {
        rawTrans := true;
        src.Reset();
        return Failed(TailError);
      }
      var pos: int := src.data[4];
      if pos < 255 {
        pos := pos + 4;
      } else {
        pos := FromBe16(src.data[5..7]) + 4;
      }
      if pos > length - 4 {
        return Failed(Panic);
      }
      dst.Write(src.data[pos..length - 4]);
      ghost var buf := src.data;
      var used := src.Next(length);
      assert src.data == buf[length..];
      turn := Taken;
    }

    /** Takes every complete frame off `src`: the drained stream of the frame format. */
    method Decode(dst: Buffer, src: Buffer) returns (error: Option<Error>)
      requires dst != src
      modifies this`rawTrans, dst, src
      ensures var d := DecodeChunk(Shape(), Decoder(0, old(rawTrans)), old(src.data));
              && error == d.error && dst.data == old(dst.data) + d.output && Decoder(0, rawTrans) == d.decoder
              && (error != Some(Panic) ==> src.data == d.rest)
      ensures rawTrans == (old(rawTrans) || error == Some(LengthError) || error == Some(TailError))
      ensures error.Some? && error != Some(Panic) ==> src.data == []
    {
      hide Incremental, Drain, Receive, Sha1V4Format;
      ReceiverIncremental(Shape());
      if rawTrans {
        dst.ReadFrom(src);
        return None;
      }
      ghost var step := Receiver(Shape());
      ghost var whole := Drain(step, 0, src.data);
      ghost var taken: Bytes := [];
      PrependTwice([], [], whole);
      while |src.data| > 4
        invariant !rawTrans && dst.data == old(dst.data) + taken
        invariant Prepend(taken, Drain(step, 0, src.data)) == whole
        decreases |src.data|
      {
        ghost var buf := src.data;
        DrainUnfold(step, 0, buf);
        var turn := DecodeFrame(dst, src);
        match turn {
          case Taken =>
            PrependTwice(taken, Receive(Shape(), 0, buf).payload, Drain(step, 0, src.data));
            taken := taken + Receive(Shape(), 0, buf).payload;
          case Incomplete =>
            return None;
          case Failed(e) =>
            return Some(e);
        }
      }
      DrainUnfold(step, 0, src.data);
      ShortBuffer(Shape(), 0, src.data);
      error := None;
    }

    method RandDataLength(size: nat) returns (n: nat)
      ensures n < PadLimit(size)
      ensures size > 1200 ==> n == 0
      ensures 400 < size <= 1200 ==> n < 256
      ensures size <= 400 ==> n < 512
    {
      if size > 1200 {
        return 0;
      }
      if size > 400 {
        n := Intn(256);
      } else {
        n := Intn(512);
      }
    }

    method PackRandData(buf: Buffer, size: nat) returns (ghost filler: Bytes)
      modifies buf
      ensures |filler| == size
      ensures buf.data == old(buf.data) + (PadHead(BigEndian, size) + filler)
    {
      if size < 128 {
        buf.Write([size + 1]);
      } else {
        buf.Write([255]);
        buf.Write(Be16((size + 3) % 0x1_0000));
      }
      var noise := RandBytes(size);
      buf.Write(noise);
      filler := noise;
    }

    /** Everything of a frame but its last check. */
    method PackBody(buf: Buffer, packed: nat, pad: nat, data: Bytes) returns (ghost filler: Bytes, ghost body: Bytes)
      modifies buf
      ensures |filler| == pad
      ensures var head := Be16(packed % 0x1_0000);
              body == head + HeadCheck(primitives, head) + (PadHead(BigEndian, pad) + filler) + data
      ensures |body| == FrameLength(pad, |data|) - 4
      ensures buf.data == old(buf.data) + body
    {
      ghost var was := buf.data;
      var head := Be16(packed % 0x1_0000);
      buf.Write(head);
      BodyAtEnd(was, head);
      buf.Write(HeadCheck(primitives, buf.data[|buf.data| - 2..]));
      assert buf.data == was + (head + HeadCheck(primitives, head));
      filler := PackRandData(buf, pad);
      buf.Write(data);
      body := head + HeadCheck(primitives, head) + (PadHead(BigEndian, pad) + filler) + data;
      Regroup(was, head + HeadCheck(primitives, head), PadHead(BigEndian, pad) + filler, data);
    }

    method PackData(buf: Buffer, data: Bytes) returns (ghost filler: Bytes)
      modifies buf
      ensures |filler| < PadLimit(|data|)
      ensures buf.data == old(buf.data) + Pack(Shape(), 0, data, filler)
    {
      hide Pack, PadHead, Be16, PadLimit;
      ghost var was := buf.data;
      var randDataLength := RandDataLength(|data|);
      var packed := 2 + 2 + 3 + randDataLength + |data| + 4;
      if randDataLength < 128 {
        packed := packed - 2;
      }
      ghost var body;
      filler, body := PackBody(buf, packed, randDataLength, data);
      BodyAtEnd(was, body);
      var tail := TailCheck(primitives, buf.data[|buf.data| - packed + 4..]);
      Packed(data, filler);
      assert (was + body) + tail == was + (body + tail);
      buf.Write(tail);
    }

    lemma Packed(data: Bytes, filler: Bytes)
      ensures var head := Be16(FrameLength(|filler|, |data|) % 0x1_0000);
              var body := head + HeadCheck(primitives, head) + (PadHead(BigEndian, |filler|) + filler) + data;
              Pack(Shape(), 0, data, filler) == body + TailCheck(primitives, body)
    {
    }

    /** The header that carries `data`, up to its digest. */
    function HeaderBody(h: HeaderDraws, data: Bytes): Bytes {
      var length := Be16((31 + |PadHead(BigEndian, |h.noise|)| - 3 + |h.noise| + |data|) % 0x1_0000);
      length + Le32(primitives.crc32(length + SALT + key)) + (PadHead(BigEndian, |h.noise|) + h.noise)
      + (h.time + clientID + Le32(connectionID)) + data
    }

    function Header(h: HeaderDraws, data: Bytes): Bytes {
      HeaderBody(h, data) + primitives.hmacSha1(iv + key, HeaderBody(h, data))[..10]
    }

    /** The length field counts the whole header, and the data comes last but ten. */
    lemma HeaderCarries(h: HeaderDraws, data: Bytes)
      requires |clientID| == 4 && Drawn(h, |data|)
      ensures var b := Header(h, data);
              && b[|b| - 10 - |data|..|b| - 10] == data
              && (|b| < 0x1_0000 ==> FromBe16(b[..2]) == |b|)
    {
      hide Be16, FromBe16, Le32;
      PadHeadLength(BigEndian, |h.noise|);
      var body := HeaderBody(h, data);
      var b := Header(h, data);
      Le32Length(primitives.crc32(Be16(|b| % 0x1_0000) + SALT + key));
      assert |body| == 6 + |PadHead(BigEndian, |h.noise|)| + |h.noise| + 12 + |data|;
      assert b[..|body|] == body && body[|body| - |data|..] == data;
      assert b[|b| - 10 - |data|..|b| - 10] == b[..|body|][|body| - |data|..];
      assert b[..2] == Be16(|b| % 0x1_0000);
      Be16Reads(|b| % 0x1_0000);
    }

    /** Each field of the header, and what its checksum and its digest cover. */
    lemma HeaderOnWire(h: HeaderDraws, data: Bytes)
      requires |clientID| == 4 && Drawn(h, |data|)
      ensures var b := Header(h, data);
              var front := |b| - 22 - |data|;
              var name: Bytes := [97, 117, 116, 104, 95, 115, 104, 97, 49, 95, 118, 52];
              && front >= 6 && b[2..6] == Le32(primitives.crc32(b[..2] + name + key))
              && b[6..front] == PadHead(BigEndian, |h.noise|) + h.noise
              && b[front..front + 12] == h.time + clientID + Le32(connectionID)
              && b[|b| - 10..] == primitives.hmacSha1(iv + key, b[..|b| - 10])[..10]
    {
      hide Be16, Le32, PadHead;
      var length := Be16((31 + |PadHead(BigEndian, |h.noise|)| - 3 + |h.noise| + |data|) % 0x1_0000);
      var check := Le32(primitives.crc32(length + SALT + key));
      var padding, ident := PadHead(BigEndian, |h.noise|) + h.noise, h.time + clientID + Le32(connectionID);
      Be16Reads((31 + |PadHead(BigEndian, |h.noise|)| - 3 + |h.noise| + |data|) % 0x1_0000);
      Le32Length(primitives.crc32(length + SALT + key));
      Le32Length(connectionID);
      var body := HeaderBody(h, data);
      Fields(length, check, padding, ident, data, primitives.hmacSha1(iv + key, body)[..10]);
    }

    lemma Fields(length: Bytes, check: Bytes, padding: Bytes, ident: Bytes, data: Bytes, mac: Bytes)
      requires |length| == 2 && |check| == 4 && |ident| == 12 && |mac| == 10
      ensures var body := length + check + padding + ident + data;
              var b := body + mac;
              var front := |b| - 22 - |data|;
              && b[..2] == length && b[2..6] == check && b[6..front] == padding && b[front..front + 12] == ident
              && b[..|b| - 10] == body && b[|b| - 10..] == mac
    {
    }

    lemma Le32Length(n: UInt32)
      ensures |Le32(n)| == 4
    {
    }

    lemma Be16Reads(n: UInt16)
      ensures |Be16(n)| == 2 && FromBe16(Be16(n)) == n
    {
    }

    /** The header, which carries the first bytes of the stream for a server to read. */
    method PackAuthData(buf: Buffer, data: Bytes) returns (ghost h: HeaderDraws)
      requires |clientID| == 4
      modifies buf
      ensures Drawn(h, |data|) && buf.data == old(buf.data) + Header(h, data)
    {
      hide PadHead, Be16, Le32;
      var pad := RandDataLength(12 + |data|);
      PadHeadLength(BigEndian, pad);
      var packed := 2 + 4 + 3 + pad + 12 + |data| + 10;
      if pad < 128 {
        packed := packed - 2;
      }
      ghost var was := buf.data;
      h := WriteHeaderBody(buf, data, pad, packed);
      ghost var body := HeaderBody(h, data);
      BodyAtEnd(was, body);
      buf.Write(primitives.hmacSha1(iv + key, buf.data[|buf.data| - packed + 10..])[..10]);
      assert was + body + primitives.hmacSha1(iv + key, body)[..10] == was + Header(h, data);
    }

    method WriteHeaderBody(buf: Buffer, data: Bytes, pad: nat, packed: nat) returns (ghost h: HeaderDraws)
      requires |clientID| == 4 && pad < PadLimit(12 + |data|)
      requires packed == 28 + |PadHead(BigEndian, pad)| + pad + |data|
      modifies buf
      ensures Drawn(h, |data|) && |HeaderBody(h, data)| == packed - 10
      ensures buf.data == old(buf.data) + HeaderBody(h, data)
    {
      hide PadHead, Be16, PadLimit;
      var length := Be16(packed % 0x1_0000);
      ghost var was := buf.data;
      buf.Write(length);
      buf.Write(Le32(primitives.crc32(length + SALT + key)));
      ghost var check := Le32(primitives.crc32(length + SALT + key));
      ghost var filler := PackRandData(buf, pad);
      var now := RandBytes(4);
      buf.Write(now);
      buf.Write(clientID);
      buf.Write(Le32(connectionID));
      buf.Write(data);
      h := HeaderDraws(filler, now);
      Assembled(was, length, check, PadHead(BigEndian, pad) + filler, now, clientID, Le32(connectionID), data);
    }

    /** Appends the frames for `b`, on the first call behind the header with its first bytes. */
    method Encode(buf: Buffer, b: Bytes) returns (ghost head: nat, ghost h: HeaderDraws, ghost wire: Bytes)
      requires |clientID| == 4
      modifies this`hasSentHeader, buf
      ensures hasSentHeader && head <= |b|
      ensures !old(hasSentHeader) ==> Min(|b|, 4) <= head
      ensures old(hasSentHeader) ==> head == 0 && buf.data == old(buf.data) + wire
      ensures !old(hasSentHeader) ==> Drawn(h, head) && buf.data == old(buf.data) + Header(h, b[..head]) + wire
      ensures Sends(Shape(), 0, Pieces(b[head..], |b|), wire, 0)
    {
      hide Sends, Pack, Header;
      head, h := 0, HeaderDraws([], []);
      var rest := b;
      if !hasSentHeader {
        var dataLength := GetDataLength(b);
        h := PackAuthData(buf, b[..dataLength]);
        head := dataLength;
        rest := b[dataLength..];
        hasSentHeader := true;
      }
      wire := EncodeRest(buf, rest, |b|);
    }

    method EncodeRest(buf: Buffer, data: Bytes, ghost full: nat) returns (ghost wire: Bytes)
      modifies buf
      ensures buf.data == old(buf.data) + wire
      ensures Sends(Shape(), 0, Pieces(data, full), wire, 0)
    {
      hide Sends, Pack, AllData;
      var b := data;
      ghost var fmt := Shape();
      ghost var sent: seq<Piece> := [];
      wire := [];
      SendsNothing(fmt, 0);
      while |b| > CHUNK
        invariant buf.data == old(buf.data) + wire
        invariant Sends(fmt, 0, sent, wire, 0)
        invariant sent + Pieces(b, full) == Pieces(data, full)
        decreases |b|
      {
        ghost var piece := Piece(b[..CHUNK], full);
        ghost var filler := PackData(buf, b[..CHUNK]);
        SendsMore(fmt, 0, sent, wire, 0, piece, filler);
        PiecesUnfold(b, full, sent);
        wire := wire + Pack(fmt, 0, piece.data, filler);
        sent := sent + [piece];
        b := b[CHUNK..];
      }
      if |b| > 0 {
        ghost var filler := PackData(buf, b);
        SendsMore(fmt, 0, sent, wire, 0, Piece(b, full), filler);
        wire := wire + Pack(fmt, 0, b, filler);
      } else {
        assert sent + [] == sent;
      }
    }
  }
}
