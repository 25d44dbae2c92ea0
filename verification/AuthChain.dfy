/** The auth_chain stream codec as its source runs it, on buffers and arrays updated in place. */
module AuthChain {
  import opened Octets
  import opened Buffers
  import opened Protocol
  import opened Random
  import opened StreamDecoder
  import opened StreamConn
  import opened AuthChainPadding
  import opened AuthChainSpec
  import opened AuthChainProofs

  datatype Padder = VariantA | VariantB(sizes: seq<int>, sizes2: seq<int>)

  type Variant = v: Padder | v.VariantB? ==> SizeList(v.sizes) && SizeList(v.sizes2) witness VariantA

  /** The digests and ciphers the codec is built on, of which only the result sizes matter. */
  datatype Primitives = Primitives(
    hmacMd5: (Bytes, Bytes) -> Block,
    rc4: (Bytes, Block) -> (nat -> Byte))

  /** A cipher stream: bytes combined with a key stream that is never rewound. */
  class Cipher {
    const keystream: nat -> Byte
    var offset: nat

    constructor (keystream: nat -> Byte)
      ensures this.keystream == keystream && offset == 0
    {
      this.keystream := keystream;
      offset := 0;
    }

    method XorKeyStream(data: Bytes) returns (r: Bytes)
      modifies this
      ensures r == XorStream(keystream, old(offset), data)
      ensures offset == old(offset) + |data|
    {
      r := [];
      for i := 0 to |data|
        invariant offset == old(offset)
        invariant r == XorStream(keystream, offset, data)[..i]
      {
        var x := ComputeXor8(data[i], keystream(offset + i));
        r := r + [x];
      }
      offset := offset + |data|;
    }

    /** Encrypts part of the caller's array where it stands. */
    method XorInPlace(data: array<Byte>, lo: nat, hi: nat)
      requires lo <= hi <= data.Length
      modifies this, data
      ensures data[..] == Covered(keystream, old(offset), old(data[..]), lo, hi)
      ensures data[lo..hi] == XorStream(keystream, old(offset), old(data[lo..hi]))
      ensures offset == old(offset) + (hi - lo)
      ensures forall i | lo <= i < hi :: IsXor(old(data[i]), keystream(old(offset) + (i - lo)), data[i])
      ensures forall i | 0 <= i < data.Length && !(lo <= i < hi) :: data[i] == old(data[i])
    {
      hide XorStream, IsXor;
      XorStreamBits(keystream, offset, data[lo..hi]);
      var cipher := XorKeyStream(data[lo..hi]);
      ghost var was := data[..];
      assert was[lo..hi] == data[lo..hi];
      forall i | lo <= i < hi {
        data[i] := cipher[i - lo];
      }
      assert forall i | lo <= i < hi :: data[i] == cipher[i - lo] && was[lo..hi][i - lo] == was[i];
      assert data[lo..hi] == cipher;
      assert data[..] == was[..lo] + cipher + was[hi..];
    }
  }

  /** `b` with the bytes from `lo` to `hi` encrypted where they stand. */
  ghost function Covered(keystream: nat -> Byte, offset: nat, b: Bytes, lo: nat, hi: nat): (r: Bytes)
    requires lo <= hi <= |b|
    ensures |r| == |b|
  {
    b[..lo] + XorStream(keystream, offset, b[lo..hi]) + b[hi..]
  }

  lemma CoveredFurther(keystream: nat -> Byte, offset: nat, b: Bytes, from: nat, lo: nat, hi: nat)
    requires from <= lo <= hi <= |b|
    ensures var c := Covered(keystream, offset, b, from, lo);
            && c[lo..hi] == b[lo..hi]
            && Covered(keystream, offset + (lo - from), c, lo, hi) == Covered(keystream, offset, b, from, hi)
  {
    hide XorStream;
    XorStreamConcat(keystream, offset, b[from..lo], b[lo..hi]);
    Adjacent(b, from, lo, hi);
    CoverMore(b[..from], XorStream(keystream, offset, b[from..lo]), b[lo..hi], b[hi..],
              XorStream(keystream, offset + (lo - from), b[lo..hi]));
  }

  lemma Adjacent(b: Bytes, from: nat, lo: nat, hi: nat)
    requires from <= lo <= hi <= |b|
    ensures b[from..lo] + b[lo..hi] == b[from..hi] && b[lo..] == b[lo..hi] + b[hi..]
  {
  }

  lemma CoverMore(front: Bytes, done: Bytes, next: Bytes, rest: Bytes, covered: Bytes)
    ensures var c, lo := front + done + (next + rest), |front| + |done|;
            var hi := lo + |next|;
            && c[lo..hi] == next && c[..lo] == front + done && c[hi..] == rest
            && c[..lo] + covered + c[hi..] == front + (done + covered) + rest
  {
  }

  // Padding

  /** Binary search as the standard library runs it. */
  method Search(list: seq<int>, size: int) returns (pos: nat)
    requires SizeList(list)
    ensures pos == SearchIndex(list, size)
  {
    var i, j := 0, |list|;
    while i < j
      invariant 0 <= i <= j <= |list|
      invariant forall k | 0 <= k < i :: list[k] < size
      invariant forall k | j <= k < |list| :: list[k] >= size
    {
      var h := (i + j) / 2;
      if list[h] >= size {
        j := h;
      } else {
        i := h + 1;
      }
    }
    pos := i;
    SearchUnique(list, size, pos);
  }

  lemma {:induction false} SearchUnique(list: seq<int>, size: int, pos: nat)
    requires pos <= |list| && forall k | 0 <= k < pos :: list[k] < size
    requires pos < |list| ==> list[pos] >= size
    ensures pos == SearchIndex(list, size)
  {
    if pos > 0 {
      SearchUnique(list[1..], size, pos - 1);
    }
  }

  /** Puts `x` in its place in a sorted list. */
  method Insert(list: seq<int>, x: int) returns (r: seq<int>)
    requires forall i, j | 0 <= i < j < |list| :: list[i] <= list[j]
    ensures forall i, j | 0 <= i < j < |r| :: r[i] <= r[j]
    ensures multiset(r) == multiset(list) + multiset{x}
    ensures |r| == |list| + 1
  {
    var k := 0;
    while k < |list| && list[k] < x
      invariant k <= |list|
      invariant forall i | 0 <= i < k :: list[i] < x
    {
      k := k + 1;
    }
    r := list[..k] + [x] + list[k..];
    assert list == list[..k] + list[k..];
  }

  method SortInts(list: seq<int>) returns (r: seq<int>)
    ensures forall i, j | 0 <= i < j < |r| :: r[i] <= r[j]
    ensures multiset(r) == multiset(list) && |r| == |list|
  {
    r := [];
    for k := 0 to |list|
      invariant forall i, j | 0 <= i < j < |r| :: r[i] <= r[j]
      invariant multiset(r) == multiset(list[..k]) && |r| == k
    {
      r := Insert(r, list[k]);
      assert list[..k + 1] == list[..k] + [list[k]];
    }
    assert list[..|list|] == list;
  }

  /** The numbers that `n` draws from `g` contribute to a size list, in drawing order. */
  ghost function DrawnSizes(g: Generator, n: nat): seq<int> {
    if n == 0 then [] else DrawnSizes(g, n - 1) + [Draw(AdvanceBy(g, n - 1)) % 2340 % 2040 % 1440]
  }

  /** Each size is one number drawn, reduced three times. */
  lemma {:induction false} DrawnSizesAt(g: Generator, n: nat, i: nat)
    requires i < n
    ensures |DrawnSizes(g, n)| == n && DrawnSizes(g, n)[i] == Draw(AdvanceBy(g, i)) % 2340 % 2040 % 1440
  {
    hide Draw, AdvanceBy;
    DrawnLength(g, n);
    DrawnLength(g, n - 1);
    if i < n - 1 {
      DrawnSizesAt(g, n - 1, i);
    }
  }

  lemma {:induction false} DrawnLength(g: Generator, n: nat)
    ensures |DrawnSizes(g, n)| == n
  {
    if n > 0 {
      DrawnLength(g, n - 1);
    }
  }

  method DrawSizes(random: XorShift128Plus, n: nat) returns (list: seq<int>)
    requires n > 0
    modifies random
    ensures SizeList(list) && |list| == n
    ensures multiset(list) == multiset(DrawnSizes(old(random.State()), n))
    ensures random.State() == AdvanceBy(old(random.State()), n)
  {
    ghost var g := random.State();
    var drawn := [];
    for k := 0 to n
      invariant random.State() == AdvanceBy(g, k)
      invariant drawn == DrawnSizes(g, k) && |drawn| == k
      invariant forall x | x in drawn :: 0 <= x < 1440
    {
      var v := random.Next();
      drawn := drawn + [v % 2340 % 2040 % 1440];
    }
    list := SortInts(drawn);
    forall i | 0 <= i < n ensures 0 <= list[i] < 1440 {
      assert list[i] in multiset(list) && multiset(list) == multiset(drawn);
      assert list[i] in drawn;
    }
  }

  /**
   Variant b's two lists: 4 to 11 and 8 to 23 sizes, sorted, all drawn from the key, so that
   two ends that share the key have the same lists.
   */
  method InitDataSize(random: XorShift128Plus, key: Bytes) returns (sizes: seq<int>, sizes2: seq<int>)
    requires |key| >= 16
    modifies random
    ensures SizeList(sizes) && SizeList(sizes2)
    ensures var g0 := Seed(key[..16]);
            var n := Draw(g0) % 8 + 4;
            var g1 := AdvanceBy(Advance(g0), n);
            var n2 := Draw(g1) % 16 + 8;
            && multiset(sizes) == multiset(DrawnSizes(Advance(g0), n))
            && multiset(sizes2) == multiset(DrawnSizes(Advance(g1), n2))
            && |sizes| == n && |sizes2| == n2
  {
    random.InitFromBin(key);
    var v := random.Next();
    sizes := DrawSizes(random, v % 8 + 4);
    v := random.Next();
    sizes2 := DrawSizes(random, v % 16 + 8);
  }

  method FallbackLength(length: nat, random: XorShift128Plus) returns (pad: nat)
    modifies random
    ensures pad == Fallback(length, old(random.State()))
    ensures random.State() == Advance(old(random.State()))
  {
    var v := random.Next();
    if length > 1300 {
      pad := v % 31;
    } else if length > 900 {
      pad := v % 127;
    } else if length > 400 {
      pad := v % 521;
    } else {
      pad := v % 1021;
    }
  }

  method RandLengthA(length: nat, lastHash: array<Byte>, random: XorShift128Plus) returns (pad: nat)
    requires lastHash.Length == 16
    modifies lastHash, random
    ensures Padded(pad, lastHash[..], random.State()) == PadA(length, old(lastHash[..]), old(random.State()))
  {
    if length > 1440 {
      return 0;
    }
    random.InitFromBinAndLength(lastHash, length);
    pad := FallbackLength(length, random);
  }

  method RandLengthB(
    overhead: nat, sizes: seq<int>, sizes2: seq<int>,
    length: nat, lastHash: array<Byte>, random: XorShift128Plus) returns (pad: nat)
    requires SizeList(sizes) && SizeList(sizes2)
    requires lastHash.Length == 16
    modifies lastHash, random
    ensures Padded(pad, lastHash[..], random.State())
         == PadB(overhead, sizes, sizes2, length, old(lastHash[..]), old(random.State()))
  {
    hide Draw, Advance, AdvanceBy, Warm, Stamp;
    if length >= 1440 {
      return 0;
    }
    random.InitFromBinAndLength(lastHash, length);
    var pos := Search(sizes, length + overhead);
    var v := random.Next();
    var finalPos := pos + v % |sizes|;
    if finalPos < |sizes| {
      return sizes[finalPos] - length - overhead;
    }
    pos := Search(sizes2, length + overhead);
    v := random.Next();
    finalPos := pos + v % |sizes2|;
    if finalPos < |sizes2| {
      return sizes2[finalPos] - length - overhead;
    }
    if finalPos < pos + |sizes2| - 1 {
      return 0;
    }
    pad := FallbackLength(length, random);
  }

  // The codec

  /** What `Encode` cuts its input into. */
  function Pieces(b: Bytes): seq<Bytes>
    decreases |b|
  {
    if |b| > CHUNK then [b[..CHUNK]] + Pieces(b[CHUNK..])
    else if b != [] then [b]
    else []
  }

  lemma {:induction false} PiecesWhole(b: Bytes)
    ensures Flatten(Pieces(b)) == b
    ensures forall i | 0 <= i < |Pieces(b)| :: 1 <= |Pieces(b)[i]| <= CHUNK
    ensures forall i | 0 <= i < |Pieces(b)| - 1 :: |Pieces(b)[i]| == 2800
    ensures |b| >= 2 ==> |Pieces(b)[0]| >= 2
    decreases |b|
  {
    if |b| > CHUNK {
      PiecesWhole(b[CHUNK..]);
    }
  }

  /** What one call of `Decode` makes of the bytes that have arrived. */
  ghost function DecodeChunk(cfg: Config, d: Decoder<State>, under: Bytes): Decoded<State, Error> {
    ReceiverIncremental(cfg);
    DecodeBy(Receiver(cfg), GoesRaw, d, under)
  }

  /** The errors after which a codec passes bytes through. */
  predicate GoesRaw(e: Error) {
    !e.Panic?
  }

  ghost function Decoding(cfg: Config): (Decoder<State>, Bytes) -> Decoded<State, Error> {
    (d: Decoder<State>, under: Bytes) => DecodeChunk(cfg, d, under)
  }

  lemma DecodingImplements(cfg: Config)
    ensures Incremental(Receiver(cfg)) && Implements(Decoding(cfg), Receiver(cfg), GoesRaw)
  {
    hide Incremental, Receive;
    ReceiverIncremental(cfg);
  }

  lemma ShortBuffer(cfg: Config, s: State, buf: Bytes)
    requires |buf| <= 4
    ensures Receive(cfg, s, buf) == More(s)
  {
  }

  lemma PiecesUnfold(b: Bytes, off: nat, before: seq<Bytes>)
    requires |b| - off > CHUNK
    ensures before + Pieces(b[off..]) == (before + [b[off..off + CHUNK]]) + Pieces(b[off + CHUNK..])
  {
    assert b[off..][..CHUNK] == b[off..off + CHUNK] && b[off..][CHUNK..] == b[off + CHUNK..];
  }

  lemma AllCovered(keystream: nat -> Byte, offset: nat, b: Bytes)
    ensures Covered(keystream, offset, b, 0, |b|) == XorStream(keystream, offset, b)
  {
    assert b[0..|b|] == b;
  }

  lemma NothingCovered(keystream: nat -> Byte, offset: nat, b: Bytes, from: nat)
    requires from <= |b|
    ensures Covered(keystream, offset, b, from, from) == b
  {
  }

  lemma SendsNothing(cfg: Config, s: State)
    ensures Sends(cfg, s, [], [], s)
  {
  }

  lemma SendsMore(
    cfg: Config, s0: State, done: seq<Bytes>, wire: Bytes,
    s: State, payload: Bytes, filler: Bytes, frame: Bytes, s': State)
    requires Sends(cfg, s0, done, wire, s)
    requires |filler| == Room(cfg, s, |payload|) && Send(cfg, s, payload, filler) == (frame, s')
    ensures Sends(cfg, s0, done + [payload], wire + frame, s')
    ensures s'.offset == s.offset + |payload|
  {
    hide Sends;
    SendsOne(cfg, s, payload, filler);
    SendsConcat(cfg, s0, done, wire, s, [payload], frame, s');
  }

  lemma HeadSlices(was: Bytes, noise: Bytes, h: Bytes, uid: Bytes, block: Bytes, t: Bytes)
    requires |noise| == |uid| == |t| == 4 && |h| == 8 && |block| == 16
    ensures var sent := was + noise + h + uid + block + t;
            var n := |was|;
            && sent[..n] == was && sent[..n + 4] == was + noise && sent[n + 4..n + 12] == h
            && sent[n + 12..n + 16] == uid
            && sent[..n + 32] == was + noise + h + uid + block && sent[n + 32..n + 36] == t
  {
  }

  class Codec {
    const primitives: Primitives
    const key: Bytes
    const userKey: Bytes
    const iv: Bytes
    const userID: Bytes
    const overhead: nat
    const variant: Variant
    const randomClient: XorShift128Plus
    const randomServer: XorShift128Plus
    var hasSentHeader: bool
    var rawTrans: bool
    var lastClientHash: array<Byte>
    var lastServerHash: array<Byte>
    var encrypter: Cipher
    var decrypter: Cipher
    var packID: UInt32
    var recvID: UInt32

    /** The hashes and ciphers are placeholders until the header sets them. */
    constructor (
      primitives: Primitives, key: Bytes, userKey: Bytes, userID: Bytes, iv: Bytes, overhead: nat, variant: Variant)
      requires |userID| == 4
      ensures Valid() && !hasSentHeader && !rawTrans
      ensures packID == 1 && recvID == 1
      ensures this.primitives == primitives && this.key == key && this.userKey == userKey && this.userID == userID
      ensures this.iv == iv && this.overhead == overhead && this.variant == variant
    {
      this.primitives := primitives;
      this.key, this.userKey, this.userID, this.iv := key, userKey, userID, iv;
      this.overhead, this.variant := overhead, variant;
      randomClient := new XorShift128Plus();
      randomServer := new XorShift128Plus();
      hasSentHeader, rawTrans := false, false;
      lastClientHash := new Byte[16](_ => 0);
      lastServerHash := new Byte[16](_ => 0);
      encrypter := new Cipher(_ => 0);
      decrypter := new Cipher(_ => 0);
      packID, recvID := 1, 1;
    }

    ghost predicate Valid()
      reads this
    {
      && |userID| == 4
      && lastClientHash.Length == lastServerHash.Length == 16
      && lastClientHash != lastServerHash
      && encrypter != decrypter
      && encrypter.keystream == decrypter.keystream
      && randomClient != randomServer
    }

    ghost function Rule(): PaddingRule {
      match variant
      case VariantA => RuleALawful(); RuleA()
      case VariantB(sizes, sizes2) => RuleBLawful(overhead, sizes, sizes2); RuleB(overhead, sizes, sizes2)
    }

    ghost function Shared(): Config
      reads this
      requires Valid()
    {
      Config(userKey, primitives.hmacMd5, encrypter.keystream, Rule())
    }

    ghost function SendState(): State
      reads this, lastClientHash, randomClient, encrypter
      requires Valid()
    {
      State(lastClientHash[..], randomClient.State(), encrypter.offset, packID)
    }

    ghost function RecvState(): State
      reads this, lastServerHash, randomServer, decrypter
      requires Valid()
    {
      State(lastServerHash[..], randomServer.State(), decrypter.offset, recvID)
    }

    /** Each direction runs on its own hash, generator, cipher and counter, with shared keys and rule. */
    lemma DirectionsAre(length: nat, hash: Block, gen: Generator)
      requires Valid()
      ensures var s, r, c := SendState(), RecvState(), Shared();
              && s.hash == lastClientHash[..] && s.gen == Generator(randomClient.s0, randomClient.s1)
              && s.offset == encrypter.offset && s.id == packID
              && r.hash == lastServerHash[..] && r.gen == Generator(randomServer.s0, randomServer.s1)
              && r.offset == decrypter.offset && r.id == recvID
              && c.userKey == userKey && c.hmac == primitives.hmacMd5
              && c.keystream == encrypter.keystream == decrypter.keystream
              && (variant.VariantA? ==> c.padding(length, hash, gen) == PadA(length, hash, gen))
              && (variant.VariantB? ==>
                  c.padding(length, hash, gen)
                  == PadB(overhead, variant.sizes, variant.sizes2, length, hash, gen))
    {
    }

    method RandDataLength(length: nat, lastHash: array<Byte>, random: XorShift128Plus) returns (pad: nat)
      requires lastHash.Length == 16
      modifies lastHash, random
      ensures Padded(pad, lastHash[..], random.State()) == Rule()(length, old(lastHash[..]), old(random.State()))
    {
      match variant {
        case VariantA =>
          pad := RandLengthA(length, lastHash, random);
        case VariantB(sizes, sizes2) =>
          pad := RandLengthB(overhead, sizes, sizes2, length, lastHash, random);
      }
    }

    /** Where the data starts inside `length` bytes of padding. */
    static method RandStartPos(length: nat, random: XorShift128Plus) returns (pos: nat)
      requires length > 0
      modifies random
      ensures pos == Draw(old(random.State())) % 8589934609 % length < length
      ensures random.State() == Advance(old(random.State()))
    {
      var v := random.Next();
      pos := v % 8589934609 % length;
    }

    static method DataPos(length: nat, pad: nat, random: XorShift128Plus) returns (start: nat)
      modifies random
      ensures (start, random.State()) == DataStart(length, pad, old(random.State()))
    {
      hide Draw, Advance;
      start := 0;
      if length > 0 && pad > 0 {
        start := RandStartPos(pad, random);
      }
    }

    /** Takes the data out of the authentic frame at the front of `src`. */
    method OpenFrame(dst: Buffer, src: Buffer, serverHash: Block, dataLength: nat, randDataLength: nat)
      returns (turn: Turn<Error>)
      requires Valid() && dst != src && 4 + dataLength + randDataLength <= |src.data|
      modifies this`lastServerHash, this`recvID, randomServer, decrypter, dst, src
      ensures Valid() && fresh(lastServerHash)
      ensures match Open(Shared(), old(RecvState()), serverHash, dataLength, randDataLength, old(src.data))
              case Frame(s, payload, used) =>
                && turn == Taken && RecvState() == s
                && dst.data == old(dst.data) + payload
                && used <= |old(src.data)| && src.data == old(src.data)[used..]
              case Stop(_, e) => e == Panic && turn == Failed(e) && dst.data == old(dst.data)
              case More(_) => false
    {
      hide Rule, XorStream, DataStart;
      lastServerHash := new Byte[16](i requires 0 <= i < 16 => serverHash[i]);
      assert lastServerHash[..] == serverHash;
      var start := DataPos(dataLength, randDataLength, randomServer);
      var pos := 2 + start;
      var wanted := decrypter.XorKeyStream(src.data[pos..pos + dataLength]);
      if recvID == 1 && |wanted| < 2 {
        return Failed(Panic);
      }
      dst.Write(if recvID == 1 then wanted[2..] else wanted);
      recvID := (recvID + 1) % 0x1_0000_0000;
      ghost var buf := src.data;
      var used := src.Next(dataLength + randDataLength + 4);
      assert src.data == buf[dataLength + randDataLength + 4..];
      turn := Taken;
    }

    /** One turn of the receiver's loop: recomputes the padding, checks and takes a frame. */
    method DecodeFrame(dst: Buffer, src: Buffer) returns (turn: Turn<Error>)
      requires Valid() && dst != src && |src.data| > 4
      modifies this`rawTrans, this`lastServerHash, this`recvID, lastServerHash, randomServer, decrypter, dst, src
      ensures Valid()
      ensures match Receive(Shared(), old(RecvState()), old(src.data))
              case More(s) =>
                && turn == Incomplete && RecvState() == s && rawTrans == old(rawTrans)
                && dst.data == old(dst.data) && src.data == old(src.data)
              case Frame(s, payload, used) =>
                && turn == Taken && RecvState() == s && rawTrans == old(rawTrans)
                && dst.data == old(dst.data) + payload
                && used <= |old(src.data)| && src.data == old(src.data)[used..]
              case Stop(s, e) =>
                && turn == Failed(e) && dst.data == old(dst.data)
                && (e != Panic ==> RecvState() == s && rawTrans && src.data == [])
      ensures lastServerHash == old(lastServerHash) || fresh(lastServerHash)
    {
      hide Rule, Open, Lawful, LawfulAt;
      var macKey := userKey + Le32(recvID);
      var dataLength := ComputeXor16(FromLe16(src.data[..2]), FromLe16(lastServerHash[14..16]));
      assert lastServerHash[14..16] == lastServerHash[..][14..16];
      var randDataLength := RandDataLength(dataLength, lastServerHash, randomServer);
      var length := dataLength + randDataLength;
      if length >= LENGTH_LIMIT {
        rawTrans := true;
        src.Reset();
        return Failed(LengthError);
      }
      if 4 + length > |src.data| {
        return Incomplete;
      }
      var serverHash := primitives.hmacMd5(macKey, src.data[..length + 2]);
      if serverHash[..2] != src.data[length + 2..length + 4] {
        rawTrans := true;
        src.Reset();
        return Failed(ChecksumError);
      }
      turn := OpenFrame(dst, src, serverHash, dataLength, randDataLength);
    }

    /**
     Takes every complete frame off `src`: the result is the drained stream of the frame
     format. After a length or checksum error the codec passes bytes through unchanged. Before
     the header has been sent there is no hash to decode with, and the first frame that
     should be decoded panics.
     */
    method Decode(dst: Buffer, src: Buffer) returns (error: Option<Error>)
      requires Valid() && dst != src
      modifies this`rawTrans, this`lastServerHash, this`recvID, lastServerHash, randomServer, decrypter, dst, src
      ensures Valid()
      ensures lastServerHash == old(lastServerHash) || fresh(lastServerHash)
      ensures !hasSentHeader && !old(rawTrans) ==>
                && error == (if |old(src.data)| > 4 then Some(Panic) else None)
                && dst.data == old(dst.data) && src.data == old(src.data) && !rawTrans
      ensures hasSentHeader || old(rawTrans) ==>
                var d := DecodeChunk(Shared(), Decoder(old(RecvState()), old(rawTrans)), old(src.data));
                && error == d.error
                && dst.data == old(dst.data) + d.output
                && (error != Some(Panic) ==>
                    Decoder(RecvState(), rawTrans) == d.decoder && src.data == d.rest)
      ensures error != Some(Panic) ==>
                && rawTrans == (old(rawTrans) || error == Some(LengthError) || error == Some(ChecksumError))
                && (rawTrans ==> src.data == [])
    {
      hide Rule, Receive, Incremental, Drain;
      ReceiverIncremental(Shared());
      if rawTrans {
        dst.ReadFrom(src);
        return None;
      }
      ghost var step := Receiver(Shared());
      ghost var whole := Drain(step, RecvState(), src.data);
      ghost var taken: Bytes := [];
      PrependTwice([], [], whole);
      while |src.data| > 4
        invariant Valid() && !rawTrans
        invariant lastServerHash == old(lastServerHash) || fresh(lastServerHash)
        invariant dst.data == old(dst.data) + taken
        invariant !hasSentHeader ==> taken == [] && src.data == old(src.data)
        invariant Prepend(taken, Drain(step, RecvState(), src.data)) == whole
        decreases |src.data|
      {
        if !hasSentHeader {
          return Some(Panic);
        }
        ghost var s, buf := RecvState(), src.data;
        DrainUnfold(step, s, buf);
        var turn := DecodeFrame(dst, src);
        match turn {
          case Taken =>
            PrependTwice(taken, Receive(Shared(), s, buf).payload, Drain(step, RecvState(), src.data));
            taken := taken + Receive(Shared(), s, buf).payload;
          case Incomplete =>
            return None;
          case Failed(e) =>
            return Some(e);
        }
      }
      DrainUnfold(step, RecvState(), src.data);
      ShortBuffer(Shared(), RecvState(), src.data);
      error := None;
    }

    /** Writes out `data`, already encrypted, mixed with padding. */
    method PutMixed(buf: Buffer, data: Bytes) returns (ghost filler: Bytes)
      requires Valid()
      modifies lastClientHash, randomClient, buf
      ensures var padded := Rule()(|data|, old(lastClientHash[..]), old(randomClient.State()));
              var (start, gen) := DataStart(|data|, padded.pad, padded.gen);
              && |filler| == padded.pad
              && lastClientHash[..] == padded.hash && randomClient.State() == gen
              && buf.data == old(buf.data) + (filler[..start] + data + filler[start..])
    {
      hide Rule, Draw, Advance;
      var randDataLength := RandDataLength(|data|, lastClientHash, randomClient);
      if |data| == 0 {
        var noise := RandBytes(randDataLength);
        buf.Write(noise);
        filler := noise;
        assert filler[..0] == [] && filler[0..] == filler;
        return;
      }
      if randDataLength > 0 {
        var startPos := RandStartPos(randDataLength, randomClient);
        var before := RandBytes(startPos);
        buf.Write(before);
        buf.Write(data);
        var after := RandBytes(randDataLength - startPos);
        buf.Write(after);
        filler := before + after;
        return;
      }
      buf.Write(data);
      filler := [];
    }

    /** Everything of a frame but its checksum; the data is left encrypted in the array. */
    method PackBody(buf: Buffer, data: array<Byte>, lo: nat, hi: nat) returns (ghost filler: Bytes)
      requires Valid() && lo <= hi <= data.Length && data != lastClientHash
      modifies lastClientHash, randomClient, encrypter, buf, data
      ensures |filler| == Room(Shared(), old(SendState()), hi - lo)
      ensures buf.data == old(buf.data) + Body(Shared(), old(SendState()), old(data[lo..hi]), filler)
      ensures encrypter.offset == old(encrypter.offset) + (hi - lo)
      ensures var padded := Rule()(hi - lo, old(lastClientHash[..]), old(randomClient.State()));
              randomClient.State() == DataStart(hi - lo, padded.pad, padded.gen).1
      ensures data[..] == Covered(encrypter.keystream, old(encrypter.offset), old(data[..]), lo, hi)
    {
      hide Rule, Draw, Advance, XorStream, DataStart, Xor16;
      encrypter.XorInPlace(data, lo, hi);
      assert lastClientHash[14..16] == lastClientHash[..][14..16];
      var masked := ComputeXor16((hi - lo) % 0x1_0000, FromLe16(lastClientHash[14..16]));
      buf.Write(Le16(masked));
      filler := PutMixed(buf, data[lo..hi]);
    }

    /** Appends one frame that carries `data[lo..hi]`. */
    method PackData(buf: Buffer, data: array<Byte>, lo: nat, hi: nat) returns (ghost filler: Bytes, ghost frame: Bytes)
      requires Valid() && lo <= hi <= data.Length
      requires data != lastClientHash && data != lastServerHash
      modifies this`lastClientHash, this`packID, lastClientHash, randomClient, encrypter, buf, data
      ensures Valid() && fresh(lastClientHash)
      ensures |filler| == Room(Shared(), old(SendState()), hi - lo)
      ensures (frame, SendState()) == Send(Shared(), old(SendState()), old(data[lo..hi]), filler)
      ensures buf.data == old(buf.data) + frame
      ensures encrypter.offset == old(encrypter.offset) + (hi - lo)
      ensures data[..] == Covered(encrypter.keystream, old(encrypter.offset), old(data[..]), lo, hi)
    {
      hide Rule, XorStream, DataStart, Xor16;
      var macKey := userKey + Le32(packID);
      packID := (packID + 1) % 0x1_0000_0000;
      var originalLength := |buf.data|;
      filler := PackBody(buf, data, lo, hi);
      var body := buf.data[originalLength..];
      var mac := primitives.hmacMd5(macKey, body);
      lastClientHash := new Byte[16](i requires 0 <= i < 16 => mac[i]);
      assert lastClientHash[..] == mac;
      buf.Write(mac[..2]);
      frame := body + mac[..2];
    }

    /** Frames for everything from `from` on, which is left encrypted in the caller's array. */
    method EncodePieces(buf: Buffer, b: array<Byte>, from: nat) returns (ghost wire: Bytes)
      requires Valid() && from <= b.Length
      requires b != lastClientHash && b != lastServerHash
      modifies this`lastClientHash, this`packID, lastClientHash, randomClient, encrypter, buf, b
      ensures Valid() && (lastClientHash == old(lastClientHash) || fresh(lastClientHash))
      ensures buf.data == old(buf.data) + wire
      ensures Sends(Shared(), old(SendState()), Pieces(old(b[from..])), wire, SendState())
      ensures b[..] == Covered(encrypter.keystream, old(encrypter.offset), old(b[..]), from, b.Length)
    {
      hide Rule, XorStream, Sends, Send, Covered;
      ghost var cfg, s0, was := Shared(), SendState(), b[..];
      ghost var done: seq<Bytes> := [];
      wire := [];
      var off := from;
      SendsNothing(cfg, s0);
      NothingCovered(cfg.keystream, s0.offset, was, from);
      assert b[from..] == was[from..];
      while b.Length - off > CHUNK
        invariant from <= off <= b.Length && Valid() && Shared() == cfg
        invariant lastClientHash == old(lastClientHash) || fresh(lastClientHash)
        invariant buf.data == old(buf.data) + wire
        invariant b[..] == Covered(cfg.keystream, s0.offset, was, from, off)
        invariant encrypter.offset == s0.offset + (off - from)
        invariant Sends(cfg, s0, done, wire, SendState())
        invariant done + Pieces(was[off..]) == Pieces(was[from..])
      {
        ghost var s, filler, frame := SendState(), [], [];
        CoveredFurther(cfg.keystream, s0.offset, was, from, off, off + CHUNK);
        assert b[off..off + CHUNK] == b[..][off..off + CHUNK];
        filler, frame := PackData(buf, b, off, off + CHUNK);
        SendsMore(cfg, s0, done, wire, s, was[off..off + CHUNK], filler, frame, SendState());
        PiecesUnfold(was, off, done);
        done, wire := done + [was[off..off + CHUNK]], wire + frame;
        off := off + CHUNK;
      }
      if off < b.Length {
        ghost var s, filler, frame := SendState(), [], [];
        CoveredFurther(cfg.keystream, s0.offset, was, from, off, b.Length);
        assert b[off..b.Length] == b[..][off..b.Length];
        filler, frame := PackData(buf, b, off, b.Length);
        SendsMore(cfg, s0, done, wire, s, was[off..b.Length], filler, frame, SendState());
        assert was[off..b.Length] == was[off..];
        wire := wire + frame;
      } else {
        assert done + [] == done;
      }
    }

    /** New cipher streams in both directions, keyed by the user key and the client hash. */
    method InitRc4Cipher()
      requires lastClientHash.Length == 16
      modifies this`encrypter, this`decrypter
      ensures fresh(encrypter) && fresh(decrypter) && encrypter != decrypter
      ensures encrypter.keystream == decrypter.keystream == primitives.rc4(userKey, lastClientHash[..])
      ensures encrypter.offset == decrypter.offset == 0
    {
      encrypter := new Cipher(primitives.rc4(userKey, lastClientHash[..]));
      decrypter := new Cipher(primitives.rc4(userKey, lastClientHash[..]));
    }

    /** Random bytes, and their hash, from which both cipher streams start. */
    method PackCheckHead(buf: Buffer) returns (ghost noise: Bytes)
      requires Valid()
      modifies this`lastClientHash, this`encrypter, this`decrypter, buf
      ensures Valid() && fresh(lastClientHash) && fresh(encrypter) && fresh(decrypter)
      ensures |noise| == 4 && lastClientHash[..] == primitives.hmacMd5(iv + key, old(buf.data) + noise)
      ensures buf.data == old(buf.data) + noise + lastClientHash[..8]
      ensures encrypter.keystream == decrypter.keystream == primitives.rc4(userKey, lastClientHash[..])
      ensures encrypter.offset == decrypter.offset == 0
    {
      hide Rule;
      var check := RandBytes(4);
      noise := check;
      buf.Write(check);
      var clientHash := primitives.hmacMd5(iv + key, buf.data);
      lastClientHash := new Byte[16](i requires 0 <= i < 16 => clientHash[i]);
      assert lastClientHash[..] == clientHash;
      InitRc4Cipher();
      buf.Write(lastClientHash[..8]);
    }

    /**
     The 36 bytes in front of the first frame. They fix both directions' hashes and cipher
     streams: 4 random bytes, 8 bytes of the client hash, the masked user id, an encrypted
     block, and 4 bytes of the server hash.
     */
    method PackAuthHead(buf: Buffer)
      requires Valid()
      modifies this`lastClientHash, this`lastServerHash, this`encrypter, this`decrypter, buf
      ensures Valid() && fresh(lastClientHash) && fresh(lastServerHash) && fresh(encrypter) && fresh(decrypter)
      ensures |buf.data| == |old(buf.data)| + 36 && old(buf.data) <= buf.data
      ensures HeadSent(|old(buf.data)|, buf.data)
    {
      hide Rule;
      ghost var was := buf.data;
      ghost var noise := PackCheckHead(buf);
      ghost var clientHash := lastClientHash[..];
      var uid := MaskedUserID(lastClientHash[..]);
      buf.Write(uid);
      var block := RandBytes(16);
      buf.Write(block);
      var serverHash := primitives.hmacMd5(userKey, buf.data[12..]);
      lastServerHash := new Byte[16](i requires 0 <= i < 16 => serverHash[i]);
      assert lastServerHash[..] == serverHash;
      buf.Write(serverHash[..4]);
      HeadSlices(was, noise, clientHash[..8], uid, block, serverHash[..4]);
    }

    method MaskedUserID(hash: Block) returns (uid: Bytes)
      requires |userID| == 4
      ensures |uid| == 4
      ensures forall i | 0 <= i < 4 :: uid[i] == Xor8(userID[i], hash[8 + i])
    {
      uid := [];
      for i := 0 to 4
        invariant |uid| == i
        invariant forall j | 0 <= j < i :: uid[j] == Xor8(userID[j], hash[8 + j])
      {
        var x := ComputeXor8(userID[i], hash[8 + i]);
        uid := uid + [x];
      }
    }

    /** Both directions start from what the header, written after `n` earlier bytes, says. */
    ghost predicate HeadSent(n: nat, sent: Bytes)
      reads this, lastClientHash, lastServerHash, encrypter, decrypter
      requires Valid() && |sent| >= n + 36
    {
      && lastClientHash[..] == primitives.hmacMd5(iv + key, sent[..n + 4])
      && lastServerHash[..] == primitives.hmacMd5(userKey, sent[..n + 32][12..])
      && sent[n + 4..n + 12] == lastClientHash[..8]
      && (forall i | 0 <= i < 4 :: sent[n + 12 + i] == Xor8(userID[i], lastClientHash[8 + i]))
      && sent[n + 32..n + 36] == lastServerHash[..4]
      && encrypter.keystream == decrypter.keystream == primitives.rc4(userKey, lastClientHash[..])
      && encrypter.offset == decrypter.offset == 0
    }

    /** The header, the frame with the first `head` bytes that belongs to it, and the rest. */
    method EncodeFirst(buf: Buffer, b: array<Byte>) returns (ghost head: nat, ghost start: State, ghost wire: Bytes)
      requires Valid() && b != lastClientHash && b != lastServerHash
      modifies this`lastClientHash, this`lastServerHash, this`encrypter, this`decrypter, this`packID
      modifies lastClientHash, randomClient, encrypter, buf, b
      ensures Valid() && fresh(lastClientHash) && fresh(lastServerHash)
      ensures Min(b.Length, 4) <= head <= b.Length && head <= CHUNK
      ensures |buf.data| == |old(buf.data)| + 36 + |wire|
      ensures wire == buf.data[|old(buf.data)| + 36..]
      ensures start.id == old(packID) && start.offset == 0
      ensures start.hash == primitives.hmacMd5(iv + key, buf.data[..|old(buf.data)| + 4])
      ensures lastServerHash[..] == primitives.hmacMd5(userKey, buf.data[..|old(buf.data)| + 32][12..])
      ensures encrypter.keystream == decrypter.keystream == primitives.rc4(userKey, start.hash)
      ensures decrypter.offset == 0
      ensures Sends(Shared(), start, [old(b[..head])] + Pieces(old(b[head..])), wire, SendState())
      ensures b[..] == XorStream(encrypter.keystream, 0, old(b[..]))
    {
      hide Rule, XorStream, Sends, Send, Covered;
      ghost var was, n := b[..], |buf.data|;
      var dataLength := GetDataLength(b[..]);
      head := dataLength;
      PackAuthHead(buf);
      ghost var sent := buf.data;
      start := SendState();
      assert b[0..dataLength] == was[..dataLength];
      ghost var filler, frame := PackData(buf, b, 0, dataLength);
      ghost var mid, half := SendState(), b[..];
      assert half == Covered(encrypter.keystream, 0, was, 0, dataLength);
      CoveredFurther(encrypter.keystream, 0, was, 0, dataLength, b.Length);
      assert half[dataLength..b.Length] == b[dataLength..] && was[dataLength..b.Length] == was[dataLength..];
      ghost var rest := EncodePieces(buf, b, dataLength);
      SendsCons(Shared(), start, was[..dataLength], filler, frame, mid, Pieces(was[dataLength..]), rest, SendState());
      wire := frame + rest;
      assert buf.data == sent + wire;
      assert buf.data[..n + 4] == sent[..n + 4] && buf.data[..n + 32] == sent[..n + 32];
      AllCovered(encrypter.keystream, 0, was);
    }

    /**
     Appends the frames for `b`, on the first call behind the header. The caller's array is
     left holding ciphertext.
     */
    method Encode(buf: Buffer, b: array<Byte>) returns (ghost head: nat, ghost start: State, ghost wire: Bytes)
      requires Valid() && b != lastClientHash && b != lastServerHash
      modifies this`hasSentHeader, this`lastClientHash, this`lastServerHash, this`encrypter, this`decrypter, this`packID
      modifies lastClientHash, randomClient, encrypter, buf, b
      ensures Valid() && hasSentHeader
      ensures old(hasSentHeader) ==>
                && start == old(SendState()) && buf.data == old(buf.data) + wire
                && Sends(Shared(), start, Pieces(old(b[..])), wire, SendState())
                && lastServerHash == old(lastServerHash) && decrypter == old(decrypter)
      ensures !old(hasSentHeader) ==>
                && Min(b.Length, 4) <= head <= b.Length && head <= CHUNK
                && |buf.data| == |old(buf.data)| + 36 + |wire|
                && wire == buf.data[|old(buf.data)| + 36..]
                && start.id == old(packID) && start.offset == 0 && decrypter.offset == 0
                && encrypter.keystream == primitives.rc4(userKey, start.hash)
                && start.hash == primitives.hmacMd5(iv + key, buf.data[..|old(buf.data)| + 4])
                && lastServerHash[..] == primitives.hmacMd5(userKey, buf.data[..|old(buf.data)| + 32][12..])
                && Sends(Shared(), start, [old(b[..head])] + Pieces(old(b[head..])), wire, SendState())
      ensures b[..] == XorStream(encrypter.keystream, start.offset, old(b[..]))
    {
      hide Rule, XorStream, Sends, Send;
      if !hasSentHeader {
        head, start, wire := EncodeFirst(buf, b);
        hasSentHeader := true;
      } else {
        head, start := 0, SendState();
        assert b[0..] == b[..];
        ghost var was := b[..];
        wire := EncodePieces(buf, b, 0);
        AllCovered(encrypter.keystream, start.offset, was);
      }
    }
  }
}
