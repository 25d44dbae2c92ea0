/**
 simple-obfs in TLS dress: what a connection sends looks like a ClientHello, with the first
 data as its session ticket, followed by application records; what it receives is taken apart
 without a buffer of its own, record by record, into the callers' buffers.
 */
module SimpleObfsSpec {
  import opened Octets
  import opened TlsRecords
  import opened ClientHello

  const CHUNK := 0x4000

  /** What precedes the length field of the first response, and of every later record. */
  const FIRST_DISCARD := 105
  const DISCARD := 3

  // Receiving

  function Discard(first: bool): nat {
    if first then FIRST_DISCARD else DISCARD
  }

  /**
   The data that is still to be delivered from a stream: `remain` bytes of the current record,
   then the bodies of the records that follow, as far as the stream goes.
   */
  function Undelivered(remain: nat, first: bool, stream: Bytes): Bytes
    decreases |stream|, remain
  {
    if remain > 0 then
      if |stream| <= remain then stream else stream[..remain] + Undelivered(0, first, stream[remain..])
    else
      var d := Discard(first);
      if |stream| < d + 2 then []
      else Undelivered(FromBe16(stream[d..d + 2]), false, stream[d + 2..])
  }

  /** Taking part of the current record. */
  lemma {:induction false} TakePart(remain: nat, first: bool, stream: Bytes, n: nat)
    requires n <= remain && n <= |stream|
    ensures Undelivered(remain, first, stream) == stream[..n] + Undelivered(remain - n, first, stream[n..])
  {
    if n == 0 {
      assert stream[0..] == stream && [] + Undelivered(remain, first, stream) == Undelivered(remain, first, stream);
    } else if |stream| <= remain {
      TakeAll(remain, first, stream, n);
    } else if n == remain {
    } else {
      assert stream[n..][remain - n..] == stream[remain..];
      assert stream[n..][..remain - n] == stream[n..remain];
      assert stream[..remain] == stream[..n] + stream[n..remain];
      var rest := Undelivered(0, first, stream[remain..]);
      assert (stream[..n] + stream[n..remain]) + rest == stream[..n] + (stream[n..remain] + rest);
    }
  }

  lemma TakeAll(remain: nat, first: bool, stream: Bytes, n: nat)
    requires 0 < n <= |stream| <= remain
    ensures Undelivered(remain, first, stream) == stream[..n] + Undelivered(remain - n, first, stream[n..])
  {
    assert stream == stream[..n] + stream[n..];
    if remain == n {
      assert stream[n..] == [];
      assert Undelivered(0, first, []) == [];
    }
  }

  /** Records as a peer sends them, each behind three bytes of any kind and version. */
  function Framed(fronts: seq<Bytes>, bodies: seq<Bytes>): Bytes
    requires |fronts| == |bodies|
  {
    if fronts == [] then [] else fronts[0] + Be16(|bodies[0]| % 0x1_0000) + bodies[0] + Framed(fronts[1..], bodies[1..])
  }

  /** Of whole records exactly the bodies are delivered. */
  lemma {:induction false} UndeliveredBodies(first: bool, fronts: seq<Bytes>, bodies: seq<Bytes>)
    requires |fronts| == |bodies|
    requires forall i | 0 <= i < |fronts| ::
               |fronts[i]| == (if first && i == 0 then 105 else 3) && |bodies[i]| < 0x1_0000
    ensures Undelivered(0, first, Framed(fronts, bodies)) == Flatten(bodies)
    decreases |fronts|
  {
    if fronts != [] {
      var rest := Framed(fronts[1..], bodies[1..]);
      UndeliveredBodies(false, fronts[1..], bodies[1..]);
      OneRecord(first, fronts[0], bodies[0], rest);
    }
  }

  lemma OneRecord(first: bool, front: Bytes, body: Bytes, rest: Bytes)
    requires |front| == Discard(first) && |body| < 0x1_0000
    ensures Undelivered(0, first, front + Be16(|body| % 0x1_0000) + body + rest)
         == body + Undelivered(0, false, rest)
  {
    hide *;
    var size, both := Be16(|body| % 0x1_0000), body + rest;
    var stream := front + size + body + rest;
    RecordSlices(front, size, body, rest);
    SizeReads(|body|);
    NextRecord(first, stream);
    TakePart(|body|, false, both, |body|);
  }

  lemma SizeReads(n: nat)
    requires n < 0x1_0000
    ensures |Be16(n % 0x1_0000)| == 2 && FromBe16(Be16(n % 0x1_0000)) == n
  {
  }

  lemma NextRecord(first: bool, stream: Bytes)
    requires |stream| >= Discard(first) + 2
    ensures var d := Discard(first);
            Undelivered(0, first, stream) == Undelivered(FromBe16(stream[d..d + 2]), false, stream[d + 2..])
  {
  }

  lemma RecordSlices(front: Bytes, size: Bytes, body: Bytes, rest: Bytes)
    ensures var stream := front + size + body + rest;
            && stream[|front|..|front| + |size|] == size && stream[|front| + |size|..] == body + rest
    ensures (body + rest)[..|body|] == body && (body + rest)[|body|..] == rest
  {
  }

  // Reads, by how many bytes they consume and whether the connection underneath failed

  /** Where a connection is, and what is still to come on the stream. */
  datatype Position = Position(remain: nat, first: bool, stream: Bytes)

  function Ahead(p: Position): Bytes {
    Undelivered(p.remain, p.first, p.stream)
  }

  /** What one read returns; `failed` is what the caller is told. */
  datatype ReadResult = ReadResult(position: Position, returned: Bytes, failed: bool)

  /** The length of the next record, if enough of the stream is consumed to know it. */
  function NextLength(p: Position, k: nat): Option<nat> {
    var d := Discard(p.first);
    if d + 2 <= k <= |p.stream| then Some(FromBe16(p.stream[d..d + 2])) else None
  }

  /**
   Whether a read can consume `k` bytes, and fail underneath or not: in full reads it fails
   exactly if it comes short, in the one read of whatever there is it may fail at any point.
   */
  predicate CanRead(p: Position, capacity: nat, k: nat, broke: bool) {
    && k <= |p.stream|
    && if p.remain > 0 then k <= Min(p.remain, capacity) && (broke <==> k < Min(p.remain, capacity))
       else
         var d, length := Discard(p.first), NextLength(p, k);
         if length.None? then broke
         else if length.value > capacity then k <= d + 2 + capacity && (!broke && capacity > 0 ==> k > d + 2)
         else k <= d + 2 + length.value && (broke <==> k < d + 2 + length.value)
  }

  /** One read. A failure in a record that it has started abandons the record. */
  function ReadOnce(p: Position, capacity: nat, k: nat, broke: bool): ReadResult
    requires CanRead(p, capacity, k, broke)
  {
    var rest := p.stream[k..];
    if p.remain > 0 then ReadResult(Position(p.remain - k, p.first, rest), p.stream[..k], broke)
    else
      var d, length := Discard(p.first), NextLength(p, k);
      if length.None? then ReadResult(Position(0, false, rest), [], k < d)
      else
        var remain := if broke || length.value <= capacity then 0 else length.value - (k - d - 2);
        ReadResult(Position(remain, false, rest), p.stream[d + 2..k], broke)
  }

  /** A failure that the caller is not told about: exactly one in the length field. */
  lemma UnreportedIff(p: Position, capacity: nat, k: nat, broke: bool)
    requires CanRead(p, capacity, k, broke)
    ensures var r := ReadOnce(p, capacity, k, broke);
            && (broke && !r.failed <==> p.remain == 0 && Discard(p.first) <= k < Discard(p.first) + 2)
            && (broke && !r.failed ==> r.returned == [])
            && (r.failed ==> broke)
  {
  }

  /**
   The failures that lose nothing: those in a record that was started before, those at the end
   of the stream, and those before a record's last five header bytes, where the next read
   starts: at a record's boundary, or 102 bytes into the first response.
   */
  predicate Harmless(p: Position, k: nat, broke: bool)
    requires k <= |p.stream|
  {
    !broke || p.remain > 0 || k == |p.stream| || k + DISCARD == Discard(p.first)
  }

  /** What a read returns and what is ahead after it is what was ahead, unless it fails harmfully. */
  lemma HarmlessConserves(p: Position, capacity: nat, k: nat, broke: bool)
    requires CanRead(p, capacity, k, broke) && Harmless(p, k, broke)
    ensures var r := ReadOnce(p, capacity, k, broke); r.returned + Ahead(r.position) == Ahead(p)
  {
    hide Undelivered;
    var s, d := p.stream, Discard(p.first);
    if p.remain > 0 {
      TakePart(p.remain, p.first, s, k);
    } else if NextLength(p, k).None? {
      if k + DISCARD == d {
        LastHeader(p.first, s);
      } else {
        TooShort(p.first, s);
        assert s[k..] == [];
      }
    } else {
      var length := NextLength(p, k).value;
      NextRecord(p.first, s);
      assert s[d + 2..][..k - d - 2] == s[d + 2..k] && s[d + 2..][k - d - 2..] == s[k..];
      TakePart(length, false, s[d + 2..], k - d - 2);
      if broke {
        assert s[k..] == [];
        NothingLeft(length - (k - d - 2));
      }
    }
  }

  lemma NothingLeft(remain: nat)
    ensures Undelivered(remain, false, []) == Undelivered(0, false, []) == []
  {
  }

  lemma TooShort(first: bool, stream: Bytes)
    ensures |stream| < Discard(first) + 2 ==> Undelivered(0, first, stream) == []
    ensures Undelivered(0, false, []) == []
  {
  }

  /** The first response's header ends like any other. */
  lemma LastHeader(first: bool, stream: Bytes)
    requires Discard(first) - DISCARD <= |stream|
    ensures Undelivered(0, first, stream) == Undelivered(0, false, stream[Discard(first) - DISCARD..])
  {
    hide Undelivered, FromBe16;
    if !first {
      assert stream[0..] == stream;
      return;
    }
    var rest := stream[102..];
    if |stream| < 107 {
      TooShort(true, stream);
      TooShort(false, rest);
    } else {
      NextRecord(true, stream);
      NextRecord(false, rest);
      Shifted(stream, 102);
    }
  }

  lemma Shifted(stream: Bytes, m: nat)
    requires m + 5 <= |stream|
    ensures stream[m..][3..5] == stream[m + 3..m + 5] && stream[m..][5..] == stream[m + 5..]
  {
  }

  // Runs

  datatype Attempt = Attempt(capacity: nat, k: nat, broke: bool)

  /** A sequence of reads, each of which loses nothing. */
  predicate HarmlessRun(p: Position, attempts: seq<Attempt>)
    decreases |attempts|
  {
    attempts != [] ==>
      var a := attempts[0];
      && CanRead(p, a.capacity, a.k, a.broke) && Harmless(p, a.k, a.broke)
      && HarmlessRun(ReadOnce(p, a.capacity, a.k, a.broke).position, attempts[1..])
  }

  /** What the reads return in all, and where they leave the connection. */
  function ReadAll(p: Position, attempts: seq<Attempt>): (Bytes, Position)
    requires HarmlessRun(p, attempts)
    decreases |attempts|
  {
    if attempts == [] then ([], p) else
    var r := ReadOnce(p, attempts[0].capacity, attempts[0].k, attempts[0].broke);
    var (more, end) := ReadAll(r.position, attempts[1..]);
    (r.returned + more, end)
  }

  /**
   Over every run of reads, with any buffers, any portions and any failures of the harmless
   kinds, what was returned followed by what is ahead is all data of the stream.
   */
  lemma {:induction false} RunConserves(p: Position, attempts: seq<Attempt>)
    requires HarmlessRun(p, attempts)
    ensures var (returned, end) := ReadAll(p, attempts); returned + Ahead(end) == Ahead(p)
    decreases |attempts|
  {
    hide Ahead, CanRead, Harmless, ReadOnce;
    if attempts != [] {
      var a := attempts[0];
      var r := ReadOnce(p, a.capacity, a.k, a.broke);
      HarmlessConserves(p, a.capacity, a.k, a.broke);
      RunConserves(r.position, attempts[1..]);
      var (more, end) := ReadAll(r.position, attempts[1..]);
      assert (r.returned + more) + Ahead(end) == r.returned + (more + Ahead(end));
    } else {
      assert [] + Ahead(p) == Ahead(p);
    }
  }

  /** Reads that have consumed the whole stream have returned all its data. */
  lemma ReadsComplete(p: Position, attempts: seq<Attempt>)
    requires HarmlessRun(p, attempts) && ReadAll(p, attempts).1.stream == []
    ensures ReadAll(p, attempts).0 == Ahead(p)
  {
    hide Undelivered, HarmlessRun, ReadAll;
    RunConserves(p, attempts);
    var end := ReadAll(p, attempts).1;
    EmptyAhead(end);
    assert ReadAll(p, attempts).0 + [] == ReadAll(p, attempts).0;
  }

  lemma EmptyAhead(p: Position)
    requires p.stream == []
    ensures Ahead(p) == []
  {
  }

  /**
   A read that does not fail gets ahead: it consumes something and returns something, unless
   the caller's buffer or the record it starts is empty. It fills the buffer from the current
   record, takes a record that fits whole, and of one that does not fit as much as there is.
   */
  lemma ReadProgress(p: Position, capacity: nat, k: nat)
    requires CanRead(p, capacity, k, false)
    ensures var r := ReadOnce(p, capacity, k, false);
            && !r.failed && |r.returned| <= capacity
            && (p.remain > 0 ==> |r.returned| == if capacity < p.remain then capacity else p.remain)
            && (p.remain == 0 ==>
                && Discard(p.first) + 2 <= k <= |p.stream|
                && var d := Discard(p.first);
                   var length := 0x100 * p.stream[d] + p.stream[d + 1] as int;
                   && (length <= capacity ==> r.returned == p.stream[d + 2..d + 2 + length] && r.position.remain == 0)
                   && (length > capacity ==> r.position.remain == length - |r.returned|)
                   && (capacity > 0 && length > 0 ==> r.returned != []))
  {
    if p.remain == 0 {
      var d := Discard(p.first);
      assert p.stream[d..d + 2] == [p.stream[d], p.stream[d + 1]];
    }
  }

  // Failures that do lose data

  /** A stream with one record, whose header is all ones but for the length. */
  function OneByteRecord(first: bool): Bytes {
    seq(Discard(first), _ => 0xFF as Byte) + [0, 1, 42]
  }

  /** A read of `k` bytes that fails loses nothing, whatever the stream. */
  ghost predicate NeverLoses(first: bool, k: nat) {
    forall stream: Bytes, capacity: nat | CanRead(Position(0, first, stream), capacity, k, true) ::
      var p := Position(0, first, stream);
      var r := ReadOnce(p, capacity, k, true);
      r.returned + Ahead(r.position) == Ahead(p)
  }

  /**
   A failure in a record that the read itself has started loses nothing on any stream exactly
   if it comes 5 bytes before the header's end. A read that times out before any byte is
   harmless between records, but not before the first response; one that times out after 102
   bytes of the first response is harmless. Behind the last byte of the longest body a read
   does not fail.
   */
  lemma FailureIff(first: bool, k: nat)
    ensures NeverLoses(first, k) <==> k == (if first then 102 else 0) || k >= (if first then 107 else 5) + 0xFFFF
  {
    if k >= Discard(first) + 2 {
      if k < Discard(first) + 2 + 0xFFFF {
        BodyFailureLoses(first, 0xFFFF, k - Discard(first) - 2);
      }
    } else {
      HeaderFailureIff(first, k);
    }
  }

  lemma HeaderFailureIff(first: bool, k: nat)
    requires k < Discard(first) + 2
    ensures NeverLoses(first, k) <==> k + DISCARD == Discard(first)
  {
    if k + DISCARD == Discard(first) {
      forall stream: Bytes, capacity: nat | CanRead(Position(0, first, stream), capacity, k, true)
        ensures var p := Position(0, first, stream);
                var r := ReadOnce(p, capacity, k, true);
                r.returned + Ahead(r.position) == Ahead(p)
      {
        HarmlessConserves(Position(0, first, stream), capacity, k, true);
      }
    } else {
      var p := Position(0, first, OneByteRecord(first));
      assert CanRead(p, 1, k, true);
      HeaderFailureLoses(first, k);
    }
  }

  lemma HeaderFailureLoses(first: bool, k: nat)
    requires k < Discard(first) + 2 && k + DISCARD != Discard(first)
    ensures var p := Position(0, first, OneByteRecord(first));
            && Ahead(p) == [42] && CanRead(p, 1, k, true)
            && Ahead(ReadOnce(p, 1, k, true).position) != [42]
  {
    var stream, d := OneByteRecord(first), Discard(first);
    NextRecord(first, stream);
    OneByteSlices(first);
    var rest := stream[k..];
    if |rest| >= 5 {
      NextRecord(false, rest);
      assert rest[3..5] == [stream[k + 3], stream[k + 4]];
      TakeOnly(FromBe16(rest[3..5]), rest[5..]);
    }
  }

  lemma OneByteSlices(first: bool)
    ensures var stream, d := OneByteRecord(first), Discard(first);
            stream[d..d + 2] == [0, 1] && stream[d + 2..] == [42]
  {
    var ones: Bytes := seq(Discard(first), _ => 0xFF as Byte);
    RecordSlices(ones, [0, 1], [42], []);
    assert OneByteRecord(first) == ones + [0, 1] + [42] + [];
  }

  /** A record that reaches past the end of the stream gives all that is left. */
  lemma TakeOnly(length: nat, stream: Bytes)
    ensures 0 < length && |stream| <= length ==> Undelivered(length, false, stream) == stream
  {
  }

  /** A failure inside a body, with more of the stream to come, always loses data on some stream. */
  lemma BodyFailureLoses(first: bool, length: UInt16, consumed: nat)
    requires consumed < length
    ensures !NeverLoses(first, Discard(first) + 2 + consumed)
  {
    var d := Discard(first);
    var k := d + 2 + consumed;
    var body := seq(consumed, _ => 7 as Byte);
    var stream := seq(d, _ => 0xFF as Byte) + Be16(length) + body + [42];
    var p := Position(0, first, stream);
    RecordSlices(seq(d, _ => 0xFF as Byte), Be16(length), body, [42]);
    assert stream[d..d + 2] == Be16(length) && stream[d + 2..] == body + [42];
    assert NextLength(p, k) == Some(length as nat);
    assert CanRead(p, length, k, true);
    NextRecord(first, stream);
    TakeOnly(length, body + [42]);
    var r := ReadOnce(p, length, k, true);
    assert r.returned == body && r.position.stream == [42];
    assert Ahead(r.position) == [] && |Ahead(p)| == consumed + 1;
  }

  /** Not on every stream, though: on this one a failed read out of place delivers the same bytes. */
  lemma LossCanHide()
    ensures var p := Position(0, false, seq(263, _ => 1 as Byte));
            && CanRead(p, 10, 1, true) && !Harmless(p, 1, true)
            && |Ahead(p)| == 257 && Ahead(ReadOnce(p, 10, 1, true).position) == Ahead(p)
  {
    hide Undelivered;
    OnesAhead(seq(263, _ => 1 as Byte));
    OnesAhead(seq(263, _ => 1 as Byte)[1..]);
  }

  lemma OnesAhead(stream: Bytes)
    requires 262 <= |stream| <= 263 && forall i | 0 <= i < |stream| :: stream[i] == 1
    ensures Undelivered(0, false, stream) == seq(257, _ => 1 as Byte)
  {
    hide Undelivered;
    NextRecord(false, stream);
    assert stream[3..5] == [1, 1];
    var body := stream[5..];
    TakePart(257, false, body, 257);
    TooShort(false, body[257..]);
    assert body[..257] == seq(257, _ => 1 as Byte);
  }

  /**
   A failure in the length field that the caller is not told about, and the data it loses: the
   read returns nothing and no error, and the byte that was ahead is ahead no more.
   */
  lemma LostInHeader()
    ensures var p := Position(0, false, [0x17, 3, 3, 0, 1, 42]);
            && CanRead(p, 10, 4, true) && ReadOnce(p, 10, 4, true) == ReadResult(Position(0, false, [1, 42]), [], false)
            && Ahead(p) == [42] && Ahead(ReadOnce(p, 10, 4, true).position) == []
  {
    var stream: Bytes := [0x17, 3, 3, 0, 1, 42];
    NextRecord(false, stream);
    assert stream[3..5] == [0, 1] && stream[5..] == [42] && stream[4..] == [1, 42];
  }

  // Sending

  /** What a write is cut into. */
  function Chunks(b: Bytes): (r: seq<Bytes>)
    ensures Flatten(r) == b
    ensures forall i | 0 <= i < |r| :: 1 <= |r[i]| <= CHUNK
    ensures forall i | 0 <= i < |r| - 1 :: |r[i]| == 16384
    decreases |b|
  {
    if b == [] then [] else
    var n := Min(|b|, CHUNK);
    [b[..n]] + Chunks(b[n..])
  }

  const CIPHERS: Bytes := [
    0xc0, 0x2c, 0xc0, 0x30, 0x00, 0x9f, 0xcc, 0xa9, 0xcc, 0xa8, 0xcc, 0xaa, 0xc0, 0x2b, 0xc0, 0x2f,
    0x00, 0x9e, 0xc0, 0x24, 0xc0, 0x28, 0x00, 0x6b, 0xc0, 0x23, 0xc0, 0x27, 0x00, 0x67, 0xc0, 0x0a,
    0xc0, 0x14, 0x00, 0x39, 0xc0, 0x09, 0xc0, 0x13, 0x00, 0x33, 0x00, 0x9d, 0x00, 0x9c, 0x00, 0x3d,
    0x00, 0x3c, 0x00, 0x35, 0x00, 0x2f, 0x00, 0xff]

  const SIGNATURES: Bytes := [
    0x00, 0x1e, 0x06, 0x01, 0x06, 0x02, 0x06, 0x03, 0x05, 0x01, 0x05, 0x02, 0x05, 0x03, 0x04, 0x01,
    0x04, 0x02, 0x04, 0x03, 0x03, 0x01, 0x03, 0x02, 0x03, 0x03, 0x02, 0x01, 0x02, 0x02, 0x02, 0x03]

  const GROUPS: Bytes := [0x00, 0x08, 0x00, 0x1d, 0x00, 0x17, 0x00, 0x19, 0x00, 0x18]

  function Extensions(data: Bytes, server: Bytes): seq<Extension> {
    [Extension(SESSION_TICKET, data), Extension(SERVER_NAME, NameList(server)),
     Extension(0x0b, [0x03, 0x01, 0x00, 0x02]), Extension(0x0a, GROUPS)] + Trailer()
  }

  function Trailer(): seq<Extension> {
    [Extension(0x0d, SIGNATURES), Extension(0x16, []), Extension(0x17, [])]
  }

  function FirstHello(random: Bytes, session: Bytes, data: Bytes, server: Bytes): Hello {
    Hello([3, 3], random, session, CIPHERS, [0], Extensions(data, server))
  }

  lemma HelloLengths(random: Bytes, session: Bytes, data: Bytes, server: Bytes)
    requires |random| == |session| == 32
    ensures |EncodeExtensions(Extensions(data, server))| == 79 + |data| + |server|
    ensures |EncodeBody(FirstHello(random, session, data, server))| == 208 + |data| + |server|
  {
    hide EncodeExtensions;
    var e, t := Extensions(data, server), Trailer();
    assert e == [e[0], e[1], e[2], e[3]] + t && t == [t[0]] + [t[1], t[2]];
    TotalOfFour(e[0], e[1], e[2], e[3], t);
    ExtensionsConcat([t[0]], [t[1], t[2]]);
    TotalOfOne(t[0]);
    EncodedLength([t[0]]);
    TotalOfTwo(t[1], t[2]);
    assert |SIGNATURES| == 32 && |GROUPS| == 10 && |CIPHERS| == 56;
  }

  /**
   The hand-made ClientHello is well nested, and a parser consumes it exactly and gives back
   the data and the server name, exactly if data and name leave room for the rest.
   */
  lemma HelloRoundTripIff(random: Bytes, session: Bytes, data: Bytes, server: Bytes)
    requires |random| == |session| == 32
    ensures var h := FirstHello(random, session, data, server);
            && (Parse(EncodeMessage(h)) == Some(h) <==> 212 + |data| + |server| < 0x1_0000)
            && Lookup(h.extensions, SESSION_TICKET) == Some(data)
            && Lookup(h.extensions, SERVER_NAME) == Some(NameList(server))
            && (212 + |data| + |server| < 0x1_0000 ==> HostName(NameList(server)) == Some(server))
  {
    hide Parse, EncodeMessage, HostName, EncodeExtensions, EncodeBody;
    var h := FirstHello(random, session, data, server);
    HelloLengths(random, session, data, server);
    MessageRoundTripIff(h);
    assert h.extensions[0].kind == SESSION_TICKET && h.extensions[1].kind == SERVER_NAME;
    if 212 + |data| + |server| < 0x1_0000 {
      HostNameRoundTrip(server);
    }
  }

  /** Where the data and the server name lie in the message, counted from its start. */
  lemma HelloOnWire(random: Bytes, session: Bytes, data: Bytes, server: Bytes)
    requires |random| == |session| == 32 && 212 + |data| + |server| < 0x1_0000
    ensures var m, n := EncodeMessage(FirstHello(random, session, data, server)), |data|;
            && |m| == 217 + n + |server|
            && m[138..140] == [0, 0x23] && 0x100 * m[140] + m[141] as int == n && m[142..142 + n] == data
            && m[142 + n..144 + n] == [0, 0] && m[151 + n..151 + n + |server|] == server
  {
    hide EncodeExtensions, EncodeBody, EncodeMessage, Be16;
    var h, n := FirstHello(random, session, data, server), |data|;
    HelloLengths(random, session, data, server);
    MessageOnWire(h);
    var m := EncodeMessage(h);
    var later := EncodeExtensions(h.extensions[2..]);
    TwoExtensions(h.extensions);
    NameEncoded(server);
    TicketEncoded(data);
    var first := [0, 0x23] + Be16(n % 0x1_0000) + data;
    var second := [0, 0] + Be16((|server| + 5) % 0x1_0000) + Be16((|server| + 3) % 0x1_0000) + [0]
                  + Be16(|server| % 0x1_0000) + server;
    assert |CIPHERS| == 56;
    assert m[138..] == first + second + later;
    SizeReads(n);
    InFirst(m, first + second + later, n, Be16(n % 0x1_0000), data, second + later);
    InSecond(m, first, server, later, n);
  }

  lemma TwoExtensions(e: seq<Extension>)
    requires |e| >= 2
    ensures EncodeExtensions(e) == EncodeExtension(e[0]) + EncodeExtension(e[1]) + EncodeExtensions(e[2..])
  {
    hide EncodeExtension;
    assert e[1..][1..] == e[2..];
    assert EncodeExtensions(e[1..]) == EncodeExtension(e[1]) + EncodeExtensions(e[2..]);
  }

  lemma InFirst(m: Bytes, tail: Bytes, n: nat, size: Bytes, data: Bytes, rest: Bytes)
    requires |m| >= 138 && m[138..] == tail && |size| == 2 && |data| == n
    requires tail == [0, 0x23] + size + data + rest
    ensures |m| >= 142 + n && m[138..140] == [0, 0x23] && m[140] == size[0] && m[141] == size[1]
    ensures m[142..142 + n] == data
  {
    assert tail[..2] == [0, 0x23] && tail[4..4 + n] == data;
    assert m[138..140] == tail[..2] && m[142..142 + n] == tail[4..4 + n];
    assert m[140] == tail[2] && m[141] == tail[3];
  }

  lemma InSecond(m: Bytes, first: Bytes, server: Bytes, later: Bytes, n: nat)
    requires |m| >= 138 && |first| == 4 + n
    requires m[138..] == first + ([0, 0] + Be16((|server| + 5) % 0x1_0000) + Be16((|server| + 3) % 0x1_0000) + [0]
                                  + Be16(|server| % 0x1_0000) + server) + later
    ensures |m| >= 151 + n + |server| && m[142 + n..144 + n] == [0, 0] && m[151 + n..151 + n + |server|] == server
  {
    hide Be16;
    var tail := m[138..];
    assert tail[4 + n..6 + n] == [0, 0] && tail[13 + n..13 + n + |server|] == server;
    assert m[142 + n..144 + n] == tail[4 + n..6 + n];
    assert m[151 + n..151 + n + |server|] == tail[13 + n..13 + n + |server|];
  }

  /**
   `wire` is what a sequence of writes sends: nothing until there is data, then a ClientHello
   with the first chunk, and a record for each later one.
   */
  ghost predicate SendsFirst(server: Bytes, chunks: seq<Bytes>, wire: Bytes) {
    if chunks == [] then wire == []
    else exists random: Bytes, session: Bytes ::
      && |random| == |session| == 32
      && wire == EncodeMessage(FirstHello(random, session, chunks[0], server)) + PackAll(chunks[1..])
  }

  /** After the first chunk, what one end sends is what the other end delivers. */
  lemma {:induction false} RecordsDelivered(chunks: seq<Bytes>)
    requires forall i | 0 <= i < |chunks| :: 1 <= |chunks[i]| <= CHUNK
    ensures Undelivered(0, false, PackAll(chunks)) == Flatten(chunks)
  {
    if chunks != [] {
      RecordsDelivered(chunks[1..]);
      OneRecord(false, [0x17, 3, 3], chunks[0], PackAll(chunks[1..]));
      assert Pack(chunks[0]) == [0x17, 3, 3] + Be16(|chunks[0]| % 0x1_0000) + chunks[0];
    }
  }

  /** All chunks of a sequence of writes. */
  function AllChunks(writes: seq<Bytes>): (r: seq<Bytes>)
    ensures Flatten(r) == Flatten(writes)
    ensures forall i | 0 <= i < |r| :: 1 <= |r[i]| <= CHUNK
  {
    if writes == [] then [] else
    FlattenConcat(Chunks(writes[0]), AllChunks(writes[1..]));
    Chunks(writes[0]) + AllChunks(writes[1..])
  }

  /**
   Round trip of all writes: the peer finds the first chunk as the ticket of the ClientHello,
   and de-framing what follows the ClientHello delivers the rest, in order.
   */
  lemma WritesRoundTrip(server: Bytes, writes: seq<Bytes>, wire: Bytes)
    requires |server| <= 48939 && Flatten(writes) != []
    requires SendsFirst(server, AllChunks(writes), wire)
    ensures exists h, rest :: FoundAhead(server, writes, wire, h, rest)
  {
    hide *;
    var chunks := AllChunks(writes);
    NoChunks();
    FirstAndRest(chunks);
    var random, session := FirstMessage(server, chunks, wire);
    HelloFits(server, chunks);
    HelloRoundTripIff(random, session, chunks[0], server);
    RecordsDelivered(chunks[1..]);
    Found(server, writes, wire, FirstHello(random, session, chunks[0], server), chunks);
  }

  lemma NoChunks()
    ensures Flatten([]) == []
  {
  }

  lemma FirstAndRest(chunks: seq<Bytes>)
    ensures chunks != [] ==> Flatten(chunks) == chunks[0] + Flatten(chunks[1..])
  {
  }

  lemma HelloFits(server: Bytes, chunks: seq<Bytes>)
    requires |server| <= 48939 && chunks != [] && |chunks[0]| <= CHUNK
    ensures 212 + |chunks[0]| + |server| < 0x1_0000
  {
  }

  lemma FirstMessage(server: Bytes, chunks: seq<Bytes>, wire: Bytes) returns (random: Bytes, session: Bytes)
    requires chunks != [] && SendsFirst(server, chunks, wire)
    ensures |random| == |session| == 32
    ensures wire == EncodeMessage(FirstHello(random, session, chunks[0], server)) + PackAll(chunks[1..])
  {
    hide EncodeMessage, FirstHello, PackAll;
    random, session :| |random| == |session| == 32
      && wire == EncodeMessage(FirstHello(random, session, chunks[0], server)) + PackAll(chunks[1..]);
  }

  lemma Found(server: Bytes, writes: seq<Bytes>, wire: Bytes, h: Hello, chunks: seq<Bytes>)
    requires chunks != [] && Flatten(writes) == chunks[0] + Flatten(chunks[1..])
    requires wire == EncodeMessage(h) + PackAll(chunks[1..]) && Parse(EncodeMessage(h)) == Some(h)
    requires Lookup(h.extensions, SESSION_TICKET) == Some(chunks[0])
    requires Lookup(h.extensions, SERVER_NAME) == Some(NameList(server)) && HostName(NameList(server)) == Some(server)
    requires Undelivered(0, false, PackAll(chunks[1..])) == Flatten(chunks[1..])
    ensures exists h, rest :: FoundAhead(server, writes, wire, h, rest)
  {
    hide EncodeMessage, PackAll, Lookup, HostName, Parse, Undelivered, Flatten, NameList;
    assert FoundAhead(server, writes, wire, h, PackAll(chunks[1..]));
  }

  ghost predicate FoundAhead(server: Bytes, writes: seq<Bytes>, wire: Bytes, h: Hello, rest: Bytes) {
    && wire == EncodeMessage(h) + rest
    && Parse(EncodeMessage(h)) == Some(h)
    && var ticket, name := Lookup(h.extensions, SESSION_TICKET), Lookup(h.extensions, SERVER_NAME);
       && ticket.Some? && name.Some? && HostName(name.value) == Some(server)
       && ticket.value + Undelivered(0, false, rest) == Flatten(writes)
  }
}
