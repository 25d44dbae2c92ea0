/** The simple-obfs TLS connection as its source updates it. */
module SimpleObfs {
  import opened Octets
  import opened Buffers
  import opened TlsRecords
  import opened ClientHello
  import opened SimpleObfsSpec

  /** The connection underneath: a stream that comes in portions of any size, until it fails. */
  class Peer {
    var incoming: Bytes

    constructor (incoming: Bytes)
      ensures this.incoming == incoming
    {
      this.incoming := incoming;
    }

    method Read(max: nat) returns (b: Bytes, failed: bool)
      modifies this
      ensures |b| <= max && b <= old(incoming) && incoming == old(incoming)[|b|..]
      ensures !failed && max > 0 ==> b != []
    {
      failed := *;
      var n := Intn(Min(|incoming|, max) + 1);
      if n == 0 && max > 0 {
        failed := true;
      }
      b := incoming[..n];
      incoming := incoming[n..];
    }

    /** Reads until `n` bytes have come in, or fails on the way there. */
    method ReadFull(n: nat) returns (b: Bytes, failed: bool)
      modifies this
      ensures b <= old(incoming) && incoming == old(incoming)[|b|..]
      ensures |b| <= n && (failed <==> |b| < n)
    {
      b, failed := [], false;
      while |b| < n && !failed
        invariant |b| <= n && b <= old(incoming) && incoming == old(incoming)[|b|..]
        decreases n - |b|, !failed
      {
        var more;
        more, failed := Read(n - |b|);
        b := b + more;
      }
      failed := |b| < n;
    }
  }

  class TLSObfs {
    const peer: Peer
    const server: Bytes
    var remain: nat
    var firstRequest: bool
    var firstResponse: bool
    /** A read has failed in a way that may lose data. */
    ghost var harmed: bool
    /** The chunks sent so far, and what was sent for them, until a write fails. */
    ghost var sent: seq<Bytes>
    ghost var wire: Bytes
    ghost var broken: bool
    /** What all reads so far have returned, and all the data of the stream. */
    ghost var returned: Bytes
    ghost const promised: Bytes

    ghost predicate Valid()
      reads this
    {
      !broken ==> SendsFirst(server, sent, wire) && (firstRequest <==> sent == [])
    }

    ghost function At(): Position
      reads this, peer
    {
      Position(remain, firstResponse, peer.incoming)
    }

    /** Nothing is lost, repeated or reordered. */
    ghost predicate Conserved()
      reads this, peer
    {
      !harmed ==> returned + Ahead(At()) == promised
    }

    constructor (peer: Peer, server: Bytes)
      ensures Conserved() && returned == [] && promised == Undelivered(0, true, peer.incoming)
      ensures Valid() && this.peer == peer && this.server == server
      ensures remain == 0 && firstRequest && firstResponse && !harmed && !broken && sent == []
    {
      this.peer, this.server := peer, server;
      remain, firstRequest, firstResponse := 0, true, true;
      harmed, broken, sent, wire := false, false, [], [];
      returned, promised := [], Undelivered(0, true, peer.incoming);
    }

    /** Starts on the next record. A failure while reading its length is not reported. */
    method ReadRecord(capacity: nat, discard: nat) returns (b: Bytes, failed: bool, ghost k: nat, ghost broke: bool)
      requires remain == 0 && !firstResponse
      requires discard == FIRST_DISCARD || discard == DISCARD
      modifies this`remain, peer
      ensures var p := Position(0, discard == FIRST_DISCARD, old(peer.incoming));
              && CanRead(p, capacity, k, broke)
              && ReadOnce(p, capacity, k, broke) == ReadResult(At(), b, failed)
    {
      hide FromBe16;
      ghost var s0 := peer.incoming;
      var dropped;
      dropped, failed := peer.ReadFull(discard);
      k, broke := |dropped|, failed;
      if failed {
        return [], true, k, broke;
      }
      var sizeBuf;
      sizeBuf, failed := peer.ReadFull(2);
      k, broke := discard + |sizeBuf|, failed;
      assert peer.incoming == s0[k..];
      if failed {
        return [], false, k, broke;
      }
      assert sizeBuf == s0[discard..discard + 2];
      var length: nat := FromBe16(sizeBuf);
      if length > capacity {
        b, failed := peer.Read(capacity);
        if !failed {
          remain := length - |b|;
        }
      } else {
        b, failed := peer.ReadFull(length);
      }
      k, broke := discard + 2 + |b|, failed;
      assert b == s0[discard + 2..k] && peer.incoming == s0[k..];
    }

    /** Goes on with the current record, or starts on the next. */
    method ReadSome(capacity: nat) returns (b: Bytes, failed: bool, ghost k: nat, ghost broke: bool)
      modifies this`remain, this`firstResponse, peer
      ensures CanRead(old(At()), capacity, k, broke)
      ensures ReadOnce(old(At()), capacity, k, broke) == ReadResult(At(), b, failed)
    {
      hide CanRead, ReadOnce;
      if remain > 0 {
        ghost var p := At();
        var length := remain;
        if length > capacity {
          length := capacity;
        }
        b, failed := peer.ReadFull(length);
        k, broke := |b|, failed;
        remain := remain - |b|;
        GoingOn(p, capacity, k, broke);
        return;
      }
      if firstResponse {
        firstResponse := false;
        b, failed, k, broke := ReadRecord(capacity, 105);
        return;
      }
      b, failed, k, broke := ReadRecord(capacity, 3);
    }

    /**
     One read: the specified step for some number of bytes consumed. All that was returned,
     followed by what is ahead, is all data of the stream, until a read fails harmfully.
     */
    method Read(capacity: nat) returns (b: Bytes, failed: bool, ghost k: nat, ghost broke: bool)
      requires Conserved()
      modifies this`remain, this`firstResponse, this`harmed, this`returned, peer
      ensures Conserved() && returned == old(returned) + b
      ensures CanRead(old(At()), capacity, k, broke)
      ensures ReadOnce(old(At()), capacity, k, broke) == ReadResult(At(), b, failed)
      ensures harmed == (old(harmed) || !Harmless(old(At()), k, broke))
    {
      hide CanRead, ReadOnce, Harmless, Ahead;
      ghost var p := At();
      b, failed, k, broke := ReadSome(capacity);
      Consumed(p, capacity, k, broke);
      harmed := harmed || !Harmless(p, k, broke);
      if !harmed {
        HarmlessConserves(p, capacity, k, broke);
        assert returned + (b + Ahead(At())) == (returned + b) + Ahead(At());
      }
      returned := returned + b;
    }

    /** The first chunk travels inside the ClientHello. */
    method WriteFirst(b: Bytes) returns (failed: bool)
      requires Valid() && firstRequest
      modifies this`firstRequest, this`sent, this`wire, this`broken
      ensures Valid() && !firstRequest && broken == (old(broken) || failed)
      ensures sent == if failed then old(sent) else old(sent) + [b]
    {
      hide SendsFirst, EncodeMessage, FirstHello;
      ghost var random, session, before := [], [], wire;
      var helloMsg;
      helloMsg, random, session := MakeClientHelloMsg(b, server);
      failed := Transmit(helloMsg, b);
      firstRequest := false;
      if !broken {
        NoneSent(server, before, helloMsg);
        assert [] + [b] == [b];
        StartsSending(server, random, session, b, wire);
      }
    }

    /** One chunk: inside the ClientHello if it is the first, else as a record. */
    method WriteChunk(b: Bytes) returns (n: nat, failed: bool)
      requires Valid()
      modifies this`firstRequest, this`sent, this`wire, this`broken
      ensures Valid() && n == |b| && !firstRequest && broken == (old(broken) || failed)
      ensures sent == if failed then old(sent) else old(sent) + [b]
    {
      hide SendsFirst, Be16;
      if firstRequest {
        failed := WriteFirst(b);
        return |b|, failed;
      }
      var buf := new Buffer();
      buf.Write([0x17, 0x03, 0x03]);
      buf.Write(Be16(|b| % 0x1_0000));
      buf.Write(b);
      assert buf.data == Pack(b);
      ghost var before, sentBefore := wire, sent;
      failed := Transmit(buf.data, b);
      if !broken {
        GoesOnSending(server, sentBefore, before, b);
      }
      n := |b|;
    }

    method Transmit(message: Bytes, ghost chunk: Bytes) returns (failed: bool)
      modifies this`sent, this`wire, this`broken
      ensures broken == (old(broken) || failed)
      ensures sent == if failed then old(sent) else old(sent) + [chunk]
      ensures !failed ==> wire == old(wire) + message
    {
      failed := *;
      if failed {
        broken := true;
      } else {
        sent, wire := sent + [chunk], wire + message;
      }
    }

    /** Sends the chunks in order and stops at the first failure. */
    method Write(b: Bytes) returns (n: nat, failed: bool)
      requires Valid()
      modifies this`firstRequest, this`sent, this`wire, this`broken
      ensures Valid() && broken == (old(broken) || failed)
      ensures !failed ==> n == |b| && sent == old(sent) + Chunks(b)
      ensures failed ==> exists i: nat :: i < |Chunks(b)| && sent == old(sent) + Chunks(b)[..i] && n == |Chunks(b)[i]|
    {
      hide SendsFirst, Chunks;
      var length, i := |b|, 0;
      ghost var done, s0 := [], sent;
      Nothing(b, s0);
      while i < length
        invariant Valid() && broken == old(broken)
        invariant sent == s0 + done && done + Chunks(b[if i < length then i else length..]) == Chunks(b)
        decreases length - i
      {
        var end := i + CHUNK;
        if end > length {
          end := length;
        }
        ChunksUnfold(b, i, end, done);
        n, failed := WriteChunk(b[i..end]);
        if failed {
          StillToSend(s0, done, b[i..end], Chunks(b[end..]), Chunks(b));
          return;
        }
        OneMore(s0, done, b[i..end]);
        done := done + [b[i..end]];
        i := i + CHUNK;
      }
      ChunksEnd(b);
      assert done + [] == done;
      n, failed := length, false;
    }
  }

  lemma Nothing(b: Bytes, s0: seq<Bytes>)
    ensures b[0..] == b && [] + Chunks(b) == Chunks(b) && s0 + [] == s0
    ensures b == [] ==> b[|b|..] == b
  {
  }

  lemma StillToSend(s0: seq<Bytes>, done: seq<Bytes>, chunk: Bytes, rest: seq<Bytes>, all: seq<Bytes>)
    requires all == done + [chunk] + rest
    ensures |done| < |all| && s0 + done == s0 + all[..|done|] && all[|done|] == chunk
  {
    assert all[..|done|] == done;
  }

  lemma OneMore(s0: seq<Bytes>, done: seq<Bytes>, chunk: Bytes)
    ensures s0 + done + [chunk] == s0 + (done + [chunk])
  {
  }

  lemma ChunksUnfold(b: Bytes, i: nat, end: nat, done: seq<Bytes>)
    requires i < |b| && end == Min(i + CHUNK, |b|)
    ensures Chunks(b[i..]) == [b[i..end]] + Chunks(b[end..])
    ensures done + Chunks(b[i..]) == done + [b[i..end]] + Chunks(b[end..])
    ensures end == |b| ==> Chunks(b[end..]) == []
  {
    assert b[i..][..end - i] == b[i..end] && b[i..][end - i..] == b[end..];
  }

  lemma ChunksEnd(b: Bytes)
    ensures Chunks(b[|b|..]) == []
  {
  }

  lemma NoneSent(server: Bytes, wire: Bytes, message: Bytes)
    ensures [] + message == message
    ensures SendsFirst(server, [], wire) ==> wire == []
  {
  }

  lemma StartsSending(server: Bytes, random: Bytes, session: Bytes, b: Bytes, wire: Bytes)
    requires |random| == |session| == 32 && wire == EncodeMessage(FirstHello(random, session, b, server))
    ensures SendsFirst(server, [b], wire)
  {
    hide EncodeMessage, FirstHello;
    assert PackAll([b][1..]) == [] && wire + [] == wire;
  }

  lemma GoesOnSending(server: Bytes, chunks: seq<Bytes>, wire: Bytes, b: Bytes)
    requires chunks != [] && SendsFirst(server, chunks, wire)
    ensures SendsFirst(server, chunks + [b], wire + Pack(b))
  {
    hide EncodeMessage, FirstHello, PackAll, Pack;
    var random, session := FirstMessage(server, chunks, wire);
    assert (chunks + [b])[1..] == chunks[1..] + [b];
    PackAllConcat(chunks[1..], [b]);
    PackAllOne(b);
    var message := EncodeMessage(FirstHello(random, session, chunks[0], server));
    assert message + PackAll(chunks[1..]) + Pack(b) == message + (PackAll(chunks[1..]) + Pack(b));
  }

  /** The headers of the record and of the handshake message. */
  method WriteFront(buf: Buffer, record: nat, message: nat)
    requires buf.data == []
    modifies buf
    ensures buf.data == [] + [22, 3, 1] + Be16(record % 0x1_0000) + [1, 0] + Be16(message % 0x1_0000)
  {
    buf.Write([22]);
    buf.Write([0x03, 0x01]);
    var length := record % 0x1_0000;
    buf.Write([length / 0x100]);
    buf.Write([length % 0x100]);
    assert buf.data == [] + [22, 3, 1] + Be16(length);
    buf.Write([1]);
    buf.Write([0]);
    buf.Write(Be16(message % 0x1_0000));
  }

  /** Everything up to the extensions; the lengths are worked out by hand. */
  method WriteHead(buf: Buffer, data: Bytes, server: Bytes) returns (ghost random: Bytes, ghost session: Bytes)
    requires buf.data == []
    modifies buf
    ensures |random| == |session| == 32
    ensures buf.data + EncodeExtensions(Extensions(data, server))
         == EncodeMessage(FirstHello(random, session, data, server))
  {
    hide EncodeMessage, EncodeExtensions, Extensions, FirstHello, Be16;
    var sessionID := RandBytes(32);
    WriteFront(buf, 212 + |data| + |server|, 208 + |data| + |server|);
    ghost var front := buf.data;
    buf.Write([0x03, 0x03]);
    var now := RandBytes(4);
    var noise := RandBytes(28);
    buf.Write(now);
    buf.Write(noise);
    random, session := now + noise, sessionID;
    assert buf.data == front + [3, 3] + random;
    buf.Write([32]);
    buf.Write(sessionID);
    buf.Write([0x00, 0x38]);
    buf.Write(CIPHERS);
    buf.Write([0x01, 0x00]);
    buf.Write(Be16((79 + |data| + |server|) % 0x1_0000));
    HeadOfHello(front, random, session, data, server);
  }

  lemma HeadOfHello(front: Bytes, random: Bytes, session: Bytes, data: Bytes, server: Bytes)
    requires |random| == |session| == 32
    requires front == [] + [22, 3, 1] + Be16((212 + |data| + |server|) % 0x1_0000) + [1, 0]
                      + Be16((208 + |data| + |server|) % 0x1_0000)
    ensures front + [3, 3] + random + [32] + session + [0x00, 0x38] + CIPHERS + [0x01, 0x00]
            + Be16((79 + |data| + |server|) % 0x1_0000) + EncodeExtensions(Extensions(data, server))
         == EncodeMessage(FirstHello(random, session, data, server))
  {
    hide EncodeExtensions, Extensions, Be16, EncodeMessage;
    var e := EncodeExtensions(Extensions(data, server));
    HelloLengths(random, session, data, server);
    MessageOf(FirstHello(random, session, data, server));
    Vectors(session);
    InOrder(front, [3, 3], random, [32], session, [0x00, 0x38], CIPHERS, [0x01, 0x00], Be16(|e| % 0x1_0000), e);
  }

  lemma InOrder(
    front: Bytes, a: Bytes, b: Bytes, c: Bytes, d: Bytes, e: Bytes, f: Bytes, g: Bytes, h: Bytes, i: Bytes)
    ensures front + a + b + c + d + e + f + g + h + i
         == front + (a + (b + ((c + d) + ((e + f) + (g + (h + i))))))
  {
    assert front + a + b + c + d + e + f + g + h + i == front + (a + (b + (c + d + e + f + g + h + i)));
    assert c + d + e + f + g + h + i == (c + d) + ((e + f) + (g + (h + i)));
  }

  lemma Vectors(session: Bytes)
    requires |session| == 32
    ensures Vec8(session) == [32] + session && Vec16(CIPHERS) == [0x00, 0x38] + CIPHERS && Vec8([0]) == [1, 0]
  {
  }

  method MakeClientHelloMsg(data: Bytes, server: Bytes)
    returns (message: Bytes, ghost random: Bytes, ghost session: Bytes)
    ensures |random| == |session| == 32
    ensures message == EncodeMessage(FirstHello(random, session, data, server))
    ensures 212 + |data| + |server| < 0x1_0000 ==>
              var h := Parse(message);
              && h.Some? && Lookup(h.value.extensions, SESSION_TICKET) == Some(data)
              && Lookup(h.value.extensions, SERVER_NAME) == Some(NameList(server))
  {
    hide EncodeMessage, EncodeExtensions, EncodeExtension, FirstHello, Parse, Lookup, NameList;
    var buf := new Buffer();
    random, session := WriteHead(buf, data, server);
    ghost var head := buf.data;
    ghost var done: seq<Extension> := [];
    StartExtensions(head);
    TicketEncoded(data);
    NameEncoded(server);
    Literals();
    done := WriteExtension(buf, [0x00, 0x23] + Be16(|data| % 0x1_0000) + data, head, done,
                           Extension(SESSION_TICKET, data));
    done := WriteExtension(buf,
      [0x00, 0x00] + Be16((|server| + 5) % 0x1_0000) + Be16((|server| + 3) % 0x1_0000) + [0]
      + Be16(|server| % 0x1_0000) + server,
      head, done, Extension(SERVER_NAME, NameList(server)));
    done := WriteExtension(buf, [0x00, 0x0b, 0x00, 0x04, 0x03, 0x01, 0x00, 0x02], head, done,
                           Extension(0x0b, [0x03, 0x01, 0x00, 0x02]));
    done := WriteExtension(buf, [0x00, 0x0a, 0x00, 0x0a] + GROUPS, head, done, Extension(0x0a, GROUPS));
    done := WriteExtension(buf, [0x00, 0x0d, 0x00, 0x20] + SIGNATURES, head, done, Extension(0x0d, SIGNATURES));
    done := WriteExtension(buf, [0x00, 0x16, 0x00, 0x00], head, done, Extension(0x16, []));
    done := WriteExtension(buf, [0x00, 0x17, 0x00, 0x00], head, done, Extension(0x17, []));
    assert done == Extensions(data, server);
    message := buf.data;
    HelloRoundTripIff(random, session, data, server);
  }

  lemma StartExtensions(head: Bytes)
    ensures head == head + EncodeExtensions([])
  {
  }

  lemma Literals()
    ensures [0x00, 0x0b, 0x00, 0x04, 0x03, 0x01, 0x00, 0x02]
         == EncodeExtension(Extension(0x0b, [0x03, 0x01, 0x00, 0x02]))
    ensures [0x00, 0x0a, 0x00, 0x0a] + GROUPS == EncodeExtension(Extension(0x0a, GROUPS))
    ensures [0x00, 0x0d, 0x00, 0x20] + SIGNATURES == EncodeExtension(Extension(0x0d, SIGNATURES))
    ensures [0x00, 0x16, 0x00, 0x00] == EncodeExtension(Extension(0x16, []))
    ensures [0x00, 0x17, 0x00, 0x00] == EncodeExtension(Extension(0x17, []))
  {
  }

  lemma GoingOn(p: Position, capacity: nat, k: nat, broke: bool)
    requires p.remain > 0 && k <= |p.stream| && k <= Min(p.remain, capacity)
    requires broke <==> k < Min(p.remain, capacity)
    ensures CanRead(p, capacity, k, broke)
    ensures ReadOnce(p, capacity, k, broke)
         == ReadResult(Position(p.remain - k, p.first, p.stream[k..]), p.stream[..k], broke)
  {
  }

  lemma Consumed(p: Position, capacity: nat, k: nat, broke: bool)
    requires CanRead(p, capacity, k, broke)
    ensures k <= |p.stream|
  {
  }
}
