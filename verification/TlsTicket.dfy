/** The tls1.2_ticket_auth client connection as its source updates it. */
module TlsTicket {
  import opened Octets
  import opened Buffers
  import opened Protocol
  import opened StreamDecoder
  import opened StreamConn
  import opened TlsRecords
  import opened ClientHello
  import opened TlsTicketSpec

  datatype ReadFailure = Transport | IncorrectMagic | TooShort | HmacMismatch

  function AsFailure(e: ReadError<Error>): ReadFailure {
    if e.Transport? then ReadFailure.Transport else IncorrectMagic
  }

  /** How a read of the handshake itself fails, if it does. */
  function HandshakeFailure(cfg: Config, chunk: Bytes): Option<ReadFailure> {
    if |chunk| < 11 + 32 + 1 + 32 then Some(TooShort)
    else if !Accepts(cfg, chunk) then Some(HmacMismatch)
    else None
  }

  /** Which failure it is: by size alone, or else by the two MACs. */
  lemma FailureCases(cfg: Config, chunk: Bytes)
    ensures HandshakeFailure(cfg, chunk) == Some(TooShort) <==> |chunk| < 76
    ensures HandshakeFailure(cfg, chunk) == Some(HmacMismatch) <==> |chunk| >= 76 && !Accepts(cfg, chunk)
    ensures HandshakeFailure(cfg, chunk) == None <==> Accepts(cfg, chunk)
    ensures AsFailure(ReadError<Error>.Transport) == ReadFailure.Transport
    ensures AsFailure(Decoding(BadMagic)) == IncorrectMagic
  {
  }

  method PackData(buf: Buffer, data: Bytes)
    modifies buf
    ensures buf.data == old(buf.data) + Pack(data)
  {
    ghost var was := buf.data;
    buf.Write([0x17, 3, 3]);
    buf.Write(Be16(|data| % 0x1_0000));
    buf.Write(data);
    assert was + [0x17, 3, 3] + Be16(|data| % 0x1_0000) + data == was + Pack(data);
  }

  class TicketConn {
    const cfg: Config
    var handshakeStatus: Status
    const decoded: Buffer
    const underDecoded: Buffer
    const sendBuf: Buffer
    ghost var wire: Bytes
    ghost var written: Bytes
    ghost var intact: bool

    ghost function State(): Session
      reads this, decoded, underDecoded, sendBuf
    {
      Session(handshakeStatus, sendBuf.data, Conn(), wire, written, intact)
    }

    ghost function Conn(): ConnState<()>
      reads decoded, underDecoded
    {
      ConnState(Decoder((), false), decoded.data, underDecoded.data)
    }

    ghost predicate Valid()
      reads this, decoded, underDecoded, sendBuf
    {
      decoded != underDecoded && decoded != sendBuf && underDecoded != sendBuf && Inv(cfg, State())
    }

    constructor (cfg: Config)
      ensures this.cfg == cfg && Valid() && State() == Init()
      ensures fresh(decoded) && fresh(underDecoded) && fresh(sendBuf)
    {
      this.cfg := cfg;
      handshakeStatus := 0;
      decoded := new Buffer();
      underDecoded := new Buffer();
      sendBuf := new Buffer();
      wire, written, intact := [], [], true;
    }

    /** Sends a message; a failing transport may take part of it. */
    method Transmit(message: Bytes) returns (ok: bool, ghost sent: nat)
      modifies this`wire, this`intact
      ensures forall c: Choice :: c.ok == ok && c.sent == sent ==> wire == old(wire) + Sent(message, c)
      ensures intact == (old(intact) && ok)
    {
      ok := *;
      sent :| sent >= 0;
      ghost var part := if ok then message else message[..Min(sent, |message|)];
      wire := wire + part;
      intact := intact && ok;
    }

    /** Cuts data into records: at random sizes while more than 2048 bytes are left. */
    method PackRecords(buf: Buffer, data: Bytes) returns (ghost pieces: seq<Bytes>)
      modifies buf
      ensures Splits(data, pieces) && buf.data == old(buf.data) + PackAll(pieces)
    {
      hide Pack, PackAll, Splits, Continues;
      var b := data;
      pieces := [];
      NothingPacked();
      SplitStart(data, pieces);
      while |b| > 2048
        invariant buf.data == old(buf.data) + PackAll(pieces)
        invariant Continues(data, pieces, b)
        decreases |b|
      {
        var size := Intn(4096);
        size := size + 100;
        if |b| < size {
          size := |b|;
        }
        PackData(buf, b[..size]);
        SplitFurther(data, b, pieces, size);
        PackOneMore(pieces, b[..size]);
        pieces := pieces + [b[..size]];
        b := b[size..];
      }
      SplitEnd(data, pieces, b);
      if |b| > 0 {
        PackData(buf, b);
        PackOneMore(pieces, b);
        pieces := pieces + [b];
      }
    }

    lemma NothingPacked()
      ensures PackAll([]) == []
    {
    }

    lemma PackOneMore(pieces: seq<Bytes>, piece: Bytes)
      ensures PackAll(pieces + [piece]) == PackAll(pieces) + Pack(piece)
    {
      hide Pack;
      PackAllOne(piece);
      PackAllConcat(pieces, [piece]);
    }

    /** Any cutting of `b` completes `pieces` to a cutting of `data`. */
    ghost predicate Continues(data: Bytes, pieces: seq<Bytes>, b: Bytes) {
      forall tail :: Splits(b, tail) ==> Splits(data, pieces + tail)
    }

    lemma SplitStart(data: Bytes, pieces: seq<Bytes>)
      requires pieces == []
      ensures Continues(data, pieces, data)
    {
      forall tail | Splits(data, tail) ensures Splits(data, pieces + tail) {
        assert pieces + tail == tail;
      }
    }

    lemma SplitEnd(data: Bytes, pieces: seq<Bytes>, b: Bytes)
      requires Continues(data, pieces, b) && |b| <= 2048
      ensures Splits(data, if b == [] then pieces else pieces + [b])
    {
      assert Splits(b, if b == [] then [] else [b]);
      assert pieces + [] == pieces;
    }

    lemma SplitFurther(data: Bytes, b: Bytes, pieces: seq<Bytes>, size: nat)
      requires |b| > 2048 && Min(|b|, 100) <= size < 4096 + 100 && size <= |b|
      requires Continues(data, pieces, b)
      ensures Continues(data, pieces + [b[..size]], b[size..])
    {
      hide Splits;
      forall tail | Splits(b[size..], tail) ensures Splits(data, pieces + [b[..size]] + tail) {
        SplitOnce(b, size, tail);
        assert pieces + [b[..size]] + tail == pieces + ([b[..size]] + tail);
      }
    }

    lemma SplitOnce(b: Bytes, size: nat, tail: seq<Bytes>)
      requires |b| > 2048 && Min(|b|, 100) <= size < 4096 + 100 && size <= |b|
      requires Splits(b[size..], tail)
      ensures Splits(b, [b[..size]] + tail)
    {
      assert ([b[..size]] + tail)[1..] == tail;
    }

    /** The authenticating random field: a stamp and its MAC. */
    method PackAuthData(buf: Buffer) returns (ghost stamp: Bytes)
      modifies buf
      ensures |stamp| == 22 && buf.data == old(buf.data) + (stamp + cfg.mac(stamp))
    {
      ghost var was := buf.data;
      var now := RandBytes(4);
      buf.Write(now);
      var noise := RandBytes(18);
      buf.Write(noise);
      stamp := now + noise;
      assert buf.data == was + stamp;
      BodyAtEnd(was, stamp);
      buf.Write(cfg.mac(buf.data[|buf.data| - 22..]));
      assert was + stamp + cfg.mac(stamp) == was + (stamp + cfg.mac(stamp));
    }

    /** The extensions of the first flight, one write after another. */
    method PackExtensions(ext: Buffer, host: Bytes) returns (ghost ticket: Bytes)
      requires ext.data == []
      modifies ext
      ensures 128 <= |ticket| <= 384
      ensures ext.data == EncodeExtensions(Extensions(host, ticket))
    {
      hide EncodeExtensions, EncodeExtension, NameList, Be16;
      ghost var done: seq<Extension> := [];
      NoExtensions();
      Literals();
      done := WriteExtension(ext, [0xff, 0x01, 0x00, 0x01, 0x00], [], done, Extension(0xff01, [0]));
      var len := |host| % 0x1_0000;
      NameListEncoded(host);
      done := WriteExtension(ext,
        [0, 0] + Be16((len + 5) % 0x1_0000) + Be16((len + 3) % 0x1_0000) + [0] + Be16(len) + host,
        [], done, Extension(SERVER_NAME, NameList(host)));
      done := WriteExtension(ext, [0, 0x17, 0, 0], [], done, Extension(0x17, []));
      var k := Intn(17);
      var length := 16 * (k + 8);
      var noise := RandBytes(length);
      ticket := noise;
      TicketEncoded(noise);
      done := WriteExtension(ext, [0, 0x23] + Be16(length % 0x1_0000) + noise, [], done,
                             Extension(SESSION_TICKET, noise));
      done := WriteExtension(ext, [0x00, 0x0d, 0x00, 0x16] + SIGNATURES, [], done, Extension(0x0d, SIGNATURES));
      done := WriteExtension(ext, [0x00, 0x05, 0x00, 0x05, 0x01, 0x00, 0x00, 0x00, 0x00], [], done,
                             Extension(0x05, [1, 0, 0, 0, 0]));
      done := WriteExtension(ext, [0x00, 0x12, 0x00, 0x00], [], done, Extension(0x12, []));
      done := WriteExtension(ext, [0x75, 0x50, 0x00, 0x00], [], done, Extension(0x7550, []));
      done := WriteExtension(ext, [0x00, 0x0b, 0x00, 0x02, 0x01, 0x00], [], done, Extension(0x0b, [1, 0]));
      done := WriteExtension(ext, [0x00, 0x0a, 0x00, 0x06, 0x00, 0x04, 0x00, 0x17, 0x00, 0x18], [], done,
                             Extension(0x0a, [0, 4, 0, 0x17, 0, 0x18]));
      assert done == Extensions(host, ticket);
    }

    method PackBody(data: Buffer) returns (ghost h: Hello)
      requires data.data == [] && cfg.hosts != []
      modifies data
      ensures PossibleFlight(cfg, h) && data.data == EncodeBody(h)
    {
      hide EncodeExtensions, Extensions, EncodeBody, Flight;
      data.Write([3, 3]);
      ghost var stamp := PackAuthData(data);
      data.Write([0x20]);
      data.Write(cfg.clientID);
      data.Write([0x00, 0x1c] + CIPHERS);
      data.Write([0x1, 0x0]);
      var ext := new Buffer();
      var i := Intn(|cfg.hosts|);
      var host := cfg.hosts[i];
      ghost var ticket := PackExtensions(ext, host);
      data.Write(Be16(|ext.data| % 0x1_0000));
      data.ReadFrom(ext);
      h := Flight(stamp + cfg.mac(stamp), cfg.clientID, host, ticket);
      BodyOfFlight(stamp + cfg.mac(stamp), cfg.clientID, host, ticket);
      FlightIsPossible(cfg, stamp, host, ticket);
    }

    /** The first flight as one message. */
    method MakeFlight() returns (message: Bytes, ghost h: Hello)
      requires cfg.hosts != []
      ensures PossibleFlight(cfg, h) && message == EncodeMessage(h)
      ensures Fits(h) ==> NoApplication(message)
    {
      hide EncodeBody, EncodeMessage, PossibleFlight, NoApplication;
      var data := new Buffer();
      h := PackBody(data);
      var ret := new Buffer();
      ret.Write([0x16, 3, 1]);
      ret.Write(Be16((|data.data| + 4) % 0x1_0000));
      ret.Write([1, 0]);
      ret.Write(Be16(|data.data| % 0x1_0000));
      ret.ReadFrom(data);
      message := ret.data;
      MessageOf(h);
      FlightRecords(h);
    }

    /** The second flight in front of everything held back. */
    method MakeFinish() returns (message: Bytes, ghost finish: Bytes)
      modifies sendBuf
      ensures PossibleFinish(cfg, finish)
      ensures message == finish + old(sendBuf.data) && sendBuf.data == []
    {
      var buf := new Buffer();
      buf.Write([0x14, 3, 3, 0, 1, 1, 0x16, 3, 3, 0, 0x20]);
      var noise := RandBytes(22);
      buf.Write(noise);
      buf.Write(cfg.mac(buf.data));
      finish := buf.data;
      assert [] + [0x14, 3, 3, 0, 1, 1, 0x16, 3, 3, 0, 0x20] == [0x14, 3, 3, 0, 1, 1, 0x16, 3, 3, 0, 0x20];
      assert finish == Finish(cfg.mac, noise);
      buf.ReadFrom(sendBuf);
      message := buf.data;
    }

    method WriteRecords(b: Bytes) returns (n: nat, ok: bool, ghost c: Choice)
      requires Valid() && handshakeStatus == 8
      modifies this`wire, this`written, this`intact
      ensures PossibleWrite(cfg, old(State()), b, c) && c.ok == ok
      ensures State() == AfterWrite(old(State()), b, c)
      ensures n == if ok then |b| else 0
    {
      hide Splits, PackAll, Inv;
      var buf := new Buffer();
      ghost var pieces := PackRecords(buf, b);
      written := written + b;
      assert buf.data == PackAll(pieces);
      ghost var sent;
      ok, sent := Transmit(buf.data);
      c := Anything(pieces, ok, sent);
      n := if ok then |b| else 0;
    }

    /** Held back until the handshake is done, which the first write starts and an empty one ends. */
    method Write(b: Bytes) returns (n: nat, ok: bool, ghost c: Choice)
      requires Valid() && cfg.hosts != []
      modifies this`handshakeStatus, this`wire, this`written, this`intact, sendBuf
      ensures Valid() && PossibleWrite(cfg, old(State()), b, c) && c.ok == ok
      ensures State() == AfterWrite(old(State()), b, c)
      ensures n == if ok then |b| else 0
    {
      hide Splits, PackAll, Inv, PossibleFlight, PossibleFinish, EncodeMessage;
      ghost var s := State();
      ok := true;
      n := |b|;
      if handshakeStatus == 8 {
        n, ok, c := WriteRecords(b);
        WriteKeeps(cfg, s, b, c);
        return;
      }
      c := Anything([], true, 0);
      written := written + b;
      if |b| > 0 {
        PackData(sendBuf, b);
        intact := intact && |b| < 0x1_0000;
      }
      if handshakeStatus == 0 {
        handshakeStatus := 1;
        ghost var h, sent;
        var message;
        message, h := MakeFlight();
        intact := intact && Fits(h);
        ok, sent := Transmit(message);
        c := c.(hello := h, ok := ok, sent := sent);
        n := if ok then |b| else 0;
      } else if handshakeStatus == 1 && |b| == 0 {
        ghost var finish, sent;
        var message;
        message, finish := MakeFinish();
        handshakeStatus := 8;
        ok, sent := Transmit(message);
        c := c.(finish := finish, ok := ok, sent := sent);
      }
      WriteKeeps(cfg, s, b, c);
    }

    /** One turn of the receive loop. */
    method DecodeOne() returns (turn: Turn<Error>)
      requires decoded != underDecoded && |underDecoded.data| > 5
      modifies decoded, underDecoded
      ensures match Receive(old(underDecoded.data))
              case More(_) =>
                && turn == Incomplete
                && underDecoded.data == old(underDecoded.data) && decoded.data == old(decoded.data)
              case Frame(_, payload, used) =>
                && turn == Taken && used <= |old(underDecoded.data)|
                && underDecoded.data == old(underDecoded.data)[used..]
                && decoded.data == old(decoded.data) + payload
              case Stop(_, e) =>
                turn == Failed(e) && underDecoded.data == [] && decoded.data == old(decoded.data)
    {
      ghost var buf := underDecoded.data;
      if underDecoded.data[..3] != [0x17, 3, 3] {
        underDecoded.Reset();
        return Failed(BadMagic);
      }
      var size: nat := FromBe16(underDecoded.data[3..5]);
      if |underDecoded.data| < 5 + size {
        return Incomplete;
      }
      var head := underDecoded.Next(5);
      assert underDecoded.data == buf[5..];
      var payload := underDecoded.Next(size);
      decoded.Write(payload);
      assert payload == buf[5..5 + size] && underDecoded.data == buf[5 + size..];
      turn := Taken;
    }

    /** Takes every complete record off the receive buffer. */
    method DecodeRecords() returns (error: Option<Error>)
      requires decoded != underDecoded
      modifies decoded, underDecoded
      ensures var d := Decode(Decoder((), false), old(underDecoded.data));
              && decoded.data == old(decoded.data) + d.output && underDecoded.data == d.rest
              && error == d.error && d.decoder == Decoder((), false)
    {
      hide Incremental, Drain, Receive;
      ReceiverIncremental();
      ghost var whole := Drain(Receiver(), (), underDecoded.data);
      ghost var taken: Bytes := [];
      PrependTwice([], [], whole);
      while |underDecoded.data| > 5
        invariant decoded.data == old(decoded.data) + taken
        invariant Prepend(taken, Drain(Receiver(), (), underDecoded.data)) == whole
        decreases |underDecoded.data|
      {
        ghost var buf := underDecoded.data;
        DrainUnfold(Receiver(), (), buf);
        OnlyUnit(Receive(buf).state);
        var turn := DecodeOne();
        match turn {
          case Incomplete =>
            return None;
          case Failed(e) =>
            return Some(e);
          case Taken =>
            PrependTwice(taken, Receive(buf).payload, Drain(Receiver(), (), underDecoded.data));
            taken := taken + Receive(buf).payload;
        }
      }
      DrainUnfold(Receiver(), (), underDecoded.data);
      ShortBuffer(underDecoded.data);
      error := None;
    }

    /** A server answer in the handshake is checked and then answered in turn. */
    method ReadHandshake(chunk: Bytes) returns (error: Option<ReadFailure>, ghost c: Choice)
      requires Valid() && handshakeStatus != 8 && cfg.hosts != []
      modifies this`handshakeStatus, this`wire, this`written, this`intact, sendBuf
      ensures Valid() && error == HandshakeFailure(cfg, chunk)
      ensures error.None? ==> PossibleWrite(cfg, old(State()), [], c) && State() == AfterWrite(old(State()), [], c)
      ensures error.Some? ==> State() == old(State())
    {
      hide PossibleWrite, AfterWrite, Inv;
      c := Anything([], true, 0);
      var n := |chunk|;
      if n < 11 + 32 + 1 + 32 {
        return Some(TooShort), c;
      }
      if chunk[33..43] != cfg.mac(chunk[11..33]) || chunk[n - 10..n] != cfg.mac(chunk[..n - 10]) {
        return Some(HmacMismatch), c;
      }
      var k, ok;
      k, ok, c := Write([]);
      error := None;
    }

    method Deliver(capacity: nat) returns (b: Bytes)
      requires decoded != underDecoded
      modifies decoded
      ensures (Conn(), b) == Take(old(Conn()), capacity)
    {
      b := decoded.Next(capacity);
    }

    /** What is left over, or else newly arrived records. */
    method ReadStream(capacity: nat, arrival: Arrival) returns (b: Bytes, error: Option<ReadFailure>)
      requires decoded != underDecoded
      modifies decoded, underDecoded
      ensures var r := ReadOnce(Decode, old(Conn()), capacity, arrival);
              && Conn() == r.conn && b == r.returned
              && error == if r.error.None? then None else Some(AsFailure(r.error.value))
    {
      hide Decode, StreamConn.Take;
      if |decoded.data| > 0 {
        b := Deliver(capacity);
        return b, None;
      }
      if arrival.Broken? {
        return [], Some(ReadFailure.Transport);
      }
      underDecoded.Write(arrival.chunk);
      ghost var d := Decode(Decoder((), false), underDecoded.data);
      var bad := DecodeRecords();
      assert decoded.data == d.output;
      if bad.Some? {
        return [], Some(IncorrectMagic);
      }
      b := Deliver(capacity);
      error := None;
    }

    method Read(capacity: nat, arrival: Arrival) returns (b: Bytes, error: Option<ReadFailure>, ghost c: Choice)
      requires Valid() && cfg.hosts != []
      modifies this`handshakeStatus, this`wire, this`written, this`intact, decoded, underDecoded, sendBuf
      ensures Valid() && Possible(cfg, old(State()), Event.Read(capacity, arrival, c))
      ensures State() == After(cfg, old(State()), Event.Read(capacity, arrival, c))
      ensures Handshaking(old(State()), arrival) ==> b == [] && error == HandshakeFailure(cfg, arrival.chunk)
      ensures !Handshaking(old(State()), arrival) ==>
                var r := ReadOnce(Decode, old(Conn()), capacity, arrival);
                && b == r.returned
                && error == if r.error.None? then None else Some(AsFailure(r.error.value))
    {
      hide PossibleWrite, AfterWrite, Decode, ReadOnce, Accepts, Inv;
      ghost var s := State();
      c := Anything([], true, 0);
      if |decoded.data| == 0 && arrival.Data? && handshakeStatus != 8 {
        FailureIff(cfg, arrival.chunk);
        error, c := ReadHandshake(arrival.chunk);
        b := [];
      } else {
        b, error := ReadStream(capacity, arrival);
        EventKeeps(cfg, s, Event.Read(capacity, arrival, c));
      }
    }
  }

  lemma FailureIff(cfg: Config, chunk: Bytes)
    ensures HandshakeFailure(cfg, chunk).None? <==> Accepts(cfg, chunk)
  {
  }

  lemma FlightIsPossible(cfg: Config, stamp: Bytes, host: Bytes, ticket: Bytes)
    requires |stamp| == 22 && host in cfg.hosts && 128 <= |ticket| <= 384
    ensures PossibleFlight(cfg, Flight(stamp + cfg.mac(stamp), cfg.clientID, host, ticket))
  {
  }

  lemma OnlyUnit(u: ())
    ensures u == ()
  {
  }

  lemma ShortBuffer(buf: Bytes)
    requires |buf| <= 5
    ensures Receive(buf) == More(())
  {
  }

  ghost function Anything(pieces: seq<Bytes>, ok: bool, sent: nat): Choice {
    Choice(Hello([], [], [], [], [], []), [], pieces, ok, sent)
  }

  lemma NoExtensions()
    ensures EncodeExtensions([]) == []
  {
  }

  lemma NameListEncoded(u: Bytes)
    ensures var len := |u| % 0x1_0000;
            [0, 0] + Be16((len + 5) % 0x1_0000) + Be16((len + 3) % 0x1_0000) + [0] + Be16(len) + u
            == EncodeExtension(Extension(SERVER_NAME, NameList(u)))
  {
    hide *;
    SameSizes(|u|);
    NameEncoded(u);
  }

  lemma SameSizes(n: nat)
    ensures (n % 0x1_0000 + 5) % 0x1_0000 == (n + 5) % 0x1_0000
    ensures (n % 0x1_0000 + 3) % 0x1_0000 == (n + 3) % 0x1_0000
  {
  }

  lemma Literals()
    ensures [0xff, 0x01, 0x00, 0x01, 0x00] == EncodeExtension(Extension(0xff01, [0]))
    ensures [0, 0x17, 0, 0] == EncodeExtension(Extension(0x17, []))
    ensures [0x00, 0x0d, 0x00, 0x16] + SIGNATURES == EncodeExtension(Extension(0x0d, SIGNATURES))
    ensures [0x00, 0x05, 0x00, 0x05, 0x01, 0x00, 0x00, 0x00, 0x00] == EncodeExtension(Extension(0x05, [1, 0, 0, 0, 0]))
    ensures [0x00, 0x12, 0x00, 0x00] == EncodeExtension(Extension(0x12, []))
    ensures [0x75, 0x50, 0x00, 0x00] == EncodeExtension(Extension(0x7550, []))
    ensures [0x00, 0x0b, 0x00, 0x02, 0x01, 0x00] == EncodeExtension(Extension(0x0b, [1, 0]))
    ensures [0x00, 0x0a, 0x00, 0x06, 0x00, 0x04, 0x00, 0x17, 0x00, 0x18]
         == EncodeExtension(Extension(0x0a, [0, 4, 0, 0x17, 0, 0x18]))
  {
  }

  lemma BodyOfFlight(auth: Bytes, session: ClientID, host: Bytes, ticket: Bytes)
    ensures var e := EncodeExtensions(Extensions(host, ticket));
            EncodeBody(Flight(auth, session, host, ticket))
            == [] + [3, 3] + auth + [0x20] + session + ([0x00, 0x1c] + CIPHERS) + [1, 0] + Be16(|e| % 0x1_0000) + e
  {
    hide EncodeExtensions, Extensions, Be16;
    var e := EncodeExtensions(Extensions(host, ticket));
    Vectors(session);
    InOrder([3, 3], auth, [0x20], session, [0x00, 0x1c] + CIPHERS, [1, 0], Be16(|e| % 0x1_0000), e);
  }

  lemma Vectors(session: ClientID)
    ensures Vec8(session) == [0x20] + session && Vec16(CIPHERS) == [0x00, 0x1c] + CIPHERS && Vec8([0]) == [1, 0]
  {
  }

  lemma InOrder(a: Bytes, b: Bytes, c: Bytes, d: Bytes, e: Bytes, f: Bytes, g: Bytes, h: Bytes)
    ensures [] + a + b + c + d + e + f + g + h == a + (b + ((c + d) + (e + (f + (g + h)))))
  {
    assert [] + a + b + c + d + e + f + g + h == a + (b + (c + d + e + f + g + h));
    assert c + d + e + f + g + h == (c + d) + (e + (f + (g + h)));
  }
}
