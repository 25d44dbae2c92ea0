/**
 The client side of tls1.2_ticket_auth: a made-up TLS handshake, during which written data
 is held back, and then a stream of application records in both directions.
 */
module TlsTicketSpec {
  import opened Octets
  import opened StreamDecoder
  import opened StreamConn
  import opened TlsRecords
  import opened ClientHello

  type Mac = b: Bytes | |b| == 10 witness seq(10, _ => 0)
  type ClientID = b: Bytes | |b| == 32 witness seq(32, _ => 0)

  /** `mac` is the truncated HMAC-SHA1 under the key and the client ID. */
  datatype Config = Config(mac: Bytes -> Mac, clientID: ClientID, hosts: seq<Bytes>)

  // Receiving records

  datatype Error = BadMagic

  function Receive(buf: Bytes): Step<(), Error> {
    if |buf| <= 5 then More(())
    else if buf[..3] != [0x17, 3, 3] then Stop((), BadMagic)
    else
      var size := FromBe16(buf[3..5]);
      if |buf| < 5 + size then More(()) else Frame((), buf[5..5 + size], 5 + size)
  }

  function Receiver(): ((), Bytes) -> Step<(), Error> {
    (s: (), buf: Bytes) => Receive(buf)
  }

  lemma ReceiverIncremental()
    ensures Incremental(Receiver())
  {
    forall s: (), buf: Bytes, more: Bytes ensures Stable(Receiver(), s, buf, more) {
      DecidedByPrefix(s, buf, more);
    }
  }

  lemma DecidedByPrefix(s: (), buf: Bytes, more: Bytes)
    ensures Stable(Receiver(), s, buf, more)
  {
    if |buf| > 5 {
      assert (buf + more)[..3] == buf[..3] && (buf + more)[3..5] == buf[3..5];
      var size: nat := FromBe16(buf[3..5]);
      if |buf| >= 5 + size {
        assert (buf + more)[5..5 + size] == buf[5..5 + size];
      }
    }
  }

  ghost function Decode(d: Decoder<()>, under: Bytes): Decoded<(), Error> {
    ReceiverIncremental();
    DecodeBy(Receiver(), (e: Error) => false, d, under)
  }

  // Messages of the handshake

  /** The first flight: a ClientHello whose random field authenticates the client. */
  function Flight(auth: Bytes, session: Bytes, host: Bytes, ticket: Bytes): Hello {
    Hello([3, 3], auth, session, CIPHERS, [0], Extensions(host, ticket))
  }

  const CIPHERS: Bytes := [
    0xc0, 0x2b, 0xc0, 0x2f, 0xcc, 0xa9, 0xcc, 0xa8, 0xcc, 0x14, 0xcc, 0x13, 0xc0, 0x0a,
    0xc0, 0x14, 0xc0, 0x09, 0xc0, 0x13, 0x00, 0x9c, 0x00, 0x35, 0x00, 0x2f, 0x00, 0x0a]

  const SIGNATURES: Bytes := [
    0x00, 0x14, 0x06, 0x01, 0x06, 0x03, 0x05, 0x01, 0x05, 0x03, 0x04,
    0x01, 0x04, 0x03, 0x03, 0x01, 0x03, 0x03, 0x02, 0x01, 0x02, 0x03]

  function Extensions(host: Bytes, ticket: Bytes): seq<Extension> {
    [Extension(0xff01, [0]), Extension(SERVER_NAME, NameList(host)), Extension(0x17, []),
     Extension(SESSION_TICKET, ticket)] + Trailer()
  }

  function Trailer(): seq<Extension> {
    [Extension(0x0d, SIGNATURES), Extension(0x05, [1, 0, 0, 0, 0]), Extension(0x12, []),
     Extension(0x7550, []), Extension(0x0b, [1, 0]), Extension(0x0a, [0, 4, 0, 0x17, 0, 0x18])]
  }

  ghost predicate PossibleFlight(cfg: Config, h: Hello) {
    exists stamp: Bytes, host: Bytes, ticket: Bytes ::
      && |stamp| == 22 && host in cfg.hosts && 128 <= |ticket| <= 384
      && h == Flight(stamp + cfg.mac(stamp), cfg.clientID, host, ticket)
  }

  /** The second flight: a change of cipher and a message that looks encrypted. */
  function Finish(mac: Bytes -> Mac, noise: Bytes): Bytes {
    var front := [0x14, 3, 3, 0, 1, 1, 0x16, 3, 3, 0, 0x20] + noise;
    front + mac(front)
  }

  ghost predicate PossibleFinish(cfg: Config, finish: Bytes) {
    exists noise: Bytes :: |noise| == 22 && finish == Finish(cfg.mac, noise)
  }

  /** The server's answer: long enough and right in both of its checks. */
  predicate Accepts(cfg: Config, chunk: Bytes) {
    && |chunk| >= 11 + 32 + 1 + 32
    && chunk[33..43] == cfg.mac(chunk[11..33])
    && chunk[|chunk| - 10..] == cfg.mac(chunk[..|chunk| - 10])
  }

  /** A possible cutting of one write into records. */
  ghost predicate Splits(b: Bytes, pieces: seq<Bytes>)
    decreases |pieces|
  {
    if |b| > 2048 then
      && pieces != [] && pieces[0] <= b && Min(|b|, 100) <= |pieces[0]| < 4096 + 100
      && Splits(b[|pieces[0]|..], pieces[1..])
    else pieces == if b == [] then [] else [b]
  }

  /** A write of at most 2048 bytes is one record, and only the last of any is below 100 bytes. */
  lemma {:induction false} SplitSizes(b: Bytes, pieces: seq<Bytes>)
    requires Splits(b, pieces)
    ensures 1 <= |b| <= 2048 ==> pieces == [b]
    ensures forall i | 0 <= i < |pieces| - 1 :: 100 <= |pieces[i]| < 4096 + 100
    decreases |pieces|
  {
    if |b| > 2048 {
      SplitSizes(b[|pieces[0]|..], pieces[1..]);
      SplitsWhole(b[|pieces[0]|..], pieces[1..]);
    }
  }

  lemma {:induction false} SplitsWhole(b: Bytes, pieces: seq<Bytes>)
    requires Splits(b, pieces)
    ensures Flatten(pieces) == b
    ensures forall i | 0 <= i < |pieces| :: 1 <= |pieces[i]| < 4096 + 100
    decreases |pieces|
  {
    if |b| > 2048 {
      SplitsWhole(b[|pieces[0]|..], pieces[1..]);
    } else if b != [] {
      assert Flatten([]) == [] && pieces[1..] == [] && pieces[0] + [] == b;
    }
  }

  // The connection as a machine

  type Status = n: int | n == 0 || n == 1 || n == 8

  /**
   `wire` is everything sent and `written` everything callers have written. The connection is
   `intact` until a transport write fails, or a length that does not fit its field is packed.
   */
  datatype Session = Session(
    status: Status,
    sendBuf: Bytes,
    conn: ConnState<()>,
    wire: Bytes,
    written: Bytes,
    intact: bool)

  /** What chance and the transport decide in one call. */
  datatype Choice = Choice(hello: Hello, finish: Bytes, pieces: seq<Bytes>, ok: bool, sent: nat)

  datatype Event =
    | Write(b: Bytes, choice: Choice)
    | Read(capacity: nat, arrival: Arrival, choice: Choice)

  function Init(): Session {
    Session(0, [], ConnState(Decoder((), false), [], []), [], [], true)
  }

  /** How much of a message the transport takes: all of it, unless it fails. */
  function Sent(message: Bytes, c: Choice): Bytes {
    if c.ok then message else message[..Min(c.sent, |message|)]
  }

  function Transmit(s: Session, message: Bytes, c: Choice): Session {
    s.(wire := s.wire + Sent(message, c), intact := s.intact && c.ok)
  }

  function HoldBack(s: Session, b: Bytes): Session {
    if b == [] then s else s.(sendBuf := s.sendBuf + Pack(b), intact := s.intact && |b| < 0x1_0000)
  }

  predicate Fits(h: Hello) {
    |EncodeBody(h)| + 4 < 0x1_0000
  }

  function AfterWrite(s: Session, b: Bytes, c: Choice): Session {
    var t := s.(written := s.written + b);
    if s.status == 8 then Transmit(t, PackAll(c.pieces), c)
    else
      var q := HoldBack(t, b);
      if s.status == 0 then
        Transmit(q.(status := 1, intact := q.intact && Fits(c.hello)), EncodeMessage(c.hello), c)
      else if b == [] then Transmit(q.(status := 8, sendBuf := []), c.finish + q.sendBuf, c)
      else q
  }

  ghost predicate PossibleWrite(cfg: Config, s: Session, b: Bytes, c: Choice) {
    && (s.status == 0 ==> PossibleFlight(cfg, c.hello))
    && (s.status == 1 && b == [] ==> PossibleFinish(cfg, c.finish))
    && (s.status == 8 ==> Splits(b, c.pieces))
  }

  /** Whether a read is part of the handshake rather than of the record stream. */
  predicate Handshaking(s: Session, arrival: Arrival) {
    s.conn.decoded == [] && arrival.Data? && s.status != 8
  }

  ghost function After(cfg: Config, s: Session, e: Event): Session {
    match e
    case Write(b, c) => AfterWrite(s, b, c)
    case Read(capacity, arrival, c) =>
      if !Handshaking(s, arrival) then s.(conn := ReadOnce(Decode, s.conn, capacity, arrival).conn)
      else if Accepts(cfg, arrival.chunk) then AfterWrite(s, [], c)
      else s
  }

  ghost predicate Possible(cfg: Config, s: Session, e: Event) {
    match e
    case Write(b, c) => PossibleWrite(cfg, s, b, c)
    case Read(_, arrival, c) =>
      Handshaking(s, arrival) && Accepts(cfg, arrival.chunk) ==> PossibleWrite(cfg, s, [], c)
  }

  // What every run keeps

  /**
   Before status 8 nothing but (a part of) the first flight has been sent and nothing been
   received; data is held back only in status 1; and as long as the connection is intact,
   what is held back, or in status 8 what has been sent, carries all that was written.
   */
  ghost predicate Inv(cfg: Config, s: Session) {
    && (s.status == 0 ==> s == Init())
    && (s.status == 1 ==> exists h :: PossibleFlight(cfg, h) && s.wire <= EncodeMessage(h))
    && (s.status == 1 && s.intact ==> NoApplication(s.wire) && Carries(s.sendBuf, s.written))
    && (s.status == 8 ==> s.sendBuf == [])
    && (s.status == 8 && s.intact ==> Carries(s.wire, s.written))
    && (s.status != 8 ==> s.conn == Init().conn)
    && !s.conn.decoder.raw
  }

  /**
   The first flight is well nested, and gives back its host name and ticket, exactly if it
   fits the length field of its record.
   */
  lemma FlightRoundTripIff(auth: Bytes, session: Bytes, host: Bytes, ticket: Bytes)
    requires |auth| == |session| == 32
    ensures var h := Flight(auth, session, host, ticket);
            && |EncodeBody(h)| == 182 + |host| + |ticket|
            && (Parse(EncodeMessage(h)) == Some(h) <==> 186 + |host| + |ticket| < 0x1_0000)
            && (Fits(h) <==> 186 + |host| + |ticket| < 0x1_0000)
            && Lookup(h.extensions, SESSION_TICKET) == Some(ticket)
            && Lookup(h.extensions, SERVER_NAME) == Some(NameList(host))
            && (Fits(h) ==> HostName(NameList(host)) == Some(host))
  {
    hide Parse, EncodeMessage, HostName, EncodeExtensions;
    var h := Flight(auth, session, host, ticket);
    ExtensionsLength(host, ticket);
    MessageRoundTripIff(h);
    var e := h.extensions;
    assert e[0].kind == 0xff01 && e[1].kind == SERVER_NAME && e[2].kind == 0x17 && e[3].kind == SESSION_TICKET;
    LookupSkips(e, SERVER_NAME);
    LookupSkips(e, SESSION_TICKET);
    LookupSkips(e[1..], SESSION_TICKET);
    LookupSkips(e[2..], SESSION_TICKET);
    if Fits(h) {
      HostNameRoundTrip(host);
    }
  }

  lemma LookupSkips(e: seq<Extension>, kind: UInt16)
    requires e != [] && e[0].kind != kind
    ensures Lookup(e, kind) == Lookup(e[1..], kind)
  {
  }

  lemma ExtensionsLength(host: Bytes, ticket: Bytes)
    ensures |EncodeExtensions(Extensions(host, ticket))| == 81 + |host| + |ticket|
  {
    hide TotalLength;
    var e, t := Extensions(host, ticket), Trailer();
    assert e == [e[0], e[1], e[2], e[3]] + t;
    assert t == [t[0], t[1], t[2], t[3]] + [t[4], t[5]];
    TotalOfFour(e[0], e[1], e[2], e[3], t);
    TotalOfFour(t[0], t[1], t[2], t[3], [t[4], t[5]]);
    TotalOfTwo(t[4], t[5]);
    assert |SIGNATURES| == 22;
  }

  /** The first flight is one whole handshake record, exactly if it fits. */
  lemma FlightRecords(h: Hello)
    ensures Fits(h) ==> NoApplication(EncodeMessage(h))
  {
    hide Encode, EncodeBody;
    var body := EncodeBody(h);
    EncodeIff(Record(HANDSHAKE, 1, [1, 0] + Be16(|body| % 0x1_0000) + body));
  }

  lemma FinishRecords(cfg: Config, finish: Bytes)
    requires PossibleFinish(cfg, finish)
    ensures NoApplication(finish)
  {
    hide Encode, Records;
    var noise: Bytes :| |noise| == 22 && finish == Finish(cfg.mac, noise);
    var front := [0x14, 3, 3, 0, 1, 1, 0x16, 3, 3, 0, 0x20] + noise;
    var change, done := Record(CHANGE_CIPHER_SPEC, 3, [1]), Record(HANDSHAKE, 3, noise + cfg.mac(front));
    EncodeIff(change);
    EncodeIff(done);
    EncodedPair(noise, cfg.mac(front));
    RecordsConcat(Encode(change), Encode(done));
  }

  lemma EncodedPair(noise: Bytes, mac: Bytes)
    requires |noise| == 22 && |mac| == 10
    ensures [0x14, 3, 3, 0, 1, 1, 0x16, 3, 3, 0, 0x20] + noise + mac
         == Encode(Record(CHANGE_CIPHER_SPEC, 3, [1])) + Encode(Record(HANDSHAKE, 3, noise + mac))
  {
  }

  lemma WriteKeeps(cfg: Config, s: Session, b: Bytes, c: Choice)
    requires Inv(cfg, s) && PossibleWrite(cfg, s, b, c)
    ensures Inv(cfg, AfterWrite(s, b, c))
  {
    hide Carries, NoApplication, PackAll, Pack, Splits, PossibleFlight, PossibleFinish, EncodeMessage, Fits, Flatten;
    var s' := AfterWrite(s, b, c);
    HoldingBack(s.sendBuf, s.written, b);
    assert s.written + [] == s.written;
    if s.status == 0 {
      FlightRecords(c.hello);
      Silence();
      HoldingBack([], [], b);
      assert [] + b == b && [] + EncodeMessage(c.hello) == EncodeMessage(c.hello);
      assert s'.wire <= EncodeMessage(c.hello);
    } else if s.status == 1 && b == [] && s'.intact {
      FinishRecords(cfg, c.finish);
      CarriesNothing(c.finish);
      CarriesNothing(s.wire);
      CarriesConcat(c.finish, [], s.sendBuf, s.written);
      CarriesConcat(s.wire, [], c.finish + s.sendBuf, [] + s.written);
      assert [] + ([] + s.written) == s.written;
    } else if s.status == 8 && s'.intact {
      SplitsWhole(b, c.pieces);
      CarriesAll(c.pieces);
      CarriesConcat(s.wire, s.written, PackAll(c.pieces), b);
    }
  }

  lemma HoldingBack(held: Bytes, written: Bytes, b: Bytes)
    ensures Carries(held, written) && |b| < 0x1_0000 ==> Carries(held + Pack(b), written + b)
  {
    hide Pack, Carries;
    if Carries(held, written) && |b| < 0x1_0000 {
      CarriesOne(b);
      CarriesConcat(held, written, Pack(b), b);
    }
  }

  lemma ReadKeepsDecoder(conn: ConnState<()>, capacity: nat, arrival: Arrival)
    requires !conn.decoder.raw
    ensures !ReadOnce(Decode, conn, capacity, arrival).conn.decoder.raw
  {
  }

  lemma EventKeeps(cfg: Config, s: Session, e: Event)
    requires Inv(cfg, s) && Possible(cfg, s, e)
    ensures Inv(cfg, After(cfg, s, e))
  {
    hide Carries, NoApplication, PossibleWrite, EncodeMessage, Accepts, Decode, AfterWrite;
    match e
    case Write(b, c) => WriteKeeps(cfg, s, b, c);
    case Read(capacity, arrival, c) =>
      if !Handshaking(s, arrival) {
        ReadKeepsDecoder(s.conn, capacity, arrival);
      } else if Accepts(cfg, arrival.chunk) {
        WriteKeeps(cfg, s, [], c);
      }
  }

  /** The status stays or goes one step on, and what was sent stays sent. */
  lemma StatusAdvances(cfg: Config, s: Session, e: Event)
    requires Inv(cfg, s) && Possible(cfg, s, e)
    ensures var s' := After(cfg, s, e);
            && (s.status == s'.status || (s.status == 0 && s'.status == 1) || (s.status == 1 && s'.status == 8))
            && s.wire <= s'.wire && s.written <= s'.written && (s'.intact ==> s.intact)
  {
    hide PackAll, Pack, EncodeMessage, EncodeBody, Accepts, ReadOnce, Carries, NoApplication, Possible;
  }

  // Whole runs

  ghost function Run(cfg: Config, s: Session, events: seq<Event>): Session
    decreases |events|
  {
    if events == [] then s else Run(cfg, After(cfg, s, events[0]), events[1..])
  }

  ghost predicate PossibleRun(cfg: Config, s: Session, events: seq<Event>)
    decreases |events|
  {
    events != [] ==> Possible(cfg, s, events[0]) && PossibleRun(cfg, After(cfg, s, events[0]), events[1..])
  }

  /** All data of a run's writes, in order. */
  function Data(events: seq<Event>): Bytes {
    if events == [] then []
    else if events[0].Write? then events[0].b + Data(events[1..])
    else Data(events[1..])
  }

  lemma {:induction false} RunKeeps(cfg: Config, s: Session, events: seq<Event>)
    requires Inv(cfg, s) && PossibleRun(cfg, s, events)
    ensures var t := Run(cfg, s, events);
            Inv(cfg, t) && t.written == s.written + Data(events) && s.status <= t.status
    decreases |events|
  {
    hide Inv, After, Possible;
    if events != [] {
      var s1 := After(cfg, s, events[0]);
      EventKeeps(cfg, s, events[0]);
      StatusAdvances(cfg, s, events[0]);
      WrittenGrows(cfg, s, events[0]);
      RunKeeps(cfg, s1, events[1..]);
      if events[0].Write? {
        assert s.written + events[0].b + Data(events[1..]) == s.written + (events[0].b + Data(events[1..]));
      }
    } else {
      assert s.written + [] == s.written;
    }
  }

  lemma WrittenGrows(cfg: Config, s: Session, e: Event)
    ensures After(cfg, s, e).written == if e.Write? then s.written + e.b else s.written
  {
    assert s.written + [] == s.written;
  }

  /**
   Over every run: before status 8 no application data has been sent; in status 8 none is
   held back, and while the connection is intact its application records carry exactly
   everything that was written, before and after the handshake, in order.
   */
  lemma HandshakeRun(cfg: Config, events: seq<Event>)
    requires PossibleRun(cfg, Init(), events)
    ensures var t := Run(cfg, Init(), events);
            && (t.status == 0 ==> t.wire == [])
            && (t.status == 1 ==> exists h :: PossibleFlight(cfg, h) && t.wire <= EncodeMessage(h))
            && (t.status != 8 && t.intact ==> NoApplication(t.wire) && Carries(t.sendBuf, Data(events)))
            && (t.status == 8 ==> t.sendBuf == [])
            && (t.status == 8 && t.intact ==> Carries(t.wire, Data(events)))
  {
    hide Run, PossibleRun, Carries, NoApplication;
    Silence();
    RunKeeps(cfg, Init(), events);
    assert Init().written + Data(events) == Data(events);
  }

  // Progress

  /** A call that sends something in the handshake: any write, and a read of a right answer. */
  predicate Acts(cfg: Config, e: Event) {
    match e
    case Write(_, _) => true
    case Read(_, arrival, _) => arrival.Data? && Accepts(cfg, arrival.chunk)
  }

  /** A call that ends the handshake once it has begun. */
  predicate Ends(cfg: Config, e: Event) {
    match e
    case Write(b, _) => b == []
    case Read(_, arrival, _) => arrival.Data? && Accepts(cfg, arrival.chunk)
  }

  function ChoiceOf(e: Event): Choice {
    e.choice
  }

  /**
   The first call that acts sends the first flight; in status 1 an empty write or a right
   answer sends the second flight and everything held back, and nothing stays held back.
   */
  lemma HandshakeProgress(cfg: Config, s: Session, e: Event)
    requires Inv(cfg, s) && Possible(cfg, s, e)
    ensures var s', c := After(cfg, s, e), ChoiceOf(e);
            && (s.status == 0 && Acts(cfg, e) ==>
                s'.status == 1 && (c.ok ==> PossibleFlight(cfg, c.hello) && s'.wire == EncodeMessage(c.hello)))
            && (s.status == 1 && Ends(cfg, e) ==>
                && s'.status == 8 && s'.sendBuf == []
                && (c.ok ==> PossibleFinish(cfg, c.finish) && s'.wire == s.wire + c.finish + s.sendBuf))
            && (s.status == 0 && !Acts(cfg, e) ==> s' == s)
            && (s.status == 1 && !Ends(cfg, e) ==> s'.status == 1 && s'.wire == s.wire)
            && (s.status == 8 ==> s'.status == 8)
  {
    hide PossibleFlight, PossibleFinish, EncodeMessage, Accepts, Pack, PackAll, StreamConn.ReadOnce;
    hide Carries, NoApplication, Splits;
    NotHandshaking(s, e);
    if s.status == 0 {
      assert [] + EncodeMessage(ChoiceOf(e).hello) == EncodeMessage(ChoiceOf(e).hello);
    } else if s.status == 1 {
      var c := ChoiceOf(e);
      assert s.wire + (c.finish + s.sendBuf) == s.wire + c.finish + s.sendBuf;
    }
  }

  lemma NotHandshaking(s: Session, e: Event)
    ensures e.Read? && s.conn == Init().conn && e.arrival.Broken? ==>
              ReadOnce(Decode, s.conn, e.capacity, e.arrival).conn == s.conn
  {
  }

  /** Some call ends the handshake. */
  ghost predicate Ended(cfg: Config, events: seq<Event>) {
    exists j | 0 <= j < |events| :: Ends(cfg, events[j])
  }

  /** Some call acts, and a later one ends the handshake. */
  ghost predicate BegunAndEnded(cfg: Config, events: seq<Event>) {
    exists i, j | 0 <= i < j < |events| :: Acts(cfg, events[i]) && Ends(cfg, events[j])
  }

  lemma {:induction false} StatusFrom(cfg: Config, s: Session, events: seq<Event>)
    requires Inv(cfg, s) && PossibleRun(cfg, s, events)
    ensures var t := Run(cfg, s, events);
            t.status == 8 <==>
              s.status == 8 || (s.status == 1 && Ended(cfg, events)) || (s.status == 0 && BegunAndEnded(cfg, events))
    decreases |events|
  {
    hide Inv, After, Possible, Accepts, Acts, Ends;
    if events != [] {
      var e, s1 := events[0], After(cfg, s, events[0]);
      EventKeeps(cfg, s, e);
      HandshakeProgress(cfg, s, e);
      StatusFrom(cfg, s1, events[1..]);
      EndedFirst(cfg, events);
      EndsActs(cfg, e);
    }
  }

  lemma EndsActs(cfg: Config, e: Event)
    ensures Ends(cfg, e) ==> Acts(cfg, e)
  {
  }

  lemma EndedFirst(cfg: Config, events: seq<Event>)
    requires events != []
    ensures Ended(cfg, events) <==> Ends(cfg, events[0]) || Ended(cfg, events[1..])
    ensures BegunAndEnded(cfg, events)
       <==> (Acts(cfg, events[0]) && Ended(cfg, events[1..])) || BegunAndEnded(cfg, events[1..])
  {
    hide Acts, Ends;
    var rest := events[1..];
    if Ended(cfg, events) {
      var j :| 0 <= j < |events| && Ends(cfg, events[j]);
      assert j > 0 ==> rest[j - 1] == events[j];
    }
    if Ended(cfg, rest) {
      var j :| 0 <= j < |rest| && Ends(cfg, rest[j]);
      assert events[j + 1] == rest[j];
    }
    if BegunAndEnded(cfg, events) {
      var i, j :| 0 <= i < j < |events| && Acts(cfg, events[i]) && Ends(cfg, events[j]);
      assert rest[j - 1] == events[j] && (i > 0 ==> rest[i - 1] == events[i]);
    }
    if BegunAndEnded(cfg, rest) {
      var i, j :| 0 <= i < j < |rest| && Acts(cfg, rest[i]) && Ends(cfg, rest[j]);
      assert events[i + 1] == rest[i] && events[j + 1] == rest[j];
    }
  }

  /**
   Over every run the handshake is done exactly if, after a first call that sent the first
   flight, there was an empty write or a read of a right answer.
   */
  lemma DoneIff(cfg: Config, events: seq<Event>)
    requires PossibleRun(cfg, Init(), events)
    ensures Run(cfg, Init(), events).status == 8 <==> BegunAndEnded(cfg, events)
  {
    hide Run, PossibleRun, BegunAndEnded, Carries, NoApplication;
    Silence();
    StatusFrom(cfg, Init(), events);
  }

  // What the two ends can check of each other

  /** A flight proves knowledge of the key: its random field ends in the MAC of the rest. */
  lemma FlightAuthenticates(cfg: Config, h: Hello)
    requires PossibleFlight(cfg, h)
    ensures |h.random| == 32 && h.random[22..] == cfg.mac(h.random[..22]) && h.session == cfg.clientID
    ensures Lookup(h.extensions, SESSION_TICKET).Some? && 128 <= |Lookup(h.extensions, SESSION_TICKET).value| <= 384
    ensures exists host | host in cfg.hosts :: Lookup(h.extensions, SERVER_NAME) == Some(NameList(host))
  {
    hide NameList;
    var stamp: Bytes, host: Bytes, ticket: Bytes :|
      && |stamp| == 22 && host in cfg.hosts && 128 <= |ticket| <= 384
      && h == Flight(stamp + cfg.mac(stamp), cfg.clientID, host, ticket);
    FlightRoundTripIff(stamp + cfg.mac(stamp), cfg.clientID, host, ticket);
    assert h.random[..22] == stamp && h.random[22..] == cfg.mac(stamp);
  }

  /** The second flight ends in the MAC of everything before, its header included. */
  lemma FinishAuthenticates(cfg: Config, finish: Bytes)
    requires PossibleFinish(cfg, finish)
    ensures |finish| == 43 && finish[33..] == cfg.mac(finish[..33])
    ensures finish[..11] == [0x14, 3, 3, 0, 1, 1, 0x16, 3, 3, 0, 0x20]
  {
    var noise: Bytes :| |noise| == 22 && finish == Finish(cfg.mac, noise);
    var front := [0x14, 3, 3, 0, 1, 1, 0x16, 3, 3, 0, 0x20] + noise;
    assert finish[..33] == front && finish[33..] == cfg.mac(front);
    assert finish[..11] == front[..11];
  }

  /** The parts of a server's answer. */
  ghost predicate Answer(cfg: Config, chunk: Bytes, front: Bytes, random: Bytes, middle: Bytes) {
    && |front| == 11 && |random| == 22 && |middle| >= 23
    && var head := front + random + cfg.mac(random) + middle;
       chunk == head + cfg.mac(head)
  }

  /**
   An answer is right exactly if it is 11 bytes, 22 bytes of random and their MAC, at least 23
   bytes more, and the MAC of all of this.
   */
  lemma AcceptsIff(cfg: Config, chunk: Bytes)
    ensures Accepts(cfg, chunk) <==> exists front, random, middle :: Answer(cfg, chunk, front, random, middle)
  {
    if Accepts(cfg, chunk) {
      var n := |chunk|;
      var head := chunk[..11] + chunk[11..33] + cfg.mac(chunk[11..33]) + chunk[43..n - 10];
      assert head == chunk[..n - 10];
      assert chunk == head + cfg.mac(head);
      assert Answer(cfg, chunk, chunk[..11], chunk[11..33], chunk[43..n - 10]);
    }
    forall front, random, middle | Answer(cfg, chunk, front, random, middle) ensures Accepts(cfg, chunk) {
      var head := front + random + cfg.mac(random) + middle;
      assert chunk[11..33] == random && chunk[33..43] == cfg.mac(random);
      assert chunk[..|chunk| - 10] == head && chunk[|chunk| - 10..] == cfg.mac(head);
    }
  }

  // The record stream

  /** A buffer of more than five bytes fails exactly on wrong first bytes, and waits for its length. */
  lemma ReceiveCases(buf: Bytes)
    requires |buf| > 5
    ensures var step := Receive(buf);
            && (step.Stop? <==> buf[0] != 0x17 || buf[1] != 3 || buf[2] != 3)
            && (step.More? <==> !step.Stop? && |buf| < 5 + 0x100 * buf[3] + buf[4] as int)
            && (step.Frame? ==> step.used == 5 + 0x100 * buf[3] + buf[4] as int && step.payload == buf[5..step.used])
  {
    assert buf[..3] == [buf[0], buf[1], buf[2]] && buf[3..5] == [buf[3], buf[4]];
  }

  lemma ReceivePacked(data: Bytes)
    requires 1 <= |data| < 0x1_0000
    ensures Receive(Pack(data)) == Frame((), data, |Pack(data)|)
  {
    var frame := Pack(data);
    assert frame[..3] == [0x17, 3, 3] && frame[3..5] == Be16(|data|) && frame[5..5 + |data|] == data;
  }

  /** A receiver of non-empty records outputs what they carry, without error, and all of it. */
  lemma {:induction false} RecordsRoundTrip(pieces: seq<Bytes>)
    requires forall i | 0 <= i < |pieces| :: 1 <= |pieces[i]| < 0x1_0000
    ensures Incremental(Receiver())
    ensures Drain(Receiver(), (), PackAll(pieces)) == Outcome((), Flatten(pieces), [], None)
  {
    hide Incremental, Drain, Receive, Pack;
    ReceiverIncremental();
    if pieces == [] {
      DrainUnfold(Receiver(), (), []);
      NothingYet();
    } else {
      ReceivePacked(pieces[0]);
      RecordsRoundTrip(pieces[1..]);
      DrainFrame(Receiver(), (), Pack(pieces[0]), PackAll(pieces[1..]));
    }
  }

  lemma NothingYet()
    ensures Receive([]) == More(())
  {
  }

  /** The pieces of many writes. */
  ghost predicate SplitsAll(writes: seq<Bytes>, pieces: seq<seq<Bytes>>)
  {
    |writes| == |pieces| && forall i | 0 <= i < |writes| :: Splits(writes[i], pieces[i])
  }

  function Joined(pieces: seq<seq<Bytes>>): seq<Bytes> {
    if pieces == [] then [] else pieces[0] + Joined(pieces[1..])
  }

  lemma {:induction false} JoinedWhole(writes: seq<Bytes>, pieces: seq<seq<Bytes>>)
    requires SplitsAll(writes, pieces)
    ensures Flatten(Joined(pieces)) == Flatten(writes)
    ensures forall i | 0 <= i < |Joined(pieces)| :: 1 <= |Joined(pieces)[i]| < 4096 + 100
    decreases |writes|
  {
    if pieces != [] {
      SplitsWhole(writes[0], pieces[0]);
      forall i | 0 <= i < |writes| - 1 ensures Splits(writes[1..][i], pieces[1..][i]) {
        assert Splits(writes[i + 1], pieces[i + 1]);
      }
      JoinedWhole(writes[1..], pieces[1..]);
      FlattenConcat(pieces[0], Joined(pieces[1..]));
    }
  }

  /**
   Records made by any random splitting of any writes, delivered in any segmentation to reads
   with any buffer sizes: the reads return exactly what was written, and never a bad magic.
   */
  lemma WritesReachReads(writes: seq<Bytes>, pieces: seq<seq<Bytes>>, calls: seq<Call>)
    requires SplitsAll(writes, pieces)
    requires Flatten(Reads(Decode, Init().conn, calls).consumed) <= PackAll(Joined(pieces))
    ensures Incremental(Receiver())
    ensures var run := Reads(Decode, Init().conn, calls);
            && Feed(Receiver(), (), [], run.consumed).error.None?
            && run.returned + run.conn.decoded <= Flatten(writes)
            && (Flatten(run.consumed) == PackAll(Joined(pieces)) ==>
                run.returned + run.conn.decoded == Flatten(writes))
  {
    hide Incremental, Drain, Receive, Pack, Reads, Feed, SplitsAll, Implements;
    var wire := PackAll(Joined(pieces));
    JoinedWhole(writes, pieces);
    RecordsRoundTrip(Joined(pieces));
    NothingYet();
    DecodeImplements();
    WholeDelivery(Decode, Receiver(), (e: Error) => false, (), wire, calls);
    PrefixSafe(Receiver(), (), Reads(Decode, Init().conn, calls).consumed, wire);
  }

  /** And once all records have come in, reads whose buffers take the rest return all of it. */
  lemma WritesReturned(writes: seq<Bytes>, pieces: seq<seq<Bytes>>, calls: seq<Call>, more: seq<Call>)
    requires SplitsAll(writes, pieces)
    requires var run := Reads(Decode, Init().conn, calls);
             Flatten(run.consumed) == PackAll(Joined(pieces)) && TotalCapacity(more) >= |run.conn.decoded|
    requires forall c | c in more :: c.arrival.Broken?
    ensures Reads(Decode, Init().conn, calls + more).returned == Flatten(writes)
  {
    hide Incremental, Drain, Receive, Pack, Reads, Feed, SplitsAll, Implements, TotalCapacity;
    JoinedWhole(writes, pieces);
    RecordsRoundTrip(Joined(pieces));
    NothingYet();
    DecodeImplements();
    WholeReturned(Decode, Receiver(), (e: Error) => false, (), PackAll(Joined(pieces)), calls, more);
  }

  lemma DecodeImplements()
    ensures Incremental(Receiver())
    ensures Implements(Decode, Receiver(), (e: Error) => false)
  {
    hide Incremental, Receive;
    ReceiverIncremental();
  }
}
