/**
 ClientHello messages: their encoding, and a parser after sections 6.2.1 and 7.4.1.2 of
 RFC 5246, section 3.2 of RFC 5077 and section 3 of RFC 6066.
 */
module ClientHello {
  import opened Octets
  import opened Buffers
  import opened TlsRecords

  const SERVER_NAME: UInt16 := 0
  const SESSION_TICKET: UInt16 := 0x23

  datatype Extension = Extension(kind: UInt16, data: Bytes)

  datatype Hello = Hello(
    version: Bytes,
    random: Bytes,
    session: Bytes,
    ciphers: Bytes,
    compressions: Bytes,
    extensions: seq<Extension>)

  // Vectors

  function Vec8(b: Bytes): Bytes {
    [|b| % 0x100] + b
  }

  function Vec16(b: Bytes): Bytes {
    Be16(|b| % 0x1_0000) + b
  }

  datatype Parsed = Malformed | Parsed(value: Bytes, rest: Bytes)

  function TakeFixed(b: Bytes, n: nat): Parsed {
    if |b| < n then Malformed else Parsed(b[..n], b[n..])
  }

  function TakeVec8(b: Bytes): Parsed {
    if |b| < 1 then Malformed else TakeFixed(b[1..], b[0])
  }

  function TakeVec16(b: Bytes): Parsed {
    if |b| < 2 then Malformed else TakeFixed(b[2..], FromBe16(b[..2]))
  }

  lemma TakeBack(v: Bytes, rest: Bytes)
    ensures TakeFixed(v + rest, |v|) == Parsed(v, rest)
    ensures |v| < 0x100 ==> TakeVec8(Vec8(v) + rest) == Parsed(v, rest)
    ensures |v| < 0x1_0000 ==> TakeVec16(Vec16(v) + rest) == Parsed(v, rest)
  {
    var n := |v| % 0x1_0000;
    assert (v + rest)[..|v|] == v && (v + rest)[|v|..] == rest;
    assert (Vec8(v) + rest)[1..] == v + rest;
    assert (Vec16(v) + rest)[..2] == Be16(n);
    assert (Vec16(v) + rest)[2..] == v + rest;
  }

  // The parser

  function ParseExtensions(b: Bytes): Option<seq<Extension>>
    decreases |b|
  {
    if b == [] then Some([])
    else if |b| < 4 then None
    else
      var data := TakeVec16(b[2..]);
      if data.Malformed? then None else
      var rest := ParseExtensions(data.rest);
      if rest.None? then None else Some([Extension(FromBe16(b[..2]), data.value)] + rest.value)
  }

  function ParseTail(version: Bytes, random: Bytes, b: Bytes): Option<Hello> {
    var session := TakeVec8(b);
    if session.Malformed? || |session.value| > 32 then None else
    var ciphers := TakeVec16(session.rest);
    if ciphers.Malformed? || |ciphers.value| < 2 || |ciphers.value| % 2 != 0 then None else
    var compressions := TakeVec8(ciphers.rest);
    if compressions.Malformed? || compressions.value == [] then None else
    var extensions := TakeVec16(compressions.rest);
    if extensions.Malformed? || extensions.rest != [] then None else
    var list := ParseExtensions(extensions.value);
    if list.None? then None
    else Some(Hello(version, random, session.value, ciphers.value, compressions.value, list.value))
  }

  /** The body of a ClientHello, consumed exactly. */
  function ParseBody(b: Bytes): Option<Hello> {
    var version := TakeFixed(b, 2);
    if version.Malformed? then None else
    var random := TakeFixed(version.rest, 32);
    if random.Malformed? then None else ParseTail(version.value, random.value, random.rest)
  }

  /** One handshake message in one record, and nothing else. */
  function Parse(message: Bytes): Option<Hello> {
    var records := Records(message);
    if records.None? || |records.value| != 1 || records.value[0].kind != HANDSHAKE then None else
    var b := records.value[0].body;
    if |b| < 4 || b[0] != 1 || 0x1_0000 * b[1] + FromBe16(b[2..4]) != |b| - 4 then None
    else ParseBody(b[4..])
  }

  /** The data of the first extension of a kind. */
  function Lookup(extensions: seq<Extension>, kind: UInt16): Option<Bytes> {
    if extensions == [] then None
    else if extensions[0].kind == kind then Some(extensions[0].data)
    else Lookup(extensions[1..], kind)
  }

  /** The one host name of a server name extension. */
  function HostName(data: Bytes): Option<Bytes> {
    var list := TakeVec16(data);
    if list.Malformed? || list.rest != [] || list.value == [] || list.value[0] != 0 then None else
    var host := TakeVec16(list.value[1..]);
    if host.Malformed? || host.rest != [] then None else Some(host.value)
  }

  // The encoding

  function EncodeExtension(e: Extension): Bytes {
    Be16(e.kind) + Vec16(e.data)
  }

  function EncodeExtensions(extensions: seq<Extension>): Bytes {
    if extensions == [] then [] else EncodeExtension(extensions[0]) + EncodeExtensions(extensions[1..])
  }

  function EncodeBody(h: Hello): Bytes {
    h.version + (h.random + (Vec8(h.session) + (Vec16(h.ciphers) + (Vec8(h.compressions)
    + Vec16(EncodeExtensions(h.extensions))))))
  }

  function EncodeMessage(h: Hello): Bytes {
    var body := EncodeBody(h);
    Encode(Record(HANDSHAKE, 1, [1, 0] + Be16(|body| % 0x1_0000) + body))
  }

  /** A name list holding one host name. */
  function NameList(host: Bytes): Bytes {
    Vec16([0] + Vec16(host))
  }

  /** What the fixed-size parts must be. */
  ghost predicate Regular(h: Hello) {
    && |h.version| == 2 && |h.random| == 32 && |h.session| <= 32
    && 2 <= |h.ciphers| < 0x100 && |h.ciphers| % 2 == 0 && 1 <= |h.compressions| < 0x100
  }

  lemma {:induction false} ExtensionsRoundTrip(extensions: seq<Extension>)
    requires |EncodeExtensions(extensions)| < 0x1_0000
    ensures ParseExtensions(EncodeExtensions(extensions)) == Some(extensions)
  {
    if extensions != [] {
      var e, rest := extensions[0], EncodeExtensions(extensions[1..]);
      var b := EncodeExtensions(extensions);
      assert b[..2] == Be16(e.kind) && b[2..] == Vec16(e.data) + rest;
      TakeBack(e.data, rest);
      ExtensionsRoundTrip(extensions[1..]);
      assert [e] + extensions[1..] == extensions;
    }
  }

  lemma BodyRoundTrip(h: Hello)
    requires Regular(h) && |EncodeExtensions(h.extensions)| < 0x1_0000
    ensures ParseBody(EncodeBody(h)) == Some(h)
  {
    hide TakeVec8, TakeVec16, TakeFixed, Vec8, Vec16, EncodeExtensions, ParseExtensions;
    var extensions := EncodeExtensions(h.extensions);
    var b4 := Vec16(extensions);
    var b3 := Vec8(h.compressions) + b4;
    var b2 := Vec16(h.ciphers) + b3;
    var b1 := Vec8(h.session) + b2;
    TakeBack(h.version, h.random + b1);
    TakeBack(h.random, b1);
    TakeBack(h.session, b2);
    TakeBack(h.ciphers, b3);
    TakeBack(h.compressions, b4);
    TakeBack(extensions, []);
    assert b4 + [] == b4;
    ExtensionsRoundTrip(h.extensions);
  }

  lemma BodyBounds(h: Hello)
    ensures |EncodeExtensions(h.extensions)| <= |EncodeBody(h)|
  {
  }

  /**
   A message parses, consumed exactly and giving back every part, exactly if the whole of it
   fits the record's length field.
   */
  lemma MessageRoundTripIff(h: Hello)
    requires Regular(h)
    ensures Parse(EncodeMessage(h)) == Some(h) <==> |EncodeBody(h)| + 4 < 0x1_0000
  {
    hide EncodeBody, ParseBody, Records, Encode, Regular;
    var body := EncodeBody(h);
    var n := |body| % 0x1_0000;
    var record := Record(HANDSHAKE, 1, [1, 0] + Be16(n) + body);
    EncodeIff(record);
    if |body| + 4 < 0x1_0000 {
      assert record.body[2..4] == Be16(n) && record.body[4..] == body;
      BodyBounds(h);
      BodyRoundTrip(h);
    } else {
      SeveralRecords(record);
    }
  }

  /**
   A message on the wire, when it fits: the record's header, the handshake's, and the fields
   of the body one after another.
   */
  lemma MessageOnWire(h: Hello)
    requires Regular(h) && |EncodeBody(h)| + 4 < 0x1_0000
    ensures var m, s, c, k := EncodeMessage(h), |h.session|, |h.ciphers|, |h.compressions|;
            var e := EncodeExtensions(h.extensions);
            && |m| == 9 + |EncodeBody(h)| == 49 + s + c + k + |e|
            && m[0] == 22 && m[1] == 3 && m[2] == 1 && 0x100 * m[3] + m[4] as int == |m| - 5
            && m[5] == 1 && m[6] == 0 && 0x100 * m[7] + m[8] as int == |m| - 9
            && m[9..11] == h.version && m[11..43] == h.random
            && m[43] == s && m[44..44 + s] == h.session
            && m[44 + s] == 0 && m[45 + s] == c && m[46 + s..46 + s + c] == h.ciphers
            && m[46 + s + c] == k && m[47 + s + c..47 + s + c + k] == h.compressions
            && m[49 + s + c + k..] == e
  {
    hide *;
    BodyBounds(h);
    BodyOnWire(h);
    HeadOnWire(h);
    Shifted(EncodeMessage(h), EncodeBody(h), |h.session|, |h.ciphers|, |h.compressions|);
  }

  lemma HeadOnWire(h: Hello)
    requires |EncodeBody(h)| + 4 < 0x1_0000
    ensures var m := EncodeMessage(h);
            && |m| == 9 + |EncodeBody(h)| && m[9..] == EncodeBody(h)
            && m[0] == 22 && m[1] == 3 && m[2] == 1 && 0x100 * m[3] + m[4] as int == |m| - 5
            && m[5] == 1 && m[6] == 0 && 0x100 * m[7] + m[8] as int == |m| - 9
  {
    hide EncodeBody, Be16, EncodeMessage;
    var body := EncodeBody(h);
    MessageOf(h);
    Be16Value(|body| + 4);
    Be16Value(|body|);
    var front := [] + [0x16, 3, 1] + Be16((|body| + 4) % 0x1_0000) + [1, 0] + Be16(|body| % 0x1_0000);
    assert EncodeMessage(h) == front + body;
  }

  lemma Be16Value(n: nat)
    requires n < 0x1_0000
    ensures |Be16(n % 0x1_0000)| == 2
    ensures 0x100 * Be16(n % 0x1_0000)[0] + Be16(n % 0x1_0000)[1] as int == n
  {
  }

  lemma BodyOnWire(h: Hello)
    requires Regular(h) && |EncodeExtensions(h.extensions)| < 0x1_0000
    ensures var b, s, c, k := EncodeBody(h), |h.session|, |h.ciphers|, |h.compressions|;
            && |b| == 40 + s + c + k + |EncodeExtensions(h.extensions)|
            && b[..2] == h.version && b[2..34] == h.random && b[34] == s && b[35..35 + s] == h.session
            && b[35 + s] == 0 && b[36 + s] == c && b[37 + s..37 + s + c] == h.ciphers
            && b[37 + s + c] == k && b[38 + s + c..38 + s + c + k] == h.compressions
            && b[40 + s + c + k..] == EncodeExtensions(h.extensions)
  {
    hide *;
    var e := EncodeExtensions(h.extensions);
    RegularSizes(h);
    BodyIs(h);
    Be16Value(|e|);
    SmallVector(|h.ciphers|);
    InBody(h.version, h.random, h.session, Be16(|h.ciphers| % 0x1_0000), h.ciphers, h.compressions,
           Be16(|e| % 0x1_0000), e);
  }

  lemma RegularSizes(h: Hello)
    requires Regular(h)
    ensures |h.version| == 2 && |h.random| == 32
    ensures |h.session| < 0x100 && |h.ciphers| < 0x100 && |h.compressions| < 0x100
  {
  }

  lemma BodyIs(h: Hello)
    requires |h.session| < 0x100 && |h.compressions| < 0x100
    ensures var e := EncodeExtensions(h.extensions);
            EncodeBody(h)
            == h.version + (h.random + (([|h.session|] + h.session) + ((Be16(|h.ciphers| % 0x1_0000) + h.ciphers)
               + (([|h.compressions|] + h.compressions) + (Be16(|e| % 0x1_0000) + e)))))
  {
    hide EncodeExtensions, Be16;
  }

  lemma SmallVector(n: nat)
    requires n < 0x100
    ensures Be16(n % 0x1_0000) == [0, n]
  {
  }

  lemma InBody(
    version: Bytes, random: Bytes, session: Bytes, cipherSize: Bytes, ciphers: Bytes, compressions: Bytes,
    size: Bytes, e: Bytes)
    requires |version| == 2 && |random| == 32 && |session| < 0x100 && |compressions| < 0x100
    requires |cipherSize| == |size| == 2
    ensures var s, c, k := |session|, |ciphers|, |compressions|;
            var b := version + (random + (([s] + session) + ((cipherSize + ciphers)
                     + (([k] + compressions) + (size + e)))));
            && |b| == 40 + s + c + k + |e|
            && b[..2] == version && b[2..34] == random && b[34] == s && b[35..35 + s] == session
            && b[35 + s] == cipherSize[0] && b[36 + s] == cipherSize[1] && b[37 + s..37 + s + c] == ciphers
            && b[37 + s + c] == k && b[38 + s + c..38 + s + c + k] == compressions
            && b[40 + s + c + k..] == e
  {
    var s, c, k := |session|, |ciphers|, |compressions|;
    var b1 := ([s] + session) + ((cipherSize + ciphers) + (([k] + compressions) + (size + e)));
    InFront(version + (random + b1), version, random, b1);
    InVectors(version + (random + b1), 34, session, cipherSize, ciphers, compressions, size, e);
  }

  lemma InFront(b: Bytes, version: Bytes, random: Bytes, rest: Bytes)
    requires |version| == 2 && |random| == 32 && b == version + (random + rest)
    ensures |b| == 34 + |rest| && b[..2] == version && b[2..34] == random && b[34..] == rest
  {
  }

  lemma InVectors(
    b: Bytes, off: nat, session: Bytes, cipherSize: Bytes, ciphers: Bytes, compressions: Bytes, size: Bytes, e: Bytes)
    requires |session| < 0x100 && |compressions| < 0x100 && |cipherSize| == |size| == 2 && off <= |b|
    requires b[off..] == ([|session|] + session) + ((cipherSize + ciphers)
                         + (([|compressions|] + compressions) + (size + e)))
    ensures var s, c, k := off + 1 + |session|, |ciphers|, |compressions|;
            && |b| == s + 5 + c + k + |e|
            && b[off] == |session| && b[off + 1..s] == session
            && b[s] == cipherSize[0] && b[s + 1] == cipherSize[1] && b[s + 2..s + 2 + c] == ciphers
            && b[s + 2 + c] == k && b[s + 3 + c..s + 3 + c + k] == compressions
            && b[s + 5 + c + k..] == e
  {
    var s, c, k := off + 1 + |session|, |ciphers|, |compressions|;
    var b3 := ([k] + compressions) + (size + e);
    VectorAt(b, off, [|session|], session, (cipherSize + ciphers) + b3);
    VectorAt(b, s, cipherSize, ciphers, b3);
    VectorAt(b, s + 2 + c, [k], compressions, size + e);
    LastAt(b, s + 3 + c + k, size, e);
  }

  lemma VectorAt(b: Bytes, off: nat, size: Bytes, x: Bytes, rest: Bytes)
    requires off <= |b| && b[off..] == (size + x) + rest && 1 <= |size| <= 2
    ensures var n := off + |size|;
            && n + |x| <= |b| && b[off] == size[0] && (|size| == 2 ==> b[off + 1] == size[1])
            && b[n..n + |x|] == x && b[n + |x|..] == rest
  {
    var tail, n := b[off..], |size|;
    assert b[off + n..off + n + |x|] == tail[n..n + |x|] && b[off + n + |x|..] == tail[n + |x|..];
    assert b[off] == tail[0] && (n == 2 ==> b[off + 1] == tail[1]);
  }

  lemma LastAt(b: Bytes, off: nat, size: Bytes, e: Bytes)
    requires off <= |b| && b[off..] == size + e && |size| == 2
    ensures |b| == off + 2 + |e| && b[off + 2..] == e
  {
    assert b[off + 2..] == b[off..][2..];
  }

  lemma Shifted(m: Bytes, b: Bytes, s: nat, c: nat, k: nat)
    requires |m| >= 9 && m[9..] == b && |b| >= 40 + s + c + k
    ensures m[9..11] == b[..2] && m[11..43] == b[2..34] && m[43] == b[34] && m[44..44 + s] == b[35..35 + s]
    ensures m[44 + s] == b[35 + s] && m[45 + s] == b[36 + s] && m[46 + s..46 + s + c] == b[37 + s..37 + s + c]
    ensures m[46 + s + c] == b[37 + s + c]
    ensures m[47 + s + c..47 + s + c + k] == b[38 + s + c..38 + s + c + k]
    ensures m[49 + s + c + k..] == b[40 + s + c + k..]
  {
  }

  lemma HostNameRoundTrip(host: Bytes)
    requires |host| + 3 < 0x1_0000
    ensures HostName(NameList(host)) == Some(host)
  {
    TakeBack([0] + Vec16(host), []);
    TakeBack(host, []);
    assert NameList(host) + [] == NameList(host) && Vec16(host) + [] == Vec16(host);
    assert ([0] + Vec16(host))[1..] == Vec16(host);
  }

  /** The size of a list of extensions. */
  function TotalLength(extensions: seq<Extension>): nat {
    if extensions == [] then 0 else 4 + |extensions[0].data| + TotalLength(extensions[1..])
  }

  lemma {:induction false} EncodedLength(extensions: seq<Extension>)
    ensures |EncodeExtensions(extensions)| == TotalLength(extensions)
  {
    if extensions != [] {
      EncodedLength(extensions[1..]);
    }
  }

  lemma TotalOfFour(a: Extension, b: Extension, c: Extension, d: Extension, rest: seq<Extension>)
    ensures |EncodeExtensions([a, b, c, d] + rest)|
         == 16 + |a.data| + |b.data| + |c.data| + |d.data| + |EncodeExtensions(rest)|
  {
    ExtensionsConcat([a, b, c, d], rest);
    EncodedLength([a, b, c, d]);
    TotalOfOne(d);
    assert [a, b, c, d][1..] == [b, c, d] && [b, c, d][1..] == [c, d] && [c, d][1..] == [d];
    assert TotalLength([c, d]) == 4 + |c.data| + TotalLength([d]);
    assert TotalLength([b, c, d]) == 4 + |b.data| + TotalLength([c, d]);
  }

  lemma TotalOfTwo(a: Extension, b: Extension)
    ensures |EncodeExtensions([a, b])| == 8 + |a.data| + |b.data|
  {
    EncodedLength([a, b]);
    TotalOfOne(b);
    assert [a, b][1..] == [b];
  }

  lemma TotalOfOne(a: Extension)
    ensures TotalLength([a]) == 4 + |a.data|
  {
    assert [a][1..] == [] && TotalLength([]) == 0;
  }

  // Building

  lemma {:induction false} ExtensionsConcat(a: seq<Extension>, b: seq<Extension>)
    ensures EncodeExtensions(a + b) == EncodeExtensions(a) + EncodeExtensions(b)
  {
    hide EncodeExtension;
    if a == [] {
      assert a + b == b;
    } else {
      assert (a + b)[1..] == a[1..] + b;
      ExtensionsConcat(a[1..], b);
    }
  }

  lemma ExtensionsOne(done: seq<Extension>, e: Extension)
    ensures EncodeExtensions(done + [e]) == EncodeExtensions(done) + EncodeExtension(e)
  {
    hide EncodeExtension;
    assert EncodeExtensions([e][1..]) == [];
    assert EncodeExtensions([e]) == EncodeExtension(e);
    ExtensionsConcat(done, [e]);
  }

  /** Writes one extension given as its raw bytes. */
  method WriteExtension(buf: Buffer, raw: Bytes, ghost was: Bytes, ghost done: seq<Extension>, ghost e: Extension)
    returns (ghost done': seq<Extension>)
    requires buf.data == was + EncodeExtensions(done) && raw == EncodeExtension(e)
    modifies buf
    ensures done' == done + [e] && buf.data == was + EncodeExtensions(done')
  {
    hide EncodeExtensions, EncodeExtension;
    buf.Write(raw);
    ExtensionsOne(done, e);
    assert was + EncodeExtensions(done) + raw == was + (EncodeExtensions(done) + raw);
    done' := done + [e];
  }

  // Raw forms

  lemma NameEncoded(u: Bytes)
    ensures [0, 0] + Be16((|u| + 5) % 0x1_0000) + Be16((|u| + 3) % 0x1_0000) + [0] + Be16(|u| % 0x1_0000) + u
         == EncodeExtension(Extension(SERVER_NAME, NameList(u)))
  {
    hide *;
    NameListBytes(u);
    var size, listSize, nameSize := Be16((|u| + 5) % 0x1_0000), Be16((|u| + 3) % 0x1_0000), Be16(|u| % 0x1_0000);
    Nested([0, 0], size, listSize, [0], nameSize, u);
    ZeroKind();
    Encoding(NameList(u));
  }

  lemma Nested(kind: Bytes, size: Bytes, listSize: Bytes, nameKind: Bytes, nameSize: Bytes, name: Bytes)
    ensures kind + size + listSize + nameKind + nameSize + name
         == kind + (size + (listSize + nameKind + nameSize + name))
  {
  }

  lemma Encoding(data: Bytes)
    ensures EncodeExtension(Extension(SERVER_NAME, data)) == Be16(SERVER_NAME) + (Be16(|data| % 0x1_0000) + data)
  {
  }

  lemma NameListBytes(u: Bytes)
    ensures |NameList(u)| == 5 + |u|
    ensures NameList(u) == Be16((|u| + 3) % 0x1_0000) + [0] + Be16(|u| % 0x1_0000) + u
  {
    hide Be16;
  }

  lemma ZeroKind()
    ensures Be16(SERVER_NAME) == [0, 0]
  {
  }

  lemma TicketEncoded(ticket: Bytes)
    ensures [0, 0x23] + Be16(|ticket| % 0x1_0000) + ticket == EncodeExtension(Extension(SESSION_TICKET, ticket))
  {
    hide Be16;
    TicketKind();
    assert [0, 0x23] + Be16(|ticket| % 0x1_0000) + ticket == [0, 0x23] + (Be16(|ticket| % 0x1_0000) + ticket);
  }

  lemma TicketKind()
    ensures Be16(SESSION_TICKET) == [0, 0x23]
  {
  }

  lemma MessageOf(h: Hello)
    ensures var body := EncodeBody(h);
            EncodeMessage(h)
            == [] + [0x16, 3, 1] + Be16((|body| + 4) % 0x1_0000) + [1, 0] + Be16(|body| % 0x1_0000) + body
  {
    hide EncodeBody;
  }
}
