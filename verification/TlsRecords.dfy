/** Records on a TLS-shaped wire: kind, version, 16-bit length, body. */
module TlsRecords {
  import opened Octets

  const CHANGE_CIPHER_SPEC: Byte := 0x14
  const HANDSHAKE: Byte := 0x16
  const APPLICATION: Byte := 0x17

  datatype Record = Record(kind: Byte, minor: Byte, body: Bytes)

  /** The records that a wire consists of, if it consists of whole records. */
  function Records(wire: Bytes): Option<seq<Record>>
    decreases |wire|
  {
    if wire == [] then Some([])
    else if |wire| < 5 || wire[1] != 3 then None
    else
      var n := FromBe16(wire[3..5]);
      if |wire| < 5 + n then None else
      var rest := Records(wire[5 + n..]);
      if rest.None? then None else Some([Record(wire[0], wire[2], wire[5..5 + n])] + rest.value)
  }

  /** A record as it is written; the length field keeps 16 bits. */
  function Encode(r: Record): Bytes {
    [r.kind, 3, r.minor] + Be16(|r.body| % 0x1_0000) + r.body
  }

  function Pack(data: Bytes): Bytes {
    Encode(Record(APPLICATION, 3, data))
  }

  /** The application data in a list of records. */
  function Payload(records: seq<Record>): Bytes {
    if records == [] then []
    else if records[0].kind == APPLICATION then records[0].body + Payload(records[1..])
    else Payload(records[1..])
  }

  lemma {:induction false} PayloadConcat(a: seq<Record>, b: seq<Record>)
    ensures Payload(a + b) == Payload(a) + Payload(b)
  {
    if a == [] {
      assert a + b == b;
    } else {
      assert (a + b)[1..] == a[1..] + b;
      PayloadConcat(a[1..], b);
      if a[0].kind == APPLICATION {
        assert a[0].body + (Payload(a[1..]) + Payload(b)) == (a[0].body + Payload(a[1..])) + Payload(b);
      }
    }
  }

  /** The first record of a wire that has one. */
  function First(wire: Bytes): Record
    requires |wire| >= 5 && |wire| >= 5 + FromBe16(wire[3..5])
  {
    Record(wire[0], wire[2], wire[5..5 + FromBe16(wire[3..5])])
  }

  lemma RecordsUnfold(wire: Bytes, n: nat)
    requires 5 + n <= |wire| && n == FromBe16(wire[3..5]) && wire[1] == 3
    ensures var rest := Records(wire[5 + n..]);
            Records(wire) == if rest.None? then None else Some([First(wire)] + rest.value)
  {
  }

  /** Records can be read one wire after another. */
  lemma {:induction false} RecordsConcat(a: Bytes, b: Bytes)
    requires Records(a).Some?
    ensures Records(b).None? ==> Records(a + b).None?
    ensures Records(b).Some? ==> Records(a + b) == Some(Records(a).value + Records(b).value)
    decreases |a|
  {
    if a == [] {
      assert a + b == b;
      if Records(b).Some? {
        assert [] + Records(b).value == Records(b).value;
      }
    } else {
      var n := FromBe16(a[3..5]);
      FrontKept(a, b, n);
      RecordsConcat(a[5 + n..], b);
      RecordsUnfold(a, n);
      RecordsUnfold(a + b, n);
      if Records(b).Some? {
        Regrouped(First(a), Records(a[5 + n..]).value, Records(b).value);
      }
    }
  }

  lemma Regrouped(first: Record, a: seq<Record>, b: seq<Record>)
    ensures [first] + (a + b) == ([first] + a) + b
  {
  }

  lemma FrontKept(a: Bytes, b: Bytes, n: nat)
    requires 5 + n <= |a| && n == FromBe16(a[3..5])
    ensures (a + b)[3..5] == a[3..5] && First(a + b) == First(a)
    ensures (a + b)[5 + n..] == a[5 + n..] + b
  {
    assert (a + b)[3..5] == a[3..5] && (a + b)[5..5 + n] == a[5..5 + n];
  }

  /** A record reads back exactly if its body's length fits the length field. */
  lemma EncodeIff(r: Record)
    ensures Records(Encode(r)) == Some([r]) <==> |r.body| < 0x1_0000
  {
    var wire := Encode(r);
    var n := |r.body| % 0x1_0000;
    assert wire[3..5] == Be16(n);
    RecordsUnfold(wire, n);
    if |r.body| < 0x1_0000 {
      assert wire[5..5 + n] == r.body && wire[5 + n..] == [];
      assert Records([]) == Some([]) && [r] + [] == [r];
    } else if Records(wire[5 + n..]).Some? {
      assert |First(wire).body| < |r.body|;
      assert ([First(wire)] + Records(wire[5 + n..]).value)[0] != [r][0];
    }
  }

  /** A record on the wire, when its body fits: kind, version 3.x, length, body. */
  lemma RecordOnWire(r: Record)
    requires |r.body| < 0x1_0000
    ensures var w := Encode(r);
            && |w| == 5 + |r.body| && w[0] == r.kind && w[1] == 3 && w[2] == r.minor
            && 0x100 * w[3] + w[4] as int == |r.body| && w[5..] == r.body
    ensures Pack(r.body)[..3] == [0x17, 3, 3] && Pack(r.body)[3..] == Encode(r)[3..]
  {
  }

  /** Records of application data, one for each piece. */
  function PackAll(pieces: seq<Bytes>): Bytes {
    if pieces == [] then [] else Pack(pieces[0]) + PackAll(pieces[1..])
  }

  lemma {:induction false} PackAllConcat(a: seq<Bytes>, b: seq<Bytes>)
    ensures PackAll(a + b) == PackAll(a) + PackAll(b)
  {
    hide Pack;
    if a == [] {
      assert a + b == b;
    } else {
      assert (a + b)[1..] == a[1..] + b;
      PackAllConcat(a[1..], b);
    }
  }

  lemma PackAllOne(data: Bytes)
    ensures PackAll([data]) == Pack(data)
  {
    hide Pack;
    assert PackAll([]) == [] && [data][1..] == [];
    assert Pack(data) + [] == Pack(data);
  }

  /** Application data on a wire: whole records, the application data among them being `data`. */
  ghost predicate Carries(wire: Bytes, data: Bytes) {
    Records(wire).Some? && Payload(Records(wire).value) == data
  }

  /** All records on the wire are of other kinds. */
  ghost predicate NoApplication(wire: Bytes) {
    Records(wire).Some? && forall r | r in Records(wire).value :: r.kind != APPLICATION
  }

  lemma {:induction false} NoneAmong(records: seq<Record>)
    requires forall r | r in records :: r.kind != APPLICATION
    ensures Payload(records) == []
  {
    if records != [] {
      NoneAmong(records[1..]);
    }
  }

  lemma CarriesNothing(wire: Bytes)
    requires NoApplication(wire)
    ensures Carries(wire, [])
  {
    NoneAmong(Records(wire).value);
  }

  lemma CarriesConcat(a: Bytes, x: Bytes, b: Bytes, y: Bytes)
    requires Carries(a, x) && Carries(b, y)
    ensures Carries(a + b, x + y)
  {
    hide Records, Payload;
    RecordsConcat(a, b);
    PayloadConcat(Records(a).value, Records(b).value);
  }

  lemma CarriesOne(data: Bytes)
    requires |data| < 0x1_0000
    ensures Carries(Pack(data), data)
  {
    EncodeIff(Record(APPLICATION, 3, data));
    assert Payload([Record(APPLICATION, 3, data)]) == data + Payload([]);
  }

  lemma {:induction false} CarriesAll(pieces: seq<Bytes>)
    requires forall i | 0 <= i < |pieces| :: |pieces[i]| < 0x1_0000
    ensures Carries(PackAll(pieces), Flatten(pieces))
  {
    hide Pack, Carries;
    if pieces == [] {
      Silence();
    } else {
      CarriesOne(pieces[0]);
      CarriesAll(pieces[1..]);
      CarriesConcat(Pack(pieces[0]), pieces[0], PackAll(pieces[1..]), Flatten(pieces[1..]));
    }
  }

  lemma Silence()
    ensures NoApplication([]) && Carries([], [])
  {
  }

  /** Every record costs five bytes of header. */
  lemma {:induction false} PayloadLength(wire: Bytes)
    requires Records(wire).Some?
    ensures |Payload(Records(wire).value)| + 5 * |Records(wire).value| <= |wire|
    decreases |wire|
  {
    if wire != [] {
      var n := FromBe16(wire[3..5]);
      RecordsUnfold(wire, n);
      PayloadLength(wire[5 + n..]);
      assert ([First(wire)] + Records(wire[5 + n..]).value)[1..] == Records(wire[5 + n..]).value;
    }
  }

  /** Data packed as one record is carried exactly if its length fits the length field. */
  lemma PackCarriesIff(data: Bytes)
    ensures Carries(Pack(data), data) <==> |data| < 0x1_0000
  {
    if |data| < 0x1_0000 {
      CarriesOne(data);
    } else {
      var wire := Pack(data);
      if Records(wire).Some? {
        PayloadLength(wire);
        SeveralRecords(Record(APPLICATION, 3, data));
      }
    }
  }

  /** A record whose length field has wrapped never reads back as a single record. */
  lemma SeveralRecords(r: Record)
    requires |r.body| >= 0x1_0000
    ensures Records(Encode(r)).Some? ==> |Records(Encode(r)).value| >= 2
  {
    var wire := Encode(r);
    var n := |r.body| % 0x1_0000;
    assert wire[3..5] == Be16(n);
    RecordsUnfold(wire, n);
    assert wire[5 + n..] != [];
  }
}
