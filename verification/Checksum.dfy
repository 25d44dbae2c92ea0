/** The ones' complement sum of sections 1 and 2 of RFC 1071, and how it comes apart and together. */
module Checksum {
  import opened Octets

  const ALL_ONES: UInt16 := 0xFFFF

  /** The 16-bit words of `b` added up without folding; a last odd byte is padded with zero. */
  function Words(b: Bytes): nat {
    if |b| == 0 then 0
    else if |b| == 1 then 0x100 * b[0]
    else FromBe16(b[..2]) + Words(b[2..])
  }

  /** Adding in ones' complement: carries out of 16 bits come back in at the bottom. */
  function Fold(n: nat): UInt16 {
    if n == 0 then 0 else (n - 1) % 0xFFFF + 1
  }

  /** The sum of `b` continued from a partial sum. */
  function Sum(b: Bytes, initial: UInt16): UInt16 {
    Fold(Words(b) + initial)
  }

  /** Two partial sums added with one end-around carry. */
  function Combine(a: UInt16, b: UInt16): UInt16 {
    var v := a as int + b as int;
    (v + v / 0x1_0000) % 0x1_0000
  }

  function Complement(n: UInt16): UInt16 {
    ALL_ONES - n
  }

  lemma FoldModulo(n: nat)
    ensures Fold(n) % 0xFFFF == n % 0xFFFF && (Fold(n) == 0 <==> n == 0)
  {
    if n > 0 {
      var r := (n - 1) % 0xFFFF;
      assert n == (n - 1) / 0xFFFF * 0xFFFF + r + 1;
    }
  }

  lemma FoldUnique(m: nat, n: nat)
    requires m % 0xFFFF == n % 0xFFFF && (m == 0 <==> n == 0)
    ensures Fold(m) == Fold(n)
  {
    if m > 0 {
      assert (m - 1) % 0xFFFF == if m % 0xFFFF == 0 then 0xFFFE else m % 0xFFFF - 1;
      assert (n - 1) % 0xFFFF == if n % 0xFFFF == 0 then 0xFFFE else n % 0xFFFF - 1;
    }
  }

  /** Folding early changes nothing. */
  lemma FoldEarly(m: nat, n: nat)
    ensures Fold(m + Fold(n)) == Fold(m + n)
  {
    FoldModulo(n);
    FoldUnique(m + Fold(n), m + n);
  }

  lemma CombineFolds(m: nat, n: nat)
    ensures Combine(Fold(m), Fold(n)) == Fold(m + n)
  {
    FoldEarly(m, n);
    FoldEarly(Fold(n), m);
    CarryAround(Fold(m), Fold(n));
  }

  lemma CarryAround(a: UInt16, b: UInt16)
    ensures Combine(a, b) == Fold(a as int + b as int)
  {
    var v := a as int + b as int;
    if v < 0x1_0000 {
      assert v / 0x1_0000 == 0;
    } else {
      assert v / 0x1_0000 == 1;
      assert (v - 1) % 0xFFFF == v - 1 - 0xFFFF;
    }
  }

  /** The complement of a sum brings it to all ones: the receiver's test. */
  lemma ComplementVerifies(n: nat)
    ensures Fold(n + Complement(Fold(n))) == ALL_ONES
  {
    var q := if n == 0 then 0 else (n - 1) / 0xFFFF;
    assert n - Fold(n) == q * 0xFFFF;
    Multiples(q);
  }

  lemma Multiples(q: nat)
    ensures Fold(q * 0xFFFF + 0xFFFF) == ALL_ONES
  {
    assert (q * 0xFFFF + 0xFFFE) % 0xFFFF == 0xFFFE;
  }

  /** Words add up over a cut at an even offset, whatever the parity of what follows. */
  lemma {:induction false} WordsConcat(a: Bytes, b: Bytes)
    requires |a| % 2 == 0
    ensures Words(a + b) == Words(a) + Words(b)
    decreases |a|
  {
    if a == [] {
      assert a + b == b;
    } else {
      assert (a + b)[..2] == a[..2] && (a + b)[2..] == a[2..] + b;
      WordsConcat(a[2..], b);
    }
  }

  /** A last odd byte counts as if a zero followed it. */
  lemma OddPads(b: Bytes)
    requires |b| % 2 == 1
    ensures Words(b) == Words(b + [0])
  {
    hide Words;
    var front, last := b[..|b| - 1], b[|b| - 1..];
    assert front + last == b && front + (last + [0]) == b + [0];
    WordsConcat(front, last);
    WordsConcat(front, last + [0]);
    OneByte(b[|b| - 1]);
    assert last == [b[|b| - 1]] && last + [0] == [b[|b| - 1], 0];
  }

  lemma OneByte(x: Byte)
    ensures Words([x]) == Words([x, 0]) == 0x100 * x
  {
    assert [x, 0][..2] == [x, 0] && [x, 0][2..] == [];
  }

  function Put(p: Bytes, off: nat, b: Bytes): (r: Bytes)
    requires off + |b| <= |p|
    ensures |r| == |p|
  {
    p[..off] + b + p[off + |b|..]
  }

  /** Storing a 16-bit field over zeros at an even offset adds it to the sum. */
  lemma FieldAdds(b: Bytes, off: nat, v: UInt16)
    requires off % 2 == 0 && off + 2 <= |b| && b[off..off + 2] == [0, 0]
    ensures Words(Put(b, off, Be16(v))) == Words(b) + v
  {
    hide Words, Be16;
    var rest := b[off + 2..];
    Cut(b, off);
    WordsAround(b[..off], [0, 0], rest);
    WordsAround(b[..off], Be16(v), rest);
    WordOf(0);
    WordOf(v);
    ZeroWord();
  }

  lemma ZeroWord()
    ensures Be16(0) == [0, 0]
  {
  }

  lemma Cut(b: Bytes, off: nat)
    requires off + 2 <= |b|
    ensures b == b[..off] + b[off..off + 2] + b[off + 2..]
  {
  }

  lemma WordsAround(a: Bytes, field: Bytes, b: Bytes)
    requires |a| % 2 == 0 && |field| == 2
    ensures Words(a + field + b) == Words(a) + Words(field) + Words(b)
  {
    hide Words;
    WordsConcat(a, field);
    WordsConcat(a + field, b);
  }

  lemma WordOf(v: UInt16)
    ensures Words(Be16(v)) == v
  {
    assert Be16(v)[..2] == Be16(v);
  }
}
