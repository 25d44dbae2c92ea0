/** Bytes, fixed-width integers and exclusive or, all over mathematical integers. */
module Octets {

  type Byte = x: int | 0 <= x < 0x100
  type UInt16 = x: int | 0 <= x < 0x1_0000
  type UInt32 = x: int | 0 <= x < 0x1_0000_0000
  type UInt64 = x: int | 0 <= x < 0x1_0000_0000_0000_0000
  type Bytes = seq<Byte>

  datatype Option<+T> = None | Some(value: T)

  function Min(a: int, b: int): int {
    if a < b then a else b
  }

  function Le16(n: UInt16): (b: Bytes)
    ensures |b| == 2 && FromLe16(b) == n
  {
    [n % 0x100, n / 0x100]
  }

  function FromLe16(b: Bytes): UInt16
    requires |b| == 2
  {
    b[0] as int + 0x100 * b[1] as int
  }

  function Be16(n: UInt16): (b: Bytes)
    ensures |b| == 2 && FromBe16(b) == n
  {
    [n / 0x100, n % 0x100]
  }

  function FromBe16(b: Bytes): UInt16
    requires |b| == 2
  {
    b[1] as int + 0x100 * b[0] as int
  }

  function Le32(n: UInt32): (b: Bytes)
    ensures |b| == 4
  {
    [n % 0x100, n / 0x100 % 0x100, n / 0x1_0000 % 0x100, n / 0x100_0000]
  }

  /** Four bytes as a number, the least significant first. */
  lemma Le32Value(n: UInt32)
    ensures var b := Le32(n);
            b[0] as int + 0x100 * b[1] as int + 0x1_0000 * b[2] as int + 0x100_0000 * b[3] as int == n
  {
    var q1, q2 := n as int / 0x100, n as int / 0x1_0000;
    assert q2 == q1 / 0x100;
    assert n as int / 0x100_0000 == q2 / 0x100;
  }

  function FromLe64(b: Bytes): UInt64
    requires |b| == 8
  {
    FromLe16(b[0..2]) + 0x1_0000 * FromLe16(b[2..4])
    + 0x1_0000_0000 * FromLe16(b[4..6]) + 0x1_0000_0000_0000 * FromLe16(b[6..8])
  }

  /** Eight bytes as a number, the least significant first. */
  lemma FromLe64Value(b: Bytes)
    requires |b| == 8
    ensures FromLe64(b) == b[0] as int + 0x100 * b[1] as int + 0x1_0000 * b[2] as int + 0x100_0000 * b[3] as int
                           + 0x1_0000_0000 * b[4] as int + 0x100_0000_0000 * b[5] as int
                           + 0x1_0000_0000_0000 * b[6] as int + 0x100_0000_0000_0000 * b[7] as int
  {
    assert b[0..2] == [b[0], b[1]] && b[2..4] == [b[2], b[3]];
    assert b[4..6] == [b[4], b[5]] && b[6..8] == [b[6], b[7]];
  }

  /** Concatenation of a list of byte strings. */
  function Flatten(chunks: seq<Bytes>): Bytes {
    if chunks == [] then [] else chunks[0] + Flatten(chunks[1..])
  }

  lemma {:induction false} FlattenConcat(a: seq<Bytes>, b: seq<Bytes>)
    ensures Flatten(a + b) == Flatten(a) + Flatten(b)
  {
    if a == [] {
      assert a + b == b;
    } else {
      assert (a + b)[1..] == a[1..] + b;
      FlattenConcat(a[1..], b);
    }
  }

  lemma Regroup(a: Bytes, b: Bytes, c: Bytes, d: Bytes)
    ensures a + b + c + d == a + (b + c + d)
  {
  }

  lemma BodyAtEnd(was: Bytes, body: Bytes)
    ensures (was + body)[|was + body| - |body|..] == body
  {
  }

  // Exclusive or

  /** Bit `i` of `n`, counted from the least significant one. */
  predicate Bit(n: nat, i: nat)
    decreases i
  {
    if i == 0 then n % 2 == 1 else Bit(n / 2, i - 1)
  }

  ghost predicate IsXor(a: nat, b: nat, r: nat) {
    forall i: nat :: Bit(r, i) == (Bit(a, i) != Bit(b, i))
  }

  /** The number whose every bit tells whether the two operands differ there. */
  ghost function Xor(a: nat, b: nat): nat {
    XorExists(a, b);
    var r: nat :| IsXor(a, b, r);
    r
  }

  lemma ZeroBits()
    ensures forall i: nat :: !Bit(0, i)
  {
    forall i: nat ensures !Bit(0, i) {
      ZeroBit(i);
    }
  }

  lemma {:induction false} ZeroBit(i: nat)
    ensures !Bit(0, i)
  {
    if i > 0 {
      ZeroBit(i - 1);
    }
  }

  lemma {:induction false} XorExists(a: nat, b: nat)
    ensures exists r: nat :: IsXor(a, b, r)
    decreases a + b
  {
    if a == 0 && b == 0 {
      ZeroBits();
      assert IsXor(0, 0, 0);
    } else {
      XorExists(a / 2, b / 2);
      var half: nat :| IsXor(a / 2, b / 2, half);
      XorStep(a, b, half);
    }
  }

  lemma XorStep(a: nat, b: nat, half: nat)
    requires IsXor(a / 2, b / 2, half)
    ensures IsXor(a, b, 2 * half + (if a % 2 == b % 2 then 0 else 1))
  {
    var r := 2 * half + (if a % 2 == b % 2 then 0 else 1);
    forall i: nat ensures Bit(r, i) == (Bit(a, i) != Bit(b, i)) {
      if i > 0 {
        assert r / 2 == half;
        assert Bit(half, i - 1) == (Bit(a / 2, i - 1) != Bit(b / 2, i - 1));
      }
    }
  }

  lemma {:induction false} SameBits(a: nat, b: nat)
    requires forall i: nat :: Bit(a, i) == Bit(b, i)
    ensures a == b
    decreases a + b
  {
    if a != 0 || b != 0 {
      assert Bit(a, 0) == Bit(b, 0);
      forall i: nat ensures Bit(a / 2, i) == Bit(b / 2, i) {
        assert Bit(a, i + 1) == Bit(b, i + 1);
      }
      SameBits(a / 2, b / 2);
    }
  }

  lemma XorUnique(a: nat, b: nat, r: nat)
    requires IsXor(a, b, r)
    ensures r == Xor(a, b)
  {
    XorExists(a, b);
    SameBits(r, Xor(a, b));
  }

  lemma XorUnfold(a: nat, b: nat)
    ensures Xor(a, b) == 2 * Xor(a / 2, b / 2) + if a % 2 == b % 2 then 0 else 1
  {
    XorExists(a / 2, b / 2);
    XorStep(a, b, Xor(a / 2, b / 2));
    XorUnique(a, b, 2 * Xor(a / 2, b / 2) + if a % 2 == b % 2 then 0 else 1);
  }

  /** Exclusive or undoes itself: the fact behind both masking and stream encryption. */
  lemma XorUndo(a: nat, b: nat)
    ensures Xor(Xor(a, b), b) == a
  {
    XorExists(a, b);
    var x := Xor(a, b);
    assert IsXor(a, b, x);
    assert IsXor(x, b, a);
    XorUnique(x, b, a);
  }

  lemma XorBits(a: nat, b: nat)
    ensures IsXor(a, b, Xor(a, b))
  {
    XorExists(a, b);
  }

  // Bits of shifted numbers

  lemma Quotient(n: nat, m: nat, q: nat, r: nat)
    requires r < m && n == q * m + r
    ensures n / m == q && n % m == r
  {
    var d := q - n / m;
    assert d * m == q * m - n / m * m;
    if d > 0 {
      AtLeastOnce(d, m);
    } else if d < 0 {
      AtLeastOnce(-d, m);
    }
  }

  lemma AtLeastOnce(d: nat, m: nat)
    requires d >= 1
    ensures d * m >= m
  {
  }

  /** `q` is `n` shifted right by `k` bits. */
  lemma {:induction false} BitDiv(n: nat, k: nat, q: nat, i: nat)
    requires q * Pow2(k) <= n < q * Pow2(k) + Pow2(k)
    ensures Bit(q, i) == Bit(n, i + k)
    decreases k
  {
    if k > 0 {
      Regrouped(q, Pow2(k - 1));
      BitDiv(n / 2, k - 1, q, i);
    }
  }

  lemma {:induction false} BitTimes(n: nat, k: nat, i: nat)
    ensures Bit(n * Pow2(k), i) == (i >= k && Bit(n, i - k))
    decreases k
  {
    if k > 0 {
      var half := n * Pow2(k - 1);
      assert n * Pow2(k) == 2 * half;
      if i > 0 {
        BitTimes(n, k - 1, i - 1);
      }
    }
  }

  /** `r` is what the lowest `k` bits of `n` make. */
  lemma {:induction false} BitMod(n: nat, k: nat, q: nat, r: nat, i: nat)
    requires n == q * Pow2(k) + r && r < Pow2(k)
    ensures Bit(r, i) == (i < k && Bit(n, i))
    decreases k
  {
    if k == 0 {
      ZeroBit(i);
    } else {
      Regrouped(q, Pow2(k - 1));
      Halves(n, q * Pow2(k - 1), r);
      if i > 0 {
        BitMod(n / 2, k - 1, q, r / 2, i - 1);
      }
    }
  }

  lemma Regrouped(q: nat, m: nat)
    ensures q * (2 * m) == 2 * (q * m)
  {
  }

  lemma Halves(n: nat, x: nat, r: nat)
    requires n == 2 * x + r
    ensures n / 2 == x + r / 2 && n % 2 == r % 2
  {
  }

  function Pow2(k: nat): (r: nat)
    ensures r >= 1
  {
    if k == 0 then 1 else 2 * Pow2(k - 1)
  }

  lemma {:induction false} XorBelow(a: nat, b: nat, k: nat)
    requires a < Pow2(k) && b < Pow2(k)
    ensures Xor(a, b) < Pow2(k)
    decreases k
  {
    if k == 0 {
      ZeroBits();
      XorUnique(0, 0, 0);
    } else {
      XorBelow(a / 2, b / 2, k - 1);
      XorUnfold(a, b);
    }
  }

  lemma {:induction false} Pow2Sum(j: nat, k: nat)
    ensures Pow2(j + k) == Pow2(j) * Pow2(k)
  {
    if j > 0 {
      Pow2Sum(j - 1, k);
    }
  }

  lemma Pow2Widths()
    ensures Pow2(8) == 0x100 && Pow2(16) == 0x1_0000 && Pow2(64) == 0x1_0000_0000_0000_0000
  {
    Pow2Sum(8, 8);
    Pow2Sum(16, 16);
    Pow2Sum(32, 32);
  }

  ghost function Xor8(a: Byte, b: Byte): Byte {
    Pow2Widths();
    XorBelow(a, b, 8);
    Xor(a, b)
  }

  ghost function Xor16(a: UInt16, b: UInt16): UInt16 {
    Pow2Widths();
    XorBelow(a, b, 16);
    Xor(a, b)
  }

  ghost function Xor64(a: UInt64, b: UInt64): UInt64 {
    Pow2Widths();
    XorBelow(a, b, 64);
    Xor(a, b)
  }

  /** The machine operation, worked out bit by bit. */
  method ComputeXor(a: nat, b: nat) returns (r: nat)
    ensures r == Xor(a, b)
    decreases a + b
  {
    if a == 0 && b == 0 {
      r := 0;
      ZeroBits();
      XorUnique(a, b, r);
    } else {
      var half := ComputeXor(a / 2, b / 2);
      r := 2 * half + (if a % 2 == b % 2 then 0 else 1);
      XorUnfold(a, b);
    }
  }

  method ComputeXor8(a: Byte, b: Byte) returns (r: Byte)
    ensures r == Xor8(a, b)
  {
    var x := ComputeXor(a, b);
    assert x == Xor8(a, b);
    r := x;
  }

  method ComputeXor16(a: UInt16, b: UInt16) returns (r: UInt16)
    ensures r == Xor16(a, b)
  {
    var x := ComputeXor(a, b);
    assert x == Xor16(a, b);
    r := x;
  }

  method ComputeXor64(a: UInt64, b: UInt64) returns (r: UInt64)
    ensures r == Xor64(a, b)
  {
    var x := ComputeXor(a, b);
    assert x == Xor64(a, b);
    r := x;
  }

  /** `data` combined with the key stream from offset `offset` on. */
  ghost function XorStream(keystream: nat -> Byte, offset: nat, data: Bytes): (r: Bytes)
    ensures |r| == |data|
  {
    seq(|data|, i requires 0 <= i < |data| => Xor8(data[i], keystream(offset + i)))
  }

  /** Every bit of every byte is changed exactly where the key stream has a one. */
  lemma XorStreamBits(keystream: nat -> Byte, offset: nat, data: Bytes)
    ensures forall i | 0 <= i < |data| ::
              IsXor(data[i], keystream(offset + i), XorStream(keystream, offset, data)[i])
  {
    forall i | 0 <= i < |data|
      ensures IsXor(data[i], keystream(offset + i), XorStream(keystream, offset, data)[i])
    {
      XorBits(data[i], keystream(offset + i));
    }
  }

  lemma XorStreamConcat(keystream: nat -> Byte, offset: nat, a: Bytes, b: Bytes)
    ensures XorStream(keystream, offset, a + b)
         == XorStream(keystream, offset, a) + XorStream(keystream, offset + |a|, b)
  {
  }

  lemma XorStreamUndo(keystream: nat -> Byte, offset: nat, data: Bytes)
    ensures XorStream(keystream, offset, XorStream(keystream, offset, data)) == data
  {
    var once := XorStream(keystream, offset, data);
    forall i | 0 <= i < |data| ensures XorStream(keystream, offset, once)[i] == data[i] {
      XorUndo(data[i], keystream(offset + i));
    }
  }
}
