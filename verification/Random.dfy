/** The xorshift128+ generator that both ends of an auth_chain stream run in step. */
module Random {
  import opened Octets

  type Block = b: Bytes | |b| == 16 witness seq(16, _ => 0)

  datatype Generator = Generator(s0: UInt64, s1: UInt64)

  const WORD := 0x1_0000_0000_0000_0000

  ghost function Advance(g: Generator): Generator {
    var x := Xor64(g.s0, g.s0 * 0x80_0000 % WORD);
    Generator(g.s1, Xor64(x, Xor64(Xor64(g.s1, x / 0x2_0000), g.s1 / 0x400_0000)))
  }

  /** The number returned by the call that moves the generator from `g` to `Advance(g)`. */
  ghost function Draw(g: Generator): UInt64 {
    (Advance(g).s1 + g.s1) % WORD
  }

  /** Bit `i` of the first word exclusive-ored with itself shifted left by 23, as 64-bit words are. */
  predicate MixedBit(g: Generator, i: nat) {
    i < 64 && Bit(g.s0, i) != (i >= 23 && Bit(g.s0, i - 23))
  }

  lemma MixBits(g: Generator, i: nat)
    ensures Bit(Xor64(g.s0, g.s0 * 0x80_0000 % WORD), i) == MixedBit(g, i)
  {
    hide Bit, Pow2;
    var shifted := g.s0 as int * 0x80_0000;
    var low := shifted % WORD;
    Powers();
    XorBits(g.s0, low);
    BitTimes(g.s0, 23, i);
    BitMod(shifted, 64, shifted / WORD, low, i);
    BitMod(g.s0, 64, 0, g.s0, i);
    assert IsXor(g.s0, low, Xor64(g.s0, low));
  }

  lemma Powers()
    ensures Pow2(17) == 0x2_0000 && Pow2(23) == 0x80_0000 && Pow2(26) == 0x400_0000 && Pow2(64) == WORD
  {
    hide Pow2;
    Pow2Widths();
    Pow2Sum(16, 1);
    Pow2Sum(16, 7);
    Pow2Sum(16, 10);
    SmallPowers();
  }

  lemma SmallPowers()
    ensures Pow2(1) == 2 && Pow2(7) == 0x80 && Pow2(10) == 0x400
  {
    assert Pow2(4) == 16;
    Pow2Sum(4, 3);
    Pow2Sum(7, 3);
  }

  /**
   The generator bit by bit: the second word moves to the first, and the new second word is
   made of the mixed first word, itself shifted right by 17, and the old second word, itself
   shifted right by 26. The number drawn is the sum of the two new words in 64 bits.
   */
  lemma AdvanceBits(g: Generator, i: nat)
    ensures Advance(g).s0 == g.s1
    ensures Bit(Advance(g).s1, i)
         == ((MixedBit(g, i) != Bit(g.s1, i)) != (MixedBit(g, i + 17) != Bit(g.s1, i + 26)))
    ensures Draw(g) == (Advance(g).s0 as int + Advance(g).s1 as int) % 0x1_0000_0000_0000_0000
  {
    hide Bit, Pow2, MixedBit;
    var x := Xor64(g.s0, g.s0 * 0x80_0000 % WORD);
    var a := x / 0x2_0000;
    var b := g.s1 / 0x400_0000;
    var c := Xor64(g.s1, a);
    var d := Xor64(c, b);
    Powers();
    MixBits(g, i);
    MixBits(g, i + 17);
    BitDiv(x, 17, a, i);
    BitDiv(g.s1, 26, b, i);
    XorBits(g.s1, a);
    XorBits(c, b);
    XorBits(x, d);
    assert IsXor(g.s1, a, c) && IsXor(c, b, d) && IsXor(x, d, Advance(g).s1);
  }

  /** The two words as their bytes give them, and the four steps after seeding. */
  lemma WarmSteps(bin: Block)
    ensures Seed(bin) == Generator(FromLe64(bin[..8]), FromLe64(bin[8..]))
    ensures Warm(bin) == Advance(Advance(Advance(Advance(Seed(bin)))))
  {
    hide Advance;
    var g := Seed(bin);
    assert AdvanceBy(g, 1) == Advance(AdvanceBy(g, 0));
    assert AdvanceBy(g, 2) == Advance(AdvanceBy(g, 1));
    assert AdvanceBy(g, 3) == Advance(AdvanceBy(g, 2));
    assert AdvanceBy(g, 4) == Advance(AdvanceBy(g, 3));
  }

  function Seed(bin: Block): Generator {
    Generator(FromLe64(bin[..8]), FromLe64(bin[8..]))
  }

  ghost function AdvanceBy(g: Generator, n: nat): Generator {
    if n == 0 then g else Advance(AdvanceBy(g, n - 1))
  }

  const WARM_UP: nat := 4

  /** The generator after seeding and the four steps that follow it. */
  ghost function Warm(bin: Block): Generator {
    AdvanceBy(Seed(bin), WARM_UP)
  }

  /** `bin` after its first two bytes have been overwritten by the length. */
  function Stamp(bin: Block, length: int): Block {
    Le16(length % 0x1_0000) + bin[2..]
  }

  /** Stamping forgets the two bytes it overwrites, so stamping twice is stamping once. */
  lemma StampForgets(bin: Block, bin': Block, length: int)
    requires bin[2..] == bin'[2..]
    ensures Stamp(bin, length) == Stamp(bin', length) == Stamp(Stamp(bin, length), length)
    ensures Stamp(bin, length)[2..] == bin[2..]
    ensures Stamp(bin, length)[0] == length % 0x100
    ensures Stamp(bin, length)[1] == length / 0x100 % 0x100
  {
    SecondByte(length);
  }

  lemma SecondByte(length: int)
    ensures length % 0x1_0000 % 0x100 == length % 0x100
    ensures length % 0x1_0000 / 0x100 == length / 0x100 % 0x100
  {
    var q := length / 0x1_0000;
    var r := length % 0x1_0000;
    assert length == q * 0x1_0000 + r;
    assert length / 0x100 == q * 0x100 + r / 0x100;
  }

  class XorShift128Plus {
    var s0: UInt64
    var s1: UInt64

    ghost function State(): Generator
      reads this
    {
      Generator(s0, s1)
    }

    constructor ()
      ensures State() == Generator(0, 0)
    {
      s0, s1 := 0, 0;
    }

    method Next() returns (value: UInt64)
      modifies this
      ensures State() == Advance(old(State()))
      ensures value == Draw(old(State()))
    {
      var x, y := s0, s1;
      s0 := y;
      x := ComputeXor64(x, x as int * 0x80_0000 % WORD);
      var z := ComputeXor64(y, x / 0x2_0000);
      z := ComputeXor64(z, y / 0x400_0000);
      x := ComputeXor64(x, z);
      s1 := x;
      value := (x as int + y as int) % WORD;
    }

    method InitFromBin(bin: Bytes)
      requires |bin| >= 16
      modifies this
      ensures State() == Seed(bin[..16])
    {
      s0 := FromLe64(bin[..8]);
      s1 := FromLe64(bin[8..16]);
      assert bin[..16][..8] == bin[..8] && bin[..16][8..] == bin[8..16];
    }

    /** Overwrites the first two bytes of the caller's array before seeding from it. */
    method InitFromBinAndLength(bin: array<Byte>, length: int)
      requires bin.Length == 16
      modifies this, bin
      ensures bin[..] == Stamp(old(bin[..]), length)
      ensures State() == Warm(bin[..])
    {
      ghost var was := bin[..];
      var prefix := Le16(length % 0x1_0000);
      bin[0] := prefix[0];
      bin[1] := prefix[1];
      assert bin[..] == Stamp(was, length);
      s0 := FromLe64(bin[..8]);
      s1 := FromLe64(bin[8..16]);
      ghost var seeded := State();
      assert bin[..8] == bin[..][..8] && bin[8..16] == bin[..][8..];
      for i := 0 to WARM_UP
        invariant State() == AdvanceBy(seeded, i)
        invariant bin[..] == Stamp(was, length)
      {
        var _ := Next();
      }
    }
  }
}
