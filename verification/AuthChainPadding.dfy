/**
 How much padding an auth_chain frame carries. Both ends compute it from the frame's data
 length, the previous frame's hash and a generator seeded from that hash; doing so
 overwrites two bytes of the hash. The two variants differ in nothing but this rule.
 */
module AuthChainPadding {
  import opened Octets
  import opened Random

  const LENGTH_LIMIT := 4096
  const CHUNK := 2800

  datatype Padded = Padded(pad: nat, hash: Block, gen: Generator)

  /**
   What the frame format needs of a rule. Frames that a sender may build stay below the
   receiver's limit. Neither the two hash bytes that get overwritten nor the generator that
   gets reseeded has any influence where it matters. Applying the rule again, to the hash
   and generator it left behind, gives the same again.
   */
  ghost predicate LawfulAt(
    rule: (nat, Block, Generator) -> Padded, n: nat, h: Block, h': Block, g: Generator, g': Generator)
  {
    var a, b := rule(n, h, g), rule(n, h', g');
    && (n <= CHUNK ==> n + a.pad < LENGTH_LIMIT)
    && a.hash[2..] == h[2..]
    && (h[2..] == h'[2..] ==> a.pad == b.pad && (a.pad > 0 ==> a == b))
    && rule(n, a.hash, a.gen) == a
  }

  ghost predicate Lawful(rule: (nat, Block, Generator) -> Padded) {
    forall n: nat, h: Block, h': Block, g: Generator, g': Generator :: LawfulAt(rule, n, h, h', g, g')
  }

  ghost function Fallback(length: nat, gen: Generator): (r: nat)
    ensures r <= 1020 && (length > 400 ==> r <= 520)
  {
    if length > 1300 then Draw(gen) % 31
    else if length > 900 then Draw(gen) % 127
    else if length > 400 then Draw(gen) % 521
    else Draw(gen) % 1021
  }

  // Variant a

  ghost function PadA(length: nat, hash: Block, gen: Generator): Padded {
    if length > 1440 then Padded(0, hash, gen) else
    var g := Warm(Stamp(hash, length));
    Padded(Fallback(length, g), Stamp(hash, length), Advance(g))
  }

  ghost function RuleA(): (nat, Block, Generator) -> Padded {
    (length: nat, hash: Block, gen: Generator) => PadA(length, hash, gen)
  }

  lemma RuleALawful()
    ensures Lawful(RuleA())
  {
    forall n: nat, h: Block, h': Block, g: Generator, g': Generator ensures LawfulAt(RuleA(), n, h, h', g, g') {
      StampForgets(h, h, n);
      if h[2..] == h'[2..] {
        StampForgets(h, h', n);
      }
    }
  }

  // Variant b

  /** The sizes that frames should come out at, drawn from the key when the stream opens. */
  ghost predicate SizeList(list: seq<int>) {
    && list != []
    && (forall i, j | 0 <= i < j < |list| :: list[i] <= list[j])
    && (forall i | 0 <= i < |list| :: 0 <= list[i] < 1440)
  }

  /** The least index whose entry is at least `size`, or the length when there is none. */
  function SearchIndex(list: seq<int>, size: int): (r: nat)
    ensures r <= |list|
    ensures forall i | 0 <= i < r :: list[i] < size
    ensures r < |list| ==> list[r] >= size
  {
    if list == [] || list[0] >= size then 0 else 1 + SearchIndex(list[1..], size)
  }

  /** The index that variant b looks up: the first size that fits, moved on by one draw. */
  ghost function Slot(list: seq<int>, size: int, gen: Generator): nat
    requires list != []
  {
    SearchIndex(list, size) + Draw(gen) % |list|
  }

  ghost function PadB(
    overhead: nat, sizes: seq<int>, sizes2: seq<int>, length: nat, hash: Block, gen: Generator): Padded
    requires SizeList(sizes) && SizeList(sizes2)
  {
    if length >= 1440 then Padded(0, hash, gen) else
    var stamped := Stamp(hash, length);
    var g0 := Warm(stamped);
    var size := length + overhead;
    var slot := Slot(sizes, size, g0);
    var g1 := Advance(g0);
    if slot < |sizes| then Padded(sizes[slot] - size, stamped, g1) else
    var slot2 := Slot(sizes2, size, g1);
    var g2 := Advance(g1);
    if slot2 < |sizes2| then Padded(sizes2[slot2] - size, stamped, g2)
    else if slot2 < SearchIndex(sizes2, size) + |sizes2| - 1 then Padded(0, stamped, g2)
    else Padded(Fallback(length, g2), stamped, Advance(g2))
  }

  ghost function RuleB(overhead: nat, sizes: seq<int>, sizes2: seq<int>): (nat, Block, Generator) -> Padded
    requires SizeList(sizes) && SizeList(sizes2)
  {
    (length: nat, hash: Block, gen: Generator) => PadB(overhead, sizes, sizes2, length, hash, gen)
  }

  lemma RuleBLawful(overhead: nat, sizes: seq<int>, sizes2: seq<int>)
    requires SizeList(sizes) && SizeList(sizes2)
    ensures Lawful(RuleB(overhead, sizes, sizes2))
  {
    var rule := RuleB(overhead, sizes, sizes2);
    forall n: nat, h: Block, h': Block, g: Generator, g': Generator ensures LawfulAt(rule, n, h, h', g, g') {
      StampForgets(h, h, n);
      if h[2..] == h'[2..] {
        StampForgets(h, h', n);
      }
    }
  }

  /** A padding that variant b takes from a list brings the frame to a size on that list. */
  lemma PaddingHitsSize(overhead: nat, sizes: seq<int>, sizes2: seq<int>, length: nat, hash: Block, gen: Generator)
    requires SizeList(sizes) && SizeList(sizes2)
    requires length < 1440
    ensures var g := Warm(Stamp(hash, length));
            var size := length + overhead;
            var r := PadB(overhead, sizes, sizes2, length, hash, gen);
            if Slot(sizes, size, g) < |sizes| then size + r.pad in sizes
            else Slot(sizes2, size, Advance(g)) < |sizes2| ==> size + r.pad in sizes2
  {
    var size := length + overhead;
    var slot := Slot(sizes, size, Warm(Stamp(hash, length)));
    if slot < |sizes| {
      assert sizes[slot] in sizes;
    }
  }

  // The rules in numbers

  /** `r` is what remains of `n` after taking away `m` as often as possible. */
  predicate Remainder(n: nat, m: nat, r: nat) {
    r < m && (n - r) % m == 0
  }

  /** `r` is the remainder of the number drawn after seeding and four steps, by data length. */
  predicate PadBelow(length: nat, drawn: nat, r: nat) {
    if length > 1300 then Remainder(drawn, 31, r)
    else if length > 900 then Remainder(drawn, 127, r)
    else if length > 400 then Remainder(drawn, 521, r)
    else Remainder(drawn, 1021, r)
  }

  lemma RemainderOf(n: nat, m: nat)
    requires m > 0
    ensures Remainder(n, m, n % m)
  {
    assert n - n % m == n / m * m;
    Quotient(n - n % m, m, n / m, 0);
  }

  /** Variant a: padding, hash and generator by data length, from one number drawn. */
  lemma PadAValue(length: nat, hash: Block, gen: Generator)
    ensures length > 1440 ==> PadA(length, hash, gen) == Padded(0, hash, gen)
    ensures length <= 1440 ==>
              var r, g := PadA(length, hash, gen), Warm(Stamp(hash, length));
              r.hash == Stamp(hash, length) && r.gen == Advance(g) && PadBelow(length, Draw(g), r.pad)
  {
    hide Remainder, Warm, Stamp, Advance, Draw;
    var drawn := Draw(Warm(Stamp(hash, length)));
    RemainderOf(drawn, 31);
    RemainderOf(drawn, 127);
    RemainderOf(drawn, 521);
    RemainderOf(drawn, 1021);
  }

  /** The looked-up index is past every smaller size, by a remainder of the number drawn. */
  lemma SlotValue(list: seq<int>, size: int, gen: Generator)
    requires list != []
    ensures var first := SearchIndex(list, size);
            first <= Slot(list, size, gen) && Remainder(Draw(gen), |list|, Slot(list, size, gen) - first)
  {
    RemainderOf(Draw(gen), |list|);
  }

  /**
   Variant b: a size from the first list, one draw on; else one from the second, two draws on;
   else nothing, unless the last index was reached; and then a remainder of a third number.
   */
  lemma PadBValue(overhead: nat, sizes: seq<int>, sizes2: seq<int>, length: nat, hash: Block, gen: Generator)
    requires SizeList(sizes) && SizeList(sizes2)
    ensures var r := PadB(overhead, sizes, sizes2, length, hash, gen);
            if length >= 1440 then r == Padded(0, hash, gen) else
            var g, size := Warm(Stamp(hash, length)), length + overhead;
            var slot, slot2 := Slot(sizes, size, g), Slot(sizes2, size, Advance(g));
            && r.hash == Stamp(hash, length)
            && (slot < |sizes| ==> size + r.pad == sizes[slot] && r.gen == Advance(g))
            && (slot >= |sizes| && slot2 < |sizes2| ==>
                size + r.pad == sizes2[slot2] && r.gen == Advance(Advance(g)))
            && (slot >= |sizes| && |sizes2| <= slot2 < SearchIndex(sizes2, size) + |sizes2| - 1 ==>
                r.pad == 0 && r.gen == Advance(Advance(g)))
            && (slot >= |sizes| && |sizes2| <= slot2 && slot2 == SearchIndex(sizes2, size) + |sizes2| - 1 ==>
                PadBelow(length, Draw(Advance(Advance(g))), r.pad) && r.gen == Advance(Advance(Advance(g))))
  {
    hide Remainder, Warm, Stamp, Advance, Draw;
    if length < 1440 {
      var g := Warm(Stamp(hash, length));
      var drawn := Draw(Advance(Advance(g)));
      RemainderOf(drawn, 31);
      RemainderOf(drawn, 127);
      RemainderOf(drawn, 521);
      RemainderOf(drawn, 1021);
    }
  }
}
