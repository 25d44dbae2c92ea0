/** The allocator of byte buffers in power-of-two size classes. */
module Allocator {
  import opened Octets

  const CLASSES := 17
  const LARGEST := 65536

  // Size classes

  /** The number of bits needed to write `n`. */
  function BitLength(n: nat): nat {
    if n == 0 then 0 else 1 + BitLength(n / 2)
  }

  /** The position of the most significant bit, in the source's integer widths. */
  function Msb(size: int): UInt16 {
    (BitLength(size % 0x1_0000_0000) - 1) % 0x1_0000
  }

  function ClassOf(size: int): nat {
    var bits := Msb(size);
    if size == Pow2(bits) then bits else bits + 1
  }

  lemma {:induction false} BitLengthBounds(n: nat)
    requires n >= 1
    ensures BitLength(n) >= 1 && Pow2(BitLength(n) - 1) <= n < Pow2(BitLength(n))
  {
    if n >= 2 {
      BitLengthBounds(n / 2);
    } else {
      assert BitLength(1) == 1 + BitLength(0) && Pow2(1) == 2 * Pow2(0);
    }
  }

  lemma {:induction false} Pow2Monotone(j: nat, k: nat)
    requires j <= k
    ensures Pow2(j) <= Pow2(k)
    decreases k - j
  {
    if j < k {
      Pow2Monotone(j, k - 1);
    }
  }

  lemma Doubles(k: nat)
    ensures Pow2(k + 1) == 2 * Pow2(k)
  {
  }

  /** Bit lengths of sizes that are pooled stay in range. */
  lemma PooledMsb(size: int)
    requires 1 <= size <= LARGEST
    ensures Msb(size) <= 16 && Pow2(Msb(size)) <= size < 2 * Pow2(Msb(size))
    ensures Msb(size) == 16 ==> size == LARGEST
  {
    hide Pow2, BitLength;
    BitLengthBounds(size);
    Pow2Widths();
    var k := BitLength(size) - 1;
    Doubles(k);
    Doubles(16);
    if k > 16 {
      Pow2Monotone(17, k);
    }
  }

  /** The class of a size is the smallest that holds it, and wastes less than half. */
  lemma ClassFits(size: int)
    requires 1 <= size <= LARGEST
    ensures ClassOf(size) < CLASSES
    ensures size <= Pow2(ClassOf(size)) < 2 * size
    ensures forall k: nat :: size <= Pow2(k) <==> ClassOf(size) <= k
  {
    hide Pow2, Msb;
    PooledMsb(size);
    Pow2Widths();
    var c := ClassOf(size);
    Doubles(Msb(size));
    forall k: nat ensures size <= Pow2(k) <==> c <= k {
      if c <= k {
        Pow2Monotone(c, k);
      } else {
        Pow2Monotone(k, c - 1);
        Doubles(c - 1);
      }
    }
  }

  /** A capacity is put back into the class it was taken from. */
  lemma ClassOfPower(k: nat)
    requires k < CLASSES
    ensures 1 <= Pow2(k) <= LARGEST && Msb(Pow2(k)) == k
  {
    hide Pow2, Msb;
    Pow2Widths();
    Pow2Monotone(k, 16);
    PooledMsb(Pow2(k));
    var m := Msb(Pow2(k));
    Doubles(m);
    Doubles(k);
    if m < k {
      Pow2Monotone(m + 1, k);
    } else if k < m {
      Pow2Monotone(k + 1, m);
    }
  }

  // Buffers

  /** A byte slice: the memory it lies in, and its capacity and length. */
  datatype Slice = Slice(id: nat, cap: nat, len: nat)

  datatype Taken = OutOfRange | Nil | Buffer(slice: Slice)

  /** Class i holds only capacities 2^i. */
  ghost predicate Sized(pools: seq<multiset<Slice>>) {
    |pools| == CLASSES && forall i: nat, s | Holds(pools, i, s) :: s.cap == Pow2(i)
  }

  /**
   No memory is in two places: in two slots of the pools, or in a slot and a caller's hands.
   All memory has been made, the first `next` numbers being in use.
   */
  ghost predicate Separate(pools: seq<multiset<Slice>>, outstanding: set<nat>, next: nat) {
    && (forall id | id in outstanding :: id < next)
    && (forall i: nat, s | Holds(pools, i, s) :: OnlySlot(pools, outstanding, next, i, s))
  }

  predicate Holds(pools: seq<multiset<Slice>>, i: nat, s: Slice) {
    i < |pools| && s in pools[i]
  }

  ghost predicate OnlySlot(pools: seq<multiset<Slice>>, outstanding: set<nat>, next: nat, i: nat, s: Slice)
    requires Holds(pools, i, s)
  {
    && s.id < next && s.id !in outstanding && pools[i][s] == 1
    && forall j: nat, t | Holds(pools, j, t) && t.id == s.id :: j == i && t == s
  }

  lemma TakingKeeps(pools: seq<multiset<Slice>>, outstanding: set<nat>, next: nat, i: nat, s: Slice)
    requires Holds(pools, i, s)
    ensures var pools' := pools[i := pools[i] - multiset{s}];
            && (Sized(pools) ==> Sized(pools'))
            && (Separate(pools, outstanding, next) ==> Separate(pools', outstanding + {s.id}, next))
  {
    var pools' := pools[i := pools[i] - multiset{s}];
    forall j: nat, t | Holds(pools', j, t) ensures Holds(pools, j, t) && pools'[j][t] <= pools[j][t] {
    }
    if Separate(pools, outstanding, next) {
      assert OnlySlot(pools, outstanding, next, i, s);
      forall j: nat, t | Holds(pools', j, t) ensures OnlySlot(pools', outstanding + {s.id}, next, j, t) {
        assert OnlySlot(pools, outstanding, next, j, t);
        assert t.id != s.id;
      }
    }
  }

  lemma ReturningKeeps(pools: seq<multiset<Slice>>, outstanding: set<nat>, next: nat, i: nat, s: Slice)
    requires i < |pools| && s.cap == Pow2(i)
    ensures var pools' := pools[i := pools[i] + multiset{s}];
            && (Sized(pools) ==> Sized(pools'))
            && (Separate(pools, outstanding, next) && s.id in outstanding ==>
                Separate(pools', outstanding - {s.id}, next))
  {
    hide Pow2;
    var pools' := pools[i := pools[i] + multiset{s}];
    forall j: nat, t | Holds(pools', j, t)
      ensures (j == i && t == s) || (Holds(pools, j, t) && pools'[j][t] == pools[j][t])
    {
    }
    if Separate(pools, outstanding, next) && s.id in outstanding {
      forall j: nat, t | Holds(pools, j, t) ensures t.id != s.id {
        assert OnlySlot(pools, outstanding, next, j, t);
      }
      assert !Holds(pools, i, s);
      forall j: nat, t | Holds(pools', j, t) ensures OnlySlot(pools', outstanding - {s.id}, next, j, t) {
        if Holds(pools, j, t) {
          assert OnlySlot(pools, outstanding, next, j, t);
        }
      }
    }
  }

  lemma DroppingKeeps(pools: seq<multiset<Slice>>, outstanding: set<nat>, next: nat, id: nat)
    requires Separate(pools, outstanding, next)
    ensures Separate(pools, outstanding - {id}, next)
  {
    forall i: nat, s | Holds(pools, i, s) ensures OnlySlot(pools, outstanding - {id}, next, i, s) {
      assert OnlySlot(pools, outstanding, next, i, s);
    }
  }

  /** Memory never made before is in no slot. */
  lemma MakingKeeps(pools: seq<multiset<Slice>>, outstanding: set<nat>, next: nat)
    requires Separate(pools, outstanding, next)
    ensures Separate(pools, outstanding + {next}, next + 1) && next !in outstanding
  {
    forall i: nat, s | Holds(pools, i, s) ensures OnlySlot(pools, outstanding + {next}, next + 1, i, s) {
      assert OnlySlot(pools, outstanding, next, i, s);
    }
  }

  class BufferAllocator {
    /** What each class holds. */
    var pools: seq<multiset<Slice>>
    /** Memory made so far, memory in callers' hands, and whether they returned only what they held. */
    var next: nat
    ghost var outstanding: set<nat>
    ghost var honest: bool

    ghost predicate Valid()
      reads this
    {
      Sized(pools) && (honest ==> Separate(pools, outstanding, next))
    }

    constructor ()
      ensures Valid() && honest && outstanding == {}
    {
      pools := seq(CLASSES, i => multiset{});
      next, outstanding, honest := 0, {}, true;
    }

    method Make(size: nat) returns (s: Slice)
      requires Valid()
      modifies this`next, this`outstanding
      ensures Valid() && s == Slice(old(next), size, size)
      ensures honest ==> s.id !in old(outstanding)
      ensures outstanding == old(outstanding) + {s.id}
    {
      hide Separate;
      if honest {
        MakingKeeps(pools, outstanding, next);
      }
      s := Slice(next, size, size);
      next := next + 1;
      outstanding := outstanding + {s.id};
    }

    /** A pool gives any of what it holds, or makes something new. */
    method TakeFrom(sizeClass: nat) returns (s: Slice)
      requires Valid() && sizeClass < CLASSES
      modifies this`pools, this`next, this`outstanding
      ensures Valid() && s.cap == Pow2(sizeClass)
      ensures honest ==> s.id !in old(outstanding)
      ensures outstanding == old(outstanding) + {s.id}
    {
      hide Pow2, Separate;
      var reuse: bool := *;
      Held(sizeClass);
      if reuse && |pools[sizeClass]| > 0 {
        s :| s in pools[sizeClass];
        TakingKeeps(pools, outstanding, next, sizeClass, s);
        pools := pools[sizeClass := pools[sizeClass] - multiset{s}];
        outstanding := outstanding + {s.id};
      } else {
        s := Make(Pow2(sizeClass));
      }
    }

    lemma Held(sizeClass: nat)
      requires Valid() && sizeClass < CLASSES
      ensures forall s | s in pools[sizeClass] :: s.cap == Pow2(sizeClass) && (honest ==> s.id !in outstanding)
    {
      forall s | s in pools[sizeClass] ensures s.cap == Pow2(sizeClass) && (honest ==> s.id !in outstanding) {
        assert Holds(pools, sizeClass, s);
      }
    }

    /**
     For sizes up to 65536 a buffer of the smallest power-of-two capacity that holds the size;
     never memory that a caller still has, as long as all callers are honest.
     */
    method Get(size: int) returns (r: Taken)
      requires Valid()
      modifies this`pools, this`next, this`outstanding
      ensures Valid()
      ensures r == OutOfRange <==> size < 0
      ensures r == Nil <==> size == 0
      ensures r.Buffer? <==> size > 0
      ensures r.Buffer? ==>
                && r.slice.len == size <= r.slice.cap
                && (honest ==> r.slice.id !in old(outstanding))
                && outstanding == old(outstanding) + {r.slice.id}
      ensures 1 <= size <= 65536 ==> r.slice.cap == Pow2(ClassOf(size)) && r.slice.cap < 2 * size
      ensures size > 65536 ==> r.slice.cap == size
    {
      if size < 0 {
        return OutOfRange;
      } else if size == 0 {
        return Nil;
      } else if size > LARGEST {
        var s := Make(size);
        return Buffer(s);
      }
      hide Pow2, Msb, Sized, Separate;
      ClassFits(size);
      var bits := Msb(size);
      var s;
      if size == Pow2(bits) {
        s := TakeFrom(bits);
      } else {
        s := TakeFrom(bits + 1);
      }
      assert size <= s.cap;
      r := Buffer(s.(len := size));
    }

    /** A buffer goes to the class of its capacity; one of another capacity is refused or dropped. */
    method Put(buf: Slice) returns (refused: bool)
      requires Valid()
      modifies this`pools, this`outstanding, this`honest
      ensures Valid() && honest == (old(honest) && (buf.cap == 0 || buf.id in old(outstanding)))
      ensures outstanding == old(outstanding) - {buf.id}
      ensures refused <==> 1 <= buf.cap <= 65536 && forall k: nat :: buf.cap != Pow2(k)
      ensures pools == old(pools)
           || exists k: nat ::
                && k < 17 && buf.cap == Pow2(k)
                && pools == old(pools)[k := old(pools)[k] + multiset{buf}]
      ensures (exists k: nat :: k < 17 && buf.cap == Pow2(k)) ==> pools != old(pools)
    {
      hide Pow2, Sized, Separate, Msb;
      ghost var held := outstanding;
      honest := honest && (buf.cap == 0 || buf.id in outstanding);
      outstanding := outstanding - {buf.id};
      if honest {
        DroppingKeeps(pools, held, next, buf.id);
      }
      if buf.cap == 0 || buf.cap > LARGEST {
        NotPooled(buf.cap);
        return false;
      }
      PooledMsb(buf.cap);
      var bits := Msb(buf.cap);
      if buf.cap != Pow2(bits) {
        NoPower(buf.cap);
        return true;
      }
      Classes();
      Adding(pools[bits], buf);
      ReturningKeeps(pools, held, next, bits, buf);
      pools := pools[bits := pools[bits] + multiset{buf}];
      refused := false;
    }

    lemma Classes()
      requires Valid()
      ensures |pools| == CLASSES
    {
    }

    lemma Adding(pool: multiset<Slice>, s: Slice)
      ensures pool + multiset{s} != pool
    {
      assert (pool + multiset{s})[s] == pool[s] + 1;
    }
  }

  lemma NotPooled(cap: nat)
    requires cap == 0 || cap > LARGEST
    ensures forall k: nat :: k < CLASSES ==> cap != Pow2(k)
  {
    forall k: nat | k < CLASSES ensures cap != Pow2(k) {
      ClassOfPower(k);
    }
  }

  lemma NoPower(cap: nat)
    requires 1 <= cap <= LARGEST && cap != Pow2(Msb(cap))
    ensures forall k: nat :: cap != Pow2(k)
  {
    hide Pow2, Msb;
    forall k: nat ensures cap != Pow2(k) {
      if k < CLASSES {
        ClassOfPower(k);
      } else {
        Pow2Widths();
        Doubles(16);
        Pow2Monotone(17, k);
      }
    }
  }
}
