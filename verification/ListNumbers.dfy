/// Which numberings of core_list_init repeat an index.
///
/// The first fifth of the positions is numbered in order, the others by a bit
/// pattern.  For up to 322 slots the low bytes of the patterns differ, so that only
/// a pattern below the numbers in order can repeat an index; in larger blocks some
/// two patterns always agree.

module ListNumbers {
  import opened Arithmetic
  import opened ListCells
  import opened ListInit

  // ------------------------------------------------------------------- bits

  /** The low n bits of x. */
  function LowBits(x: nat, n: nat): nat {
    if n == 0 then 0 else x % 2 + 2 * LowBits(x / 2, n - 1)
  }

  lemma LowStep(x: nat, n: nat)
    requires n > 0
    ensures LowBits(x, n) == x % 2 + 2 * LowBits(x / 2, n - 1)
  {
  }

  lemma NoBits(a: nat, b: nat)
    ensures LowBits(a, 0) == 0 && BitXor(a, b, 0) == 0 && BitOr(a, b, 0) == 0
  {
  }

  /** They are the remainder modulo 2^n. */
  lemma {:induction false} LowIsRemainder(x: nat, n: nat)
    ensures LowBits(x, n) == x % Pow2(n)
  {
    if n > 0 {
      LowIsRemainder(x / 2, n - 1);
      HalvedRemainder(x, Pow2(n - 1));
    }
  }

  lemma HalvedRemainder(x: nat, p: nat)
    requires p > 0
    ensures x % (2 * p) == x % 2 + 2 * (x / 2 % p)
  {
    var q, r := x / 2 / p, x / 2 % p;
    assert x / 2 == q * p + r;
    assert q * (2 * p) == 2 * (q * p);
    DivModUnique(x, 2 * p, q, x % 2 + 2 * r);
  }

  lemma LowByte(x: nat)
    ensures LowBits(x, 8) == x % 0x100
  {
    LowIsRemainder(x, 8);
    assert Pow2(8) == 0x100;
  }

  lemma Low14(x: nat)
    ensures LowBits(x, 14) == x % 0x4000
  {
    LowIsRemainder(x, 14);
    Pow2Adds(7, 7);
    assert Pow2(7) == 0x80;
  }

  lemma Doubled(bit: nat, x: nat)
    requires bit < 2
    ensures (bit + 2 * x) % 2 == bit && (bit + 2 * x) / 2 == x
  {
  }

  lemma SameBit(a: nat, b: nat, s: nat, x: nat, y: nat)
    requires a < 2 && b < 2 && s < 2 && (a + s) % 2 + 2 * x == (b + s) % 2 + 2 * y
    ensures a == b && x == y
  {
  }

  /** Equal exclusive ors with one number come from equal bits. */
  lemma {:induction false} XorInjective(a: nat, b: nat, s: nat, n: nat)
    requires BitXor(a, s, n) == BitXor(b, s, n)
    ensures LowBits(a, n) == LowBits(b, n)
    decreases n
  {
    hide BitXor, LowBits;
    if n == 0 {
      NoBits(a, s);
      NoBits(b, s);
    } else {
      BitStep(a, s, n);
      BitStep(b, s, n);
      SameBit(a % 2, b % 2, s % 2, BitXor(a / 2, s / 2, n - 1), BitXor(b / 2, s / 2, n - 1));
      XorInjective(a / 2, b / 2, s / 2, n - 1);
      LowStep(a, n);
      LowStep(b, n);
    }
  }

  lemma {:induction false} XorLow(a: nat, b: nat, n: nat, k: nat)
    requires k <= n
    ensures LowBits(BitXor(a, b, n), k) == BitXor(a, b, k)
    decreases k
  {
    hide BitXor, LowBits;
    if k == 0 {
      NoBits(a, b);
      NoBits(BitXor(a, b, n), 0);
    } else {
      BitStep(a, b, n);
      BitStep(a, b, k);
      LowStep(BitXor(a, b, n), k);
      Doubled((a % 2 + b % 2) % 2, BitXor(a / 2, b / 2, n - 1));
      XorLow(a / 2, b / 2, n - 1, k - 1);
    }
  }

  lemma {:induction false} OrLow(a: nat, b: nat, n: nat, k: nat)
    requires k <= n
    ensures LowBits(BitOr(a, b, n), k) == BitOr(a, b, k)
    decreases k
  {
    hide BitOr, LowBits;
    if k == 0 {
      NoBits(a, b);
      NoBits(BitOr(a, b, n), 0);
    } else {
      BitStep(a, b, n);
      BitStep(a, b, k);
      LowStep(BitOr(a, b, n), k);
      Doubled(if a % 2 + b % 2 == 0 then 0 else 1, BitOr(a / 2, b / 2, n - 1));
      OrLow(a / 2, b / 2, n - 1, k - 1);
    }
  }

  lemma {:induction false} OrWithZeros(a: nat, b: nat, n: nat)
    requires LowBits(a, n) == 0
    ensures BitOr(a, b, n) == LowBits(b, n)
  {
    if n > 0 {
      BitStep(a, b, n);
      OrWithZeros(a / 2, b / 2, n - 1);
    }
  }

  /** An inclusive or is at least each of its operands. */
  lemma {:induction false} OrAtLeast(a: nat, b: nat, n: nat)
    ensures BitOr(a, b, n) >= LowBits(a, n) && BitOr(a, b, n) >= LowBits(b, n)
  {
    if n > 0 {
      BitStep(a, b, n);
      OrAtLeast(a / 2, b / 2, n - 1);
    }
  }

  lemma {:induction false} XorWithZero(a: nat, n: nat)
    ensures BitXor(a, 0, n) == LowBits(a, n) && BitXor(0, a, n) == LowBits(a, n)
    decreases n
  {
    hide BitXor, LowBits;
    if n == 0 {
      NoBits(a, 0);
      NoBits(0, a);
    } else {
      BitStep(a, 0, n);
      BitStep(0, a, n);
      LowStep(a, n);
      XorWithZero(a / 2, n - 1);
    }
  }

  lemma {:induction false} XorWithItself(a: nat, n: nat)
    ensures BitXor(a, a, n) == 0
  {
    if n > 0 {
      BitStep(a, a, n);
      XorWithItself(a / 2, n - 1);
    }
  }

  // ---------------------------------------------------------- mixed indices

  /** The seed's bits, as the patterns use them. */
  function SeedBits(seed: Short): nat { seed % 0x1_0000 }

  lemma MixedFormula(i: nat, seed: Short, size: nat)
    requires i >= size / 5
    ensures InitIndex(i, seed, size) == BitOr((i + 1) % 8 * 0x100, BitXor(i, SeedBits(seed), 16), 16) % 0x4000
  {
  }

  /** The low byte of a mixed index is that of the pattern. */
  lemma MixedLowByte(i: nat, seed: Short, size: nat)
    requires i >= size / 5
    ensures InitIndex(i, seed, size) % 0x100 == BitXor(i, SeedBits(seed), 8)
  {
    hide BitOr, BitXor, LowBits, InitIndex, SeedBits;
    var c, p := (i + 1) % 8 * 0x100, BitXor(i, SeedBits(seed), 16);
    MixedFormula(i, seed, size);
    LowByte(BitOr(c, p, 16));
    OrLow(c, p, 16, 8);
    LowByte(c);
    OrWithZeros(c, p, 8);
    XorLow(i, SeedBits(seed), 16, 8);
  }

  /** A mixed index is at least each of the two numbers that it is made of. */
  lemma MixedAtLeast(i: nat, seed: Short, size: nat)
    requires i >= size / 5
    ensures InitIndex(i, seed, size) >= BitXor(i, SeedBits(seed), 14)
    ensures InitIndex(i, seed, size) >= (i + 1) % 8 * 0x100
  {
    hide BitOr, BitXor, LowBits, InitIndex, SeedBits;
    var c, p := (i + 1) % 8 * 0x100, BitXor(i, SeedBits(seed), 16);
    MixedFormula(i, seed, size);
    Low14(BitOr(c, p, 16));
    OrLow(c, p, 16, 14);
    OrAtLeast(c, p, 14);
    Low14(c);
    XorLow(i, SeedBits(seed), 16, 14);
  }

  lemma MixedDistinct(i: nat, j: nat, seed: Short, size: nat)
    requires size / 5 <= i < j < i + 0x100
    ensures InitIndex(i, seed, size) != InitIndex(j, seed, size)
  {
    hide BitXor, LowBits, InitIndex, SeedBits;
    MixedLowByte(i, seed, size);
    MixedLowByte(j, seed, size);
    LowByte(i);
    LowByte(j);
    LowBytesDiffer(i, j);
    if BitXor(i, SeedBits(seed), 8) == BitXor(j, SeedBits(seed), 8) { XorInjective(i, j, SeedBits(seed), 8); }
  }

  lemma LowBytesDiffer(i: nat, j: nat)
    requires i < j < i + 0x100
    ensures i % 0x100 != j % 0x100
  {
  }

  // ------------------------------------------------------------ large blocks

  /** x and y agree at every bit but bit k. */
  predicate DifferAt(x: nat, y: nat, k: nat) {
    if k == 0 then x / 2 == y / 2 else x % 2 == y % 2 && DifferAt(x / 2, y / 2, k - 1)
  }

  predicate BitSet(a: nat, k: nat) { if k == 0 then a % 2 == 1 else BitSet(a / 2, k - 1) }

  /** What is or-ed in hides the bit at which two patterns differ. */
  lemma {:induction false} OrHides(a: nat, x: nat, y: nat, s: nat, n: nat, k: nat)
    requires DifferAt(x, y, k) && BitSet(a, k)
    ensures BitOr(a, BitXor(x, s, n), n) == BitOr(a, BitXor(y, s, n), n)
    decreases n
  {
    hide BitXor, BitOr;
    if n == 0 {
      NoBits(a, BitXor(x, s, n));
      NoBits(a, BitXor(y, s, n));
    } else {
      BitStep(a, BitXor(x, s, n), n);
      BitStep(a, BitXor(y, s, n), n);
      BitStep(x, s, n);
      BitStep(y, s, n);
      Doubled((x % 2 + s % 2) % 2, BitXor(x / 2, s / 2, n - 1));
      Doubled((y % 2 + s % 2) % 2, BitXor(y / 2, s / 2, n - 1));
      if k > 0 { OrHides(a / 2, x / 2, y / 2, s / 2, n - 1, k - 1); }
    }
  }

  lemma HalvesDiffer(x: nat, d: nat, k: nat)
    requires k > 0 && d % 2 == 0 && DifferAt(x / 2, x / 2 + d / 2, k - 1)
    ensures DifferAt(x, x + d, k)
  {
    assert (x + d) / 2 == x / 2 + d / 2 && (x + d) % 2 == x % 2;
  }

  lemma AddedBit8(x: nat)
    requires x / 0x100 % 2 == 0
    ensures DifferAt(x, x + 0x100, 8)
  {
    hide DifferAt;
    var x1, x2 := x / 2, x / 2 / 2;
    var x3, x4 := x2 / 2, x2 / 2 / 2;
    var x5, x6 := x4 / 2, x4 / 2 / 2;
    var x7, x8 := x6 / 2, x6 / 2 / 2;
    LastBitDiffers(x8);
    HalvesDiffer(x7, 2, 1);
    HalvesDiffer(x6, 4, 2);
    HalvesDiffer(x5, 8, 3);
    HalvesDiffer(x4, 0x10, 4);
    HalvesDiffer(x3, 0x20, 5);
    HalvesDiffer(x2, 0x40, 6);
    HalvesDiffer(x1, 0x80, 7);
    HalvesDiffer(x, 0x100, 8);
  }

  lemma LastBitDiffers(x: nat)
    requires x % 2 == 0
    ensures DifferAt(x, x + 1, 0)
  {
  }

  lemma HalfBitSet(a: nat, k: nat)
    requires k > 0 && BitSet(a / 2, k - 1)
    ensures BitSet(a, k)
  {
  }

  lemma OddBit8(m: nat)
    requires m % 2 == 1
    ensures BitSet(m * 0x100, 8)
  {
    hide BitSet;
    LowestBitSet(m);
    HalfBitSet(m * 2, 1);
    HalfBitSet(m * 4, 2);
    HalfBitSet(m * 8, 3);
    HalfBitSet(m * 0x10, 4);
    HalfBitSet(m * 0x20, 5);
    HalfBitSet(m * 0x40, 6);
    HalfBitSet(m * 0x80, 7);
    HalfBitSet(m * 0x100, 8);
  }

  lemma LowestBitSet(m: nat)
    requires m % 2 == 1
    ensures BitSet(m, 0)
  {
  }

  /** An even position whose bit 8 is clear and the one 0x100 further get the same mixed index. */
  lemma TwinIndex(i: nat, seed: Short, size: nat)
    requires i >= size / 5 && i % 2 == 0 && i / 0x100 % 2 == 0
    ensures InitIndex(i, seed, size) == InitIndex(i + 0x100, seed, size)
  {
    hide BitXor, BitOr, InitIndex, SeedBits, BitSet, DifferAt;
    MixedFormula(i, seed, size);
    MixedFormula(i + 0x100, seed, size);
    AddedBit8(i);
    OddBit8((i + 1) % 8);
    SameTag(i);
    OrHides((i + 1) % 8 * 0x100, i, i + 0x100, SeedBits(seed), 16, 8);
  }

  lemma SameTag(i: nat)
    requires i % 2 == 0
    ensures (i + 1) % 8 == (i + 0x100 + 1) % 8 && (i + 1) % 8 % 2 == 1
  {
  }

  /** From 323 slots on there is such a pair among the positions with mixed indices. */
  lemma TwinPosition(size: nat) returns (i: nat)
    requires size >= 323
    ensures size / 5 <= i && 1 <= i && i + 0x100 < size - 2 && i % 2 == 0 && i / 0x100 % 2 == 0
  {
    if size < 1000 {
      i := size / 5 + size / 5 % 2;
    } else {
      i := (size / 5 + 511) / 512 * 512;
    }
  }

  lemma LargeRepeats(seed: Short, size: nat)
    requires size >= 323
    ensures !IndicesDistinct(seed, size)
  {
    hide InitIndex;
    var i := TwinPosition(size);
    TwinIndex(i, seed, size);
    SlotIndex(size - 1 - i, seed, size);
    SlotIndex(size - 1 - (i + 0x100), seed, size);
    assert IndexAt(size - 1 - (i + 0x100), seed, size) == IndexAt(size - 1 - i, seed, size);
  }

  // -------------------------------------------------- which numbers repeat

  /** The least number that the positions numbered in order, and the head's 0, do not use. */
  function InOrder(size: nat): nat { Max(1, size / 5) }

  /** Every mixed index lies above the numbers given in order. */
  predicate MixedAbove(seed: Short, size: nat) {
    forall i: nat :: InOrder(size) <= i < size - 2 ==> InitIndex(i, seed, size) >= InOrder(size)
  }

  lemma OrderedIndex(i: nat, seed: Short, size: nat)
    requires i < size / 5 && i < 0x8000
    ensures InitIndex(i, seed, size) == i
  {
  }

  /** Two positions of a block with mixed indices above the ordered ones. */
  lemma PositionsDistinct(i: nat, j: nat, seed: Short, size: nat)
    requires 3 <= size <= 322 && MixedAbove(seed, size) && 1 <= i < j < size - 2
    ensures InitIndex(i, seed, size) != InitIndex(j, seed, size)
  {
    hide InitIndex;
    if size / 5 <= i {
      MixedDistinct(i, j, seed, size);
    } else {
      OrderedIndex(i, seed, size);
      if j < size / 5 { OrderedIndex(j, seed, size); }
    }
  }

  lemma PositionInside(i: nat, seed: Short, size: nat)
    requires 3 <= size <= 322 && MixedAbove(seed, size) && 1 <= i < size - 2
    ensures 0 < InitIndex(i, seed, size) < 0x7fff
  {
    if i < size / 5 { OrderedIndex(i, seed, size); }
  }

  lemma SlotIndex(k: nat, seed: Short, size: nat)
    requires 2 <= k < size - 1
    ensures IndexAt(k, seed, size) == InitIndex(size - 1 - k, seed, size)
  {
  }

  /** An index is repeated if and only if there are more than 322 slots or some mixed index falls among
      the numbers given in order. */
  lemma DistinctIff(seed: Short, size: nat)
    requires size >= 3
    ensures IndicesDistinct(seed, size) <==> size <= 322 && MixedAbove(seed, size)
  {
    hide InitIndex, MixedAbove, IndicesDistinct;
    if size > 322 {
      LargeRepeats(seed, size);
    } else if MixedAbove(seed, size) {
      AllDistinct(seed, size);
    } else {
      var i := BelowOrder(seed, size);
      Repeated(i, seed, size);
    }
  }

  lemma BelowOrder(seed: Short, size: nat) returns (i: nat)
    requires !MixedAbove(seed, size)
    ensures InOrder(size) <= i < size - 2 && InitIndex(i, seed, size) < InOrder(size)
  {
    hide InitIndex;
    i :| InOrder(size) <= i < size - 2 && InitIndex(i, seed, size) < InOrder(size);
  }

  lemma AllDistinct(seed: Short, size: nat)
    requires 3 <= size <= 322 && MixedAbove(seed, size)
    ensures IndicesDistinct(seed, size)
  {
    hide InitIndex, MixedAbove;
    forall j, k | 0 <= j < k < size - 1
      ensures IndexAt(j, seed, size) != IndexAt(k, seed, size)
    {
      if k >= 2 { PositionInside(size - 1 - k, seed, size); }
      if j >= 2 { PositionsDistinct(size - 1 - k, size - 1 - j, seed, size); }
    }
  }

  lemma Repeated(i: nat, seed: Short, size: nat)
    requires size >= 3 && InOrder(size) <= i < size - 2 && InitIndex(i, seed, size) < InOrder(size)
    ensures !IndicesDistinct(seed, size)
  {
    hide InitIndex;
    var v := InitIndex(i, seed, size);
    SlotIndex(size - 1 - i, seed, size);
    MixedAtLeast(i, seed, size);
    if v == 0 {
      assert IndexAt(0, seed, size) == IndexAt(size - 1 - i, seed, size);
    } else {
      OrderedIndex(v, seed, size);
      SlotIndex(size - 1 - v, seed, size);
      assert IndexAt(size - 1 - i, seed, size) == IndexAt(size - 1 - v, seed, size);
    }
  }

  /** The head stands alone if no index is repeated. */
  lemma DistinctHead(seed: Short, size: nat)
    requires size >= 3 && IndicesDistinct(seed, size)
    ensures HeadAlone(seed, size)
  {
    assert IndexAt(0, seed, size) == 0;
  }

  // --------------------------------------------------------- particular seeds

  /** Seed 0, the performance runs: the patterns are the positions. */
  lemma SeedZero(i: nat, size: nat)
    requires 3 <= size <= 322 && InOrder(size) <= i < size - 2
    ensures InitIndex(i, 0, size) >= InOrder(size)
  {
    hide InitIndex, BitXor, LowBits;
    MixedAtLeast(i, 0, size);
    XorWithZero(i, 14);
    Low14(i);
  }

  lemma XorHalved(a: nat, b: nat, n: nat)
    requires n > 0
    ensures BitXor(a, b, n) >= 2 * BitXor(a / 2, b / 2, n - 1)
  {
  }

  /** Seed 0x3415, the validation runs: the seed's high byte shows in every pattern. */
  lemma SeedValidation(i: nat, size: nat)
    requires 3 <= size <= 322 && InOrder(size) <= i < size - 2
    ensures InitIndex(i, 0x3415, size) >= InOrder(size)
  {
    hide InitIndex, BitXor, LowBits;
    MixedAtLeast(i, 0x3415, size);
    XorHalved(i, 0x3415, 14);
    XorHalved(i / 2, 0x1a0a, 13);
    XorHalved(i / 2 / 2, 0xd05, 12);
    XorHalved(i / 2 / 2 / 2, 0x682, 11);
    HighSeedBits(i / 2 / 2 / 2 / 2);
  }

  lemma HighSeedBits(h: nat)
    requires h < 0x20
    ensures BitXor(h, 0x341, 10) >= 0x20 * 0x1a
  {
    hide BitXor, LowBits;
    XorHalved(h, 0x341, 10);
    XorHalved(h / 2, 0x1a0, 9);
    XorHalved(h / 2 / 2, 0xd0, 8);
    XorHalved(h / 2 / 2 / 2, 0x68, 7);
    XorHalved(h / 2 / 2 / 2 / 2, 0x34, 6);
    XorWithZero(0x1a, 5);
    LowIsRemainder(0x1a, 5);
  }

  /** Seed 8, the profile runs: a pattern below 3 comes with a position whose successor is no multiple of 8. */
  lemma SeedProfile(i: nat)
    requires 3 <= i < 16
    ensures InitIndex(i, 8, 18) >= 3
  {
    hide InitIndex, BitXor, LowBits;
    MixedAtLeast(i, 8, 18);
    LowThree(i);
  }

  lemma EvenStep(a: nat, b: nat, n: nat)
    requires n > 0 && b % 2 == 0
    ensures BitXor(a, b, n) == a % 2 + 2 * BitXor(a / 2, b / 2, n - 1)
  {
    BitStep(a, b, n);
  }

  /** The three low bits of a position show in its pattern for seed 8. */
  lemma LowThree(i: nat)
    requires i < 16
    ensures BitXor(i, 8, 14) >= i % 8
  {
    hide BitXor;
    EvenStep(i, 8, 14);
    EvenStep(i / 2, 4, 13);
    EvenStep(i / 2 / 2, 2, 12);
  }

  /** The seeds of the performance and validation runs repeat no index exactly up to 322 slots. */
  lemma OfficialSeeds(seed: Short, size: nat)
    requires (seed == 0 || seed == 0x3415) && size >= 3
    ensures IndicesDistinct(seed, size) <==> size <= 322
  {
    hide InitIndex, IndicesDistinct;
    if size <= 322 {
      forall i: nat | InOrder(size) <= i < size - 2
        ensures InitIndex(i, seed, size) >= InOrder(size)
      {
        if seed == 0 { SeedZero(i, size); } else { SeedValidation(i, size); }
      }
    }
    DistinctIff(seed, size);
  }

  /** The sizes and seeds of the official runs repeat no index: 2000 or 666 bytes for the performance
      and validation runs, 400 bytes for the profile run. */
  lemma OfficialNumbers(seed: Short, size: nat)
    requires ((seed == 0 || seed == 0x3415) && (size == SlotCount(2000) || size == SlotCount(666)))
          || (seed == 8 && size == SlotCount(400))
    ensures IndicesDistinct(seed, size) && HeadAlone(seed, size)
  {
    hide InitIndex, IndicesDistinct, HeadAlone;
    if seed == 8 {
      forall i: nat | InOrder(size) <= i < size - 2
        ensures InitIndex(i, seed, size) >= InOrder(size)
      {
        SeedProfile(i);
      }
      DistinctIff(seed, size);
    } else {
      OfficialSeeds(seed, size);
    }
    DistinctHead(seed, size);
  }

  lemma SevenXorTwo(a: nat, b: nat)
    requires a == 7 && b == 2
    ensures BitXor(a, b, 16) == 5
  {
    hide BitXor, BitOr;
    BitStep(a, b, 16);
    BitStep(a / 2, b / 2, 15);
    BitStep(a / 2 / 2, b / 2 / 2, 14);
    ZeroBits(13);
  }

  lemma ZeroOrFive(a: nat, b: nat)
    requires a == 0 && b == 5
    ensures BitOr(a, b, 16) == 5
  {
    hide BitXor, BitOr;
    BitStep(a, b, 16);
    BitStep(a / 2, b / 2, 15);
    BitStep(a / 2 / 2, b / 2 / 2, 14);
    ZeroBits(13);
  }

  /** With seed 2 and 666 bytes, position 7 gets index 5, which position 5 has. */
  lemma SeedTwoRepeats()
    ensures !IndicesDistinct(2, SlotCount(666))
  {
    hide InitIndex, IndicesDistinct;
    SeedTwoFive(7, 2, 31);
    Repeated(7, 2, 31);
  }

  lemma SeedTwoFive(i: nat, seed: Short, size: nat)
    requires i == 7 && seed == 2 && size == 31
    ensures InitIndex(i, seed, size) == 5
  {
    hide BitXor, BitOr, InitIndex;
    MixedFormula(i, seed, size);
    SevenXorTwo(i, SeedBits(seed));
    ZeroOrFive((i + 1) % 8 * 0x100, 5);
  }

  /** No other position gets the head's index 0: only position 2 has the pattern 0, and it is numbered
      in order. */
  lemma SeedTwoHead()
    ensures HeadAlone(2, SlotCount(666))
  {
    hide BitXor, BitOr, LowBits, InitIndex;
    forall k | 0 < k < 30
      ensures IndexAt(k, 2, 31) != 0
    {
      if k >= 2 {
        SlotIndex(k, 2, 31);
        SeedTwoNonzero(30 - k);
      }
    }
  }

  lemma SeedTwoNonzero(i: nat)
    requires 1 <= i < 29
    ensures InitIndex(i, 2, 31) != 0
  {
    hide BitXor, BitOr, LowBits, InitIndex;
    if i < 6 {
      OrderedIndex(i, 2, 31);
    } else {
      MixedLowByte(i, 2, 31);
      XorWithItself(2, 8);
      LowByte(i);
      LowByte(2);
      if BitXor(i, 2, 8) == 0 { XorInjective(i, 2, 2, 8); }
    }
  }

  /** With seed 7 and 666 bytes, position 7 gets the head's index 0. */
  lemma SeedSevenSharesZero()
    ensures !HeadAlone(7, SlotCount(666))
  {
    hide BitXor, BitOr, LowBits, InitIndex;
    MixedFormula(7, 7, 31);
    XorWithItself(7, 16);
    ZeroBits(16);
    SlotIndex(23, 7, 31);
    assert IndexAt(23, 7, 31) == 0;
  }

  /** No word of the list has a low byte of zero: a search for the byte 0 misses. */
  predicate NoZeroByte(seed: Short, size: nat) {
    forall k: nat :: k < size - 1 ==> Low(WordAt(k, seed)) != 0
  }

  /** The low byte of an item's word: its pattern's low four bits over its position's low three. */
  lemma ZeroByte(i: nat, seed: Short)
    requires Low(InitData(i, seed)) == 0
    ensures i % 8 == 0 && Pattern(i, seed) % 0x10 == 0
  {
    SameByteTwice(Pattern(i, seed) % 0x10 * 8 + i % 8);
  }

  /** The first item of seed 1 asks for the state benchmark with the least step. */
  lemma FirstItemSeedOne()
    ensures InitData(0, 1) % 8 == 0 && StepOf(InitData(0, 1)) == 0x22
  {
    hide Pattern;
    PatternSeedOne(0, 1);
    assert InitData(0, 1) == 0x808;
  }

  lemma PatternSeedOne(i: nat, seed: Short)
    requires i == 0 && seed == 1
    ensures Pattern(i, seed) == 1
  {
    hide BitXor, BitOr;
    BitStep(i, seed, 16);
    ZeroBits(15);
  }

  /** Only seeds that are multiples of 8 can give an item the low byte 0. */
  lemma SeedMisses(seed: Short, size: nat)
    requires seed % 8 != 0
    ensures NoZeroByte(seed, size)
  {
    hide BitXor, LowBits, InitData, Pattern, Low;
    forall k: nat | k < size - 1
      ensures Low(WordAt(k, seed)) != 0
    {
      EndBytes();
      if k >= 2 && Low(InitData(k - 2, seed)) == 0 {
        ZeroByte(k - 2, seed);
        PatternLow(k - 2, seed);
      }
    }
  }

  lemma EndBytes()
    ensures Low(0x8080) == 0x80 && Low(0xffff) == 0xff
  {
  }

  /** A pattern that is a multiple of 8 comes from a position that agrees with the seed modulo 8. */
  lemma PatternLow(i: nat, seed: Short)
    requires Pattern(i, seed) % 0x10 == 0
    ensures i % 8 == seed % 8
  {
    hide BitXor, LowBits;
    var bits := SeedBits(seed);
    XorLow(i, bits, 16, 3);
    LowIsRemainder(Pattern(i, seed), 3);
    LowIsRemainder(i, 3);
    LowIsRemainder(bits, 3);
    assert Pow2(3) == 8;
    XorWithItself(bits, 3);
    XorInjective(i, bits, bits, 3);
  }
}
