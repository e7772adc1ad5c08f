/// The in-place fixed-point radix-2 FFT of fft.h.
///
/// Samples are interleaved 16-bit real and imaginary parts.  Products are 32 bits
/// wide and shifted right arithmetically; every stored part is cut to 16 bits.

module FftFixed {
  import opened Arithmetic
  import opened FftSpec
  import opened DigitReversal

  datatype Cx = Cx(re: Short, im: Short)

  /** Arithmetic shift right: the quotient rounded down. */
  function Shr(x: int, d: nat): int { x / Pow2(d) }

  /** The product b * w with d fractional bits in w, each part rounded down. */
  function ProductRe(b: Cx, w: Cx, d: nat): int { Shr(Wrap32(b.re * w.re - b.im * w.im), d) }

  function ProductIm(b: Cx, w: Cx, d: nat): int { Shr(Wrap32(b.re * w.im + b.im * w.re), d) }

  function PlainButterfly(a: Cx, b: Cx): (Cx, Cx) {
    (Cx(Wrap16(a.re + b.re), Wrap16(a.im + b.im)), Cx(Wrap16(a.re - b.re), Wrap16(a.im - b.im)))
  }

  function TwiddledButterfly(a: Cx, b: Cx, w: Cx, d: nat): (Cx, Cx) {
    var re, im := ProductRe(b, w, d), ProductIm(b, w, d);
    (Cx(Wrap16(a.re + re), Wrap16(a.im + im)), Cx(Wrap16(a.re - re), Wrap16(a.im - im)))
  }

  /** Entry i of an interleaved twiddle table. */
  function Entry(tw: seq<Short>, i: nat): Cx {
    if 2 * i + 1 < |tw| then Cx(tw[2 * i], tw[2 * i + 1]) else Cx(0, 0)
  }

  /** The butterfly of a transform of 2^k samples: no twiddle on level 1, and every 2^(k-level)-th
      table entry on a higher level. */
  function FixedButterfly(tw: seq<Short>, k: nat, d: nat): Butterfly<Cx> {
    (level: nat, j: nat, a: Cx, b: Cx) =>
      if level <= 1 || level > k then PlainButterfly(a, b)
      else TwiddledButterfly(a, b, Entry(tw, j * Pow2(k - level)), d)
  }

  /** The samples in an interleaved array. */
  function Samples(s: seq<Short>): (r: seq<Cx>)
    ensures |r| == |s| / 2
  {
    seq(|s| / 2, i requires 0 <= i < |s| / 2 => Cx(s[2 * i], s[2 * i + 1]))
  }

  ghost function At(a: array<Short>, p: nat): Cx
    requires 2 * p + 1 < a.Length
    reads a
  {
    Cx(a[2 * p], a[2 * p + 1])
  }

  // ------------------------------------------------------------- the methods

  /** One butterfly in place, between samples p and q. */
  method ButterflyAt(xrev: array<Short>, p: nat, q: nat, w: Cx, d: nat)
    requires p < q && 2 * q + 1 < xrev.Length
    modifies xrev
    ensures (At(xrev, p), At(xrev, q)) == TwiddledButterfly(old(At(xrev, p)), old(At(xrev, q)), w, d)
    ensures forall r: nat :: r != p && r != q && 2 * r + 1 < xrev.Length ==> At(xrev, r) == old(At(xrev, r))
  {
    var aReal, aImag := xrev[2 * p], xrev[2 * p + 1];
    var bReal, bImag := xrev[2 * q], xrev[2 * q + 1];
    var tempReal := Shr(Wrap32(bReal * w.re - bImag * w.im), d);
    var tempImag := Shr(Wrap32(bReal * w.im + bImag * w.re), d);
    xrev[2 * p] := Wrap16(aReal + tempReal);
    xrev[2 * p + 1] := Wrap16(aImag + tempImag);
    xrev[2 * q] := Wrap16(aReal - tempReal);
    xrev[2 * q + 1] := Wrap16(aImag - tempImag);
  }

  /** One butterfly of the unrolled first stage. */
  method PlainAt(xrev: array<Short>, i: nat)
    requires 2 * (i + 1) + 1 < xrev.Length
    modifies xrev
    ensures (At(xrev, i), At(xrev, i + 1)) == PlainButterfly(old(At(xrev, i)), old(At(xrev, i + 1)))
    ensures forall r: nat :: r != i && r != i + 1 && 2 * r + 1 < xrev.Length ==> At(xrev, r) == old(At(xrev, r))
  {
    var aReal: int, aImag: int := xrev[2 * i], xrev[2 * i + 1];
    var bReal: int, bImag: int := xrev[2 * (i + 1)], xrev[2 * (i + 1) + 1];
    xrev[2 * i] := Wrap16(aReal + bReal);
    xrev[2 * i + 1] := Wrap16(aImag + bImag);
    xrev[2 * (i + 1)] := Wrap16(aReal - bReal);
    xrev[2 * (i + 1) + 1] := Wrap16(aImag - bImag);
  }

  /** Sample values as a sequence. */
  ghost predicate Holds(a: array<Short>, c: seq<Cx>)
    reads a
  {
    2 * |c| <= a.Length && forall p :: 0 <= p < |c| ==> At(a, p) == c[p]
  }

  /** What a block of the array holds after j of its butterflies. */
  ghost function Partial(bf: Butterfly<Cx>, level: nat, c: seq<Cx>, i: nat, h: nat, j: nat): (r: seq<Cx>)
    requires i + 2 * h <= |c| && j <= h
    ensures |r| == |c|
  {
    var block := Combine(bf, level, c[i..i + h], c[i + h..i + 2 * h]);
    seq(|c|, p requires 0 <= p < |c| => if i <= p < i + j || i + h <= p < i + h + j then block[p - i] else c[p])
  }

  lemma PartialStep(bf: Butterfly<Cx>, level: nat, c: seq<Cx>, i: nat, h: nat, j: nat, p: nat)
    requires i + 2 * h <= |c| && j < h && p < |c|
    ensures var y := bf(level, j, c[i + j], c[i + h + j]);
      Partial(bf, level, c, i, h, j + 1)[p]
        == if p == i + j then y.0 else if p == i + h + j then y.1 else Partial(bf, level, c, i, h, j)[p]
    ensures Partial(bf, level, c, i, h, j)[i + j] == c[i + j]
    ensures Partial(bf, level, c, i, h, j)[i + h + j] == c[i + h + j]
  {
  }

  /** The butterflies of one block of 2^level samples starting at i. */
  method Block(xrev: array<Short>, i: nat, level: nat, wRe: array<Short>, wIm: array<Short>, d: nat,
               ghost tw: seq<Short>, ghost k: nat, ghost c: seq<Cx>, halfstep: nat)
    requires 2 <= level <= k && halfstep == Pow2(level - 1) && i + 2 * halfstep <= |c|
    requires Holds(xrev, c) && xrev != wRe && xrev != wIm
    requires halfstep <= wRe.Length && halfstep <= wIm.Length
    requires forall j :: 0 <= j < halfstep ==> Cx(wRe[j], wIm[j]) == Entry(tw, j * Pow2(k - level))
    modifies xrev
    ensures Holds(xrev, Partial(FixedButterfly(tw, k, d), level, c, i, halfstep, halfstep))
  {
    hide Partial, TwiddledButterfly, Entry, Pow2;
    ghost var bf := FixedButterfly(tw, k, d);
    NothingDone(bf, level, c, i, halfstep);
    var j := 0;
    while j < halfstep
      invariant 0 <= j <= halfstep
      invariant Holds(xrev, Partial(bf, level, c, i, halfstep, j))
    {
      forall p | 0 <= p < |c| { PartialStep(bf, level, c, i, halfstep, j, p); }
      ButterflyAt(xrev, i + j, i + halfstep + j, Cx(wRe[j], wIm[j]), d);
      j := j + 1;
    }
  }

  lemma NothingDone(bf: Butterfly<Cx>, level: nat, c: seq<Cx>, i: nat, h: nat)
    requires i + 2 * h <= |c|
    ensures Partial(bf, level, c, i, h, 0) == c
  {
  }

  // ---------------------------------------------------------------- stages

  /** The array in the middle of a stage: blocks before i are combined. */
  ghost function UpTo(bf: Butterfly<Cx>, level: nat, c: seq<Cx>, i: nat): (r: seq<Cx>)
    requires level > 0 && i <= |c| && IsMultiple(i, Pow2(level))
    ensures |r| == |c|
  {
    Stage(bf, level, c[..i]) + c[i..]
  }

  lemma StageStarts(bf: Butterfly<Cx>, level: nat, c: seq<Cx>)
    requires level > 0
    ensures UpTo(bf, level, c, 0) == c
  {
  }

  lemma StageEnds(bf: Butterfly<Cx>, level: nat, c: seq<Cx>)
    requires level > 0 && IsMultiple(|c|, Pow2(level))
    ensures UpTo(bf, level, c, |c|) == Stage(bf, level, c)
  {
    assert c[..|c|] == c;
  }

  lemma StageExtend(bf: Butterfly<Cx>, level: nat, c: seq<Cx>, i: nat, h: nat)
    requires level > 0 && h == Pow2(level - 1) && i + 2 * h <= |c| && IsMultiple(i, 2 * h)
    ensures IsMultiple(i + 2 * h, Pow2(level))
    ensures Partial(bf, level, UpTo(bf, level, c, i), i, h, h) == UpTo(bf, level, c, i + 2 * h)
  {
    hide Partial, Stage;
    var lo, hi, rest := c[i..i + h], c[i + h..i + 2 * h], c[i + 2 * h..];
    var s := Stage(bf, level, c[..i]);
    OneBlock(bf, level, lo, hi);
    StageConcat(bf, level, c[..i], lo + hi);
    assert c[..i + 2 * h] == c[..i] + (lo + hi);
    assert c[i..] == lo + hi + rest;
    assert UpTo(bf, level, c, i) == s + (lo + hi + rest);
    WholeBlock(bf, level, s, lo, hi, rest);
    assert s + Combine(bf, level, lo, hi) + rest == UpTo(bf, level, c, i + 2 * h);
  }

  lemma WholeBlock(bf: Butterfly<Cx>, level: nat, s: seq<Cx>, lo: seq<Cx>, hi: seq<Cx>, rest: seq<Cx>)
    requires |lo| == |hi|
    ensures Partial(bf, level, s + (lo + hi + rest), |s|, |lo|, |lo|) == s + Combine(bf, level, lo, hi) + rest
  {
    var u, i, h := s + (lo + hi + rest), |s|, |lo|;
    assert u[i..i + h] == lo && u[i + h..i + 2 * h] == hi;
  }

  /** The unrolled first stage. */
  method StageZero(xrev: array<Short>, N: nat, ghost tw: seq<Short>, ghost k: nat, ghost d: nat, ghost c: seq<Cx>)
    requires N == |c| == Pow2(k) && k >= 1 && Holds(xrev, c)
    modifies xrev
    ensures IsMultiple(|c|, 2) && Holds(xrev, Stage(FixedButterfly(tw, k, d), 1, c))
  {
    hide UpTo, Stage, Partial;
    ghost var bf := FixedButterfly(tw, k, d);
    PowersAreMultiples(k, 1);
    assert Pow2(1) == 2 && Pow2(0) == 1;
    StageStarts(bf, 1, c);
    var i := 0;
    while i < N
      invariant 0 <= i <= N && IsMultiple(i, 2) && IsMultiple(N - i, 2)
      invariant Holds(xrev, UpTo(bf, 1, c, i))
    {
      ghost var u := UpTo(bf, 1, c, i);
      forall p | 0 <= p < |u| { PartialStep(bf, 1, u, i, 1, 0, p); }
      NothingDone(bf, 1, u, i, 1);
      PlainAt(xrev, i);
      assert Holds(xrev, Partial(bf, 1, u, i, 1, 1));
      StageExtend(bf, 1, c, i, 1);
      i := i + 2;
    }
    StageEnds(bf, 1, c);
  }

  /** The blocks of one later stage. */
  method StageBlocks(xrev: array<Short>, N: nat, level: nat, step: nat, wRe: array<Short>, wIm: array<Short>, d: nat,
                     ghost tw: seq<Short>, ghost k: nat, ghost c: seq<Cx>)
    requires 2 <= level <= k && step == Pow2(level) && N == |c| == Pow2(k)
    requires Holds(xrev, c) && xrev != wRe && xrev != wIm
    requires step / 2 <= wRe.Length && step / 2 <= wIm.Length
    requires forall j :: 0 <= j < step / 2 ==> Cx(wRe[j], wIm[j]) == Entry(tw, j * Pow2(k - level))
    modifies xrev
    ensures IsMultiple(|c|, Pow2(level)) && Holds(xrev, Stage(FixedButterfly(tw, k, d), level, c))
  {
    hide Holds, Partial, UpTo, Stage, Entry;
    ghost var bf := FixedButterfly(tw, k, d);
    ghost var w := (wRe[..], wIm[..]);
    PowersAreMultiples(k, level);
    StageStarts(bf, level, c);
    var i := 0;
    while i < N
      invariant 0 <= i <= N && IsMultiple(i, step) && IsMultiple(N - i, step)
      invariant Holds(xrev, UpTo(bf, level, c, i))
    {
      Block(xrev, i, level, wRe, wIm, d, tw, k, UpTo(bf, level, c, i), step / 2);
      StageExtend(bf, level, c, i, step / 2);
      i := i + step;
    }
    StageEnds(bf, level, c);
  }

  lemma TwiddleInRange(k: nat, level: nat, j: nat)
    requires 1 <= level <= k && j < Pow2(level - 1)
    ensures j * Pow2(k - level) + Pow2(k - level) <= Pow2(k - 1)
  {
    Pow2Adds(level - 1, k - level);
    MulMonotone(j + 1, Pow2(level - 1), Pow2(k - level));
    MulDistributes(j, 1, Pow2(k - level));
  }

  /** Gathers the twiddle factors of a stage. */
  method LoadTwiddles(twiddleFactors: array<Short>, wRe: array<Short>, wIm: array<Short>, halfstep: nat,
                      twiddleStep: nat, ghost k: nat, ghost level: nat)
    requires 1 <= level <= k && halfstep == Pow2(level - 1) && twiddleStep == Pow2(k - level)
    requires twiddleFactors.Length >= Pow2(k) && wRe.Length >= halfstep && wIm.Length >= halfstep
    requires twiddleFactors != wRe && twiddleFactors != wIm && wRe != wIm
    modifies wRe, wIm
    ensures forall j :: 0 <= j < halfstep ==> Cx(wRe[j], wIm[j]) == Entry(twiddleFactors[..], j * Pow2(k - level))
  {
    ghost var tw := twiddleFactors[..];
    var j := 0;
    while j < halfstep
      invariant 0 <= j <= halfstep
      invariant forall i :: 0 <= i < j ==> Cx(wRe[i], wIm[i]) == Entry(tw, i * Pow2(k - level))
    {
      TwiddleInRange(k, level, j);
      wRe[j] := twiddleFactors[2 * (j * twiddleStep)];
      wIm[j] := twiddleFactors[2 * (j * twiddleStep) + 1];
      j := j + 1;
    }
  }

  lemma LogUnique(N: nat, k: nat, r: nat)
    requires N == Pow2(k) && Power(2, r) <= N < Power(2, r + 1)
    ensures r == k
  {
    PowerOfTwo(r);
    PowerOfTwo(r + 1);
    if r < k {
      Pow2Monotone(r + 1, k);
    } else if r > k {
      Pow2Monotone(k + 1, r);
    }
  }

  /** Copies the samples in bit-reversed order. */
  method Reorder(x: array<Short>, xrev: array<Short>, bitReversedSeq: array<Short>, N: nat, ghost k: nat)
    requires N == Pow2(k) && x.Length >= 2 * N && xrev.Length >= 2 * N && bitReversedSeq.Length >= N
    requires forall i :: 0 <= i < N ==> bitReversedSeq[i] == Reversal(i, k, 2)
    requires x != xrev && bitReversedSeq != xrev
    modifies xrev
    ensures Holds(xrev, Reordered(k, Samples(x[..2 * N])))
  {
    ghost var v := Samples(x[..2 * N]);
    ghost var c := Reordered(k, v);
    var i := 0;
    while i < N
      invariant 0 <= i <= N
      invariant forall p :: 0 <= p < i ==> At(xrev, p) == c[p]
    {
      ReorderedIsReversal(k, v, i);
      var from: nat := bitReversedSeq[i];
      xrev[2 * i] := x[2 * from];
      xrev[2 * i + 1] := x[2 * from + 1];
      assert At(xrev, i) == v[Reversal(i, k, 2)];
      i := i + 1;
    }
  }

  /** The stages after the first. */
  method LaterStages(N: nat, numBits: nat, twiddleFactors: array<Short>, decimalBits: nat,
                     wRe: array<Short>, wIm: array<Short>, xrev: array<Short>, ghost c: seq<Cx>)
    requires numBits >= 1 && N == |c| == Pow2(numBits)
    requires twiddleFactors.Length >= N && wRe.Length >= N / 2 && wIm.Length >= N / 2
    requires xrev != wRe && xrev != wIm && xrev != twiddleFactors
    requires twiddleFactors != wRe && twiddleFactors != wIm && wRe != wIm
    requires IsMultiple(N, Pow2(1))
    requires Holds(xrev, Stages(FixedButterfly(twiddleFactors[..], numBits, decimalBits), 1, c))
    modifies xrev, wRe, wIm
    ensures IsMultiple(N, Pow2(numBits))
    ensures Holds(xrev, Stages(FixedButterfly(old(twiddleFactors[..]), numBits, decimalBits), numBits, c))
  {
    hide Holds, Stage, Stages, Entry;
    ghost var tw := twiddleFactors[..];
    ghost var bf := FixedButterfly(tw, numBits, decimalBits);
    var twiddleStep, stage, step := N / 2, 1, 4;
    while stage < numBits
      invariant 1 <= stage <= numBits && step == 2 * Pow2(stage) && twiddleStep == Pow2(numBits - stage)
      invariant IsMultiple(|c|, Pow2(stage)) && Holds(xrev, Stages(bf, stage, c))
      invariant twiddleFactors[..] == tw
    {
      twiddleStep := twiddleStep / 2;
      Pow2Monotone(stage + 1, numBits);
      LoadTwiddles(twiddleFactors, wRe, wIm, step / 2, twiddleStep, numBits, stage + 1);
      StageBlocks(xrev, N, stage + 1, step, wRe, wIm, decimalBits, tw, numBits, Stages(bf, stage, c));
      NextStage(bf, stage, c);
      stage := stage + 1;
      step := step * 2;
    }
  }

  lemma SizeFits(k: nat)
    requires k <= 14
    ensures 2 * Pow2(k) <= 0x8000
  {
    Pow2Monotone(k, 14);
    assert Pow2(7) == 128;
    Pow2Adds(7, 7);
  }

  /** A 16-bit counter after n increments. */
  function Counter16(n: nat): nat { if n == 0 then 0 else (Counter16(n - 1) + 1) % 0x1_0000 }

  lemma {:induction false} CountsUp(n: nat)
    requires n < 0x1_0000
    ensures Counter16(n) == n
  {
    if n > 0 { CountsUp(n - 1); }
  }

  /** The copy loop compares its 16-bit counter with 2 * N: it ends exactly for N below 2^15, so
      not for the largest power of two that a 16-bit N can hold. */
  lemma CopyLoopEnds(N: nat)
    ensures (exists n: nat :: Counter16(n) >= 2 * N) <==> N < 0x8000
  {
    if N < 0x8000 {
      CountsUp(2 * N);
      assert Counter16(2 * N) >= 2 * N;
    }
  }

  /** The transform.  The 16-bit copy counter at the end stops only if 2 * N < 2^16, so N is at
      most 2^14. */
  method IterativeFftRadix2(x: array<Short>, X: array<Short>, N: nat, twiddleFactors: array<Short>, decimalBits: nat,
                            wRe: array<Short>, wIm: array<Short>, xrev: array<Short>, bitReversedSeq: array<Short>,
                            ghost k: nat)
    requires 1 <= k <= 14 && N == Pow2(k)
    requires x.Length >= 2 * N && X.Length >= 2 * N && xrev.Length >= 2 * N && bitReversedSeq.Length >= N
    requires twiddleFactors.Length >= N && wRe.Length >= N / 2 && wIm.Length >= N / 2
    requires forall i :: 0 <= i < N ==> bitReversedSeq[i] == Reversal(i, k, 2)
    requires xrev != x && xrev != X && xrev != wRe && xrev != wIm && xrev != bitReversedSeq && xrev != twiddleFactors
    requires twiddleFactors != wRe && twiddleFactors != wIm && wRe != wIm
    modifies xrev, wRe, wIm, X
    ensures Samples(X[..2 * N])
         == Dit(FixedButterfly(old(twiddleFactors[..]), k, decimalBits), k, old(Samples(x[..2 * N])))
  {
    hide Holds, Reordered, Dit, Stage, Stages, Samples;
    ghost var tw, v := twiddleFactors[..], Samples(x[..2 * N]);
    ghost var bf, c := FixedButterfly(tw, k, decimalBits), Reordered(k, v);
    SizeFits(k);
    var numBits := LogFloor(N, 2);
    LogUnique(N, k, numBits);
    Reorder(x, xrev, bitReversedSeq, N, k);
    StageZero(xrev, N, tw, k, decimalBits, c);
    FirstStage(bf, c);
    LaterStages(N, numBits, twiddleFactors, decimalBits, wRe, wIm, xrev, c);
    IterativeIsRecursive(bf, k, v);
    CopyOut(xrev, X, N, Dit(bf, k, v));
  }

  /** The example: generate the table of reversed positions, then transform. */
  method Radix2(x: array<Short>, X: array<Short>, N: nat, twiddleFactors: array<Short>, decimalBits: nat,
                wRe: array<Short>, wIm: array<Short>, xrev: array<Short>, bitReversedSeq: array<Short>, ghost k: nat)
    requires 1 <= k <= 14 && N == Pow2(k)
    requires x.Length >= 2 * N && X.Length >= 2 * N && xrev.Length >= 2 * N && bitReversedSeq.Length >= N
    requires twiddleFactors.Length >= N && wRe.Length >= N / 2 && wIm.Length >= N / 2
    requires xrev != x && xrev != X && xrev != wRe && xrev != wIm && xrev != bitReversedSeq && xrev != twiddleFactors
    requires twiddleFactors != wRe && twiddleFactors != wIm && wRe != wIm
    requires bitReversedSeq != x && bitReversedSeq != twiddleFactors
    modifies bitReversedSeq, xrev, wRe, wIm, X
    ensures Samples(X[..2 * N])
         == Dit(FixedButterfly(old(twiddleFactors[..]), k, decimalBits), k, old(Samples(x[..2 * N])))
  {
    hide Dit, Samples;
    SizeFits(k);
    PowerOfTwo(k);
    var numBits := LogFloor(N, 2);
    LogUnique(N, k, numBits);
    BitReversedSeq(bitReversedSeq, N, numBits, 2);
    IterativeFftRadix2(x, X, N, twiddleFactors, decimalBits, wRe, wIm, xrev, bitReversedSeq, k);
  }

  lemma FirstStage(bf: Butterfly<Cx>, c: seq<Cx>)
    requires IsMultiple(|c|, Pow2(1))
    ensures Stages(bf, 1, c) == Stage(bf, 1, c)
  {
    HalfMultiple(|c|, Pow2(0));
    assert Stages(bf, 0, c) == c;
  }

  lemma NextStage(bf: Butterfly<Cx>, stage: nat, c: seq<Cx>)
    requires IsMultiple(|c|, Pow2(stage + 1))
    ensures IsMultiple(|c|, Pow2(stage)) && Stages(bf, stage + 1, c) == Stage(bf, stage + 1, Stages(bf, stage, c))
  {
    HalfMultiple(|c|, Pow2(stage));
  }

  /** Copies the result out. */
  method CopyOut(xrev: array<Short>, X: array<Short>, N: nat, ghost c: seq<Cx>)
    requires |c| == N && X.Length >= 2 * N && Holds(xrev, c) && X != xrev
    modifies X
    ensures Samples(X[..2 * N]) == c
  {
    var i := 0;
    while i < 2 * N
      invariant 0 <= i <= 2 * N
      invariant X[..i] == xrev[..i]
    {
      X[i] := xrev[i];
      i := i + 1;
    }
    forall p | 0 <= p < N
      ensures Samples(X[..2 * N])[p] == c[p]
    {
      assert X[..2 * N][2 * p] == xrev[2 * p] && X[..2 * N][2 * p + 1] == xrev[2 * p + 1];
      assert At(xrev, p) == c[p];
    }
  }
}
