/// The shape of a radix-2, decimation-in-time FFT, for any butterfly.
///
/// `Dit' is the recursive definition by even and odd samples.  `Stages' is the
/// iterative one: reorder the samples by bit reversal, then let butterflies of
/// growing width run over neighbouring blocks.  Both are generic in the sample
/// type and in the butterfly, which may depend on the level (block size 2^level)
/// and on the position in the block.

module FftSpec {
  import opened Arithmetic

  type Butterfly<!T> = (nat, nat, T, T) -> (T, T)

  function Evens<T>(v: seq<T>): (r: seq<T>)
    ensures |r| == |v| / 2
  {
    seq(|v| / 2, i requires 0 <= i < |v| / 2 => v[2 * i])
  }

  function Odds<T>(v: seq<T>): (r: seq<T>)
    ensures |r| == |v| / 2
  {
    seq(|v| / 2, i requires 0 <= i < |v| / 2 => v[2 * i + 1])
  }

  /** One block: butterflies between the two halves. */
  function Combine<T>(bf: Butterfly<T>, level: nat, lo: seq<T>, hi: seq<T>): (r: seq<T>)
    requires |lo| == |hi|
    ensures |r| == 2 * |lo|
  {
    seq(2 * |lo|, i requires 0 <= i < 2 * |lo| =>
      if i < |lo| then bf(level, i, lo[i], hi[i]).0 else bf(level, i - |lo|, lo[i - |lo|], hi[i - |lo|]).1)
  }

  /** The recursive decimation-in-time transform of 2^k samples. */
  function Dit<T>(bf: Butterfly<T>, k: nat, v: seq<T>): (r: seq<T>)
    requires |v| == Pow2(k)
    ensures |r| == |v|
    decreases k
  {
    if k == 0 then v else Combine(bf, k, Dit(bf, k - 1, Evens(v)), Dit(bf, k - 1, Odds(v)))
  }

  // -------------------------------------------------------- the iterative form

  ghost predicate IsMultiple(len: nat, n: nat)
    requires n > 0
  {
    len == 0 || (len >= n && IsMultiple(len - n, n))
  }

  /** One stage: every block of 2^level samples is combined. */
  function Stage<T>(bf: Butterfly<T>, level: nat, v: seq<T>): (r: seq<T>)
    requires level > 0
    requires IsMultiple(|v|, Pow2(level))
    ensures |r| == |v|
    decreases |v|
  {
    var h := Pow2(level - 1);
    if v == [] then [] else Combine(bf, level, v[..h], v[h..2 * h]) + Stage(bf, level, v[2 * h..])
  }

  /** The first `level' stages. */
  function Stages<T>(bf: Butterfly<T>, level: nat, v: seq<T>): (r: seq<T>)
    requires IsMultiple(|v|, Pow2(level))
    ensures |r| == |v|
    decreases level
  {
    if level == 0 then v
    else
      HalfMultiple(|v|, Pow2(level - 1));
      Stage(bf, level, Stages(bf, level - 1, v))
  }

  lemma {:induction false} HalfMultiple(len: nat, n: nat)
    requires n > 0 && IsMultiple(len, 2 * n)
    ensures IsMultiple(len, n)
    decreases len
  {
    if len > 0 {
      HalfMultiple(len - 2 * n, n);
    }
  }

  lemma {:induction false} MultipleAdds(a: nat, b: nat, n: nat)
    requires n > 0 && IsMultiple(a, n) && IsMultiple(b, n)
    ensures IsMultiple(a + b, n)
    decreases a
  {
    if a > 0 { MultipleAdds(a - n, b, n); }
  }

  lemma {:induction false} PowersAreMultiples(a: nat, b: nat)
    requires b <= a
    ensures IsMultiple(Pow2(a), Pow2(b))
  {
    if b < a {
      PowersAreMultiples(a - 1, b);
      MultipleAdds(Pow2(a - 1), Pow2(a - 1), Pow2(b));
    } else {
      assert IsMultiple(Pow2(b) - Pow2(b), Pow2(b));
    }
  }

  /** Stages act on each part of a concatenation of whole blocks. */
  lemma {:induction false} StageConcat<T>(bf: Butterfly<T>, level: nat, a: seq<T>, b: seq<T>)
    requires level > 0 && IsMultiple(|a|, Pow2(level)) && IsMultiple(|b|, Pow2(level))
    ensures IsMultiple(|a + b|, Pow2(level))
    ensures Stage(bf, level, a + b) == Stage(bf, level, a) + Stage(bf, level, b)
    decreases |a|
  {
    hide Pow2, Stage, Combine;
    Pow2Step(level);
    var n, h := Pow2(level), Pow2(level - 1);
    MultipleAdds(|a|, |b|, n);
    if a == [] {
      assert a + b == b && Stage(bf, level, a) + Stage(bf, level, b) == Stage(bf, level, b);
    } else {
      StageConcat(bf, level, a[n..], b);
      assert (a + b)[..h] == a[..h] && (a + b)[h..n] == a[h..n] && (a + b)[n..] == a[n..] + b;
      StageStep(bf, level, a);
      StageStep(bf, level, a + b);
      var first := Combine(bf, level, a[..h], a[h..n]);
      assert first + Stage(bf, level, a[n..] + b) == (first + Stage(bf, level, a[n..])) + Stage(bf, level, b);
    }
  }

  /** A stage combines its first block and goes on behind it. */
  lemma StageStep<T>(bf: Butterfly<T>, level: nat, v: seq<T>)
    requires level > 0 && IsMultiple(|v|, Pow2(level)) && v != []
    ensures var n, h := Pow2(level), Pow2(level - 1);
      && n == 2 * h <= |v| && IsMultiple(|v| - n, n)
      && Stage(bf, level, v) == Combine(bf, level, v[..h], v[h..n]) + Stage(bf, level, v[n..])
  {
  }

  lemma {:induction false} StagesConcat<T>(bf: Butterfly<T>, level: nat, a: seq<T>, b: seq<T>)
    requires IsMultiple(|a|, Pow2(level)) && IsMultiple(|b|, Pow2(level))
    ensures IsMultiple(|a + b|, Pow2(level))
    ensures Stages(bf, level, a + b) == Stages(bf, level, a) + Stages(bf, level, b)
    decreases level
  {
    MultipleAdds(|a|, |b|, Pow2(level));
    if level > 0 {
      HalfMultiple(|a|, Pow2(level - 1));
      HalfMultiple(|b|, Pow2(level - 1));
      StagesConcat(bf, level - 1, a, b);
      StageConcat(bf, level, Stages(bf, level - 1, a), Stages(bf, level - 1, b));
    }
  }

  // -------------------------------------------------------------- bit reversal

  /** The samples in bit-reversed order: evens before odds, recursively. */
  function Reordered<T>(k: nat, v: seq<T>): (r: seq<T>)
    requires |v| == Pow2(k)
    ensures |r| == |v|
    decreases k
  {
    if k == 0 then v else Reordered(k - 1, Evens(v)) + Reordered(k - 1, Odds(v))
  }

  /** The iterative FFT is the recursive one. */
  lemma {:induction false} IterativeIsRecursive<T>(bf: Butterfly<T>, k: nat, v: seq<T>)
    requires |v| == Pow2(k)
    ensures IsMultiple(|v|, Pow2(k))
    ensures Stages(bf, k, Reordered(k, v)) == Dit(bf, k, v)
    decreases k
  {
    PowersAreMultiples(k, k);
    if k > 0 {
      var e, o := Reordered(k - 1, Evens(v)), Reordered(k - 1, Odds(v));
      IterativeIsRecursive(bf, k - 1, Evens(v));
      IterativeIsRecursive(bf, k - 1, Odds(v));
      StagesConcat(bf, k - 1, e, o);
      var de, d := Dit(bf, k - 1, Evens(v)), Dit(bf, k - 1, Odds(v));
      OneBlock(bf, k, de, d);
    }
  }

  lemma OneBlock<T>(bf: Butterfly<T>, level: nat, lo: seq<T>, hi: seq<T>)
    requires level > 0 && |lo| == |hi| == Pow2(level - 1)
    ensures IsMultiple(|lo + hi|, Pow2(level))
    ensures Stage(bf, level, lo + hi) == Combine(bf, level, lo, hi)
  {
    var v, h := lo + hi, |lo|;
    PowersAreMultiples(level, level);
    assert v[..h] == lo && v[h..2 * h] == hi && v[2 * h..] == [];
  }
}
