/// What the transform computes: over exact complex numbers the recursive
/// definition is the discrete Fourier transform.

module FftExact {
  import opened Arithmetic
  import opened FftSpec

  datatype Complex = Complex(re: real, im: real)

  const ZERO := Complex(0.0, 0.0)

  const ONE := Complex(1.0, 0.0)

  function Add(a: Complex, b: Complex): Complex { Complex(a.re + b.re, a.im + b.im) }

  function Sub(a: Complex, b: Complex): Complex { Complex(a.re - b.re, a.im - b.im) }

  function Mul(a: Complex, b: Complex): Complex {
    Complex(a.re * b.re - a.im * b.im, a.re * b.im + a.im * b.re)
  }

  /** w(i) is the i-th power of a principal 2h-th root of unity. */
  ghost predicate IsRoot(w: nat -> Complex, h: nat) {
    && w(0) == ONE && w(h) == Complex(-1.0, 0.0)
    && forall a: nat, b: nat :: AddsExponents(w, a, b)
  }

  ghost predicate AddsExponents(w: nat -> Complex, a: nat, b: nat) {
    w(a + b) == Mul(w(a), w(b))
  }

  /** The butterfly of a transform of 2^k samples with exact multiplication. */
  function ExactButterfly(w: nat -> Complex, k: nat): Butterfly<Complex> {
    (level: nat, j: nat, a: Complex, b: Complex) =>
      if level <= 1 || level > k then (Add(a, b), Sub(a, b))
      else
        var t := Mul(b, w(j * Pow2(k - level)));
        (Add(a, t), Sub(a, t))
  }

  function Times(t: nat, s: nat): nat { t * s }

  /** The sum of v[t] * w(t * s) for t < n. */
  ghost function FourierSum(w: nat -> Complex, s: nat, v: seq<Complex>, n: nat): Complex
    requires n <= |v|
  {
    if n == 0 then ZERO else Add(FourierSum(w, s, v, n - 1), Mul(v[n - 1], w(Times(n - 1, s))))
  }

  // ------------------------------------------------------------ complex algebra

  lemma MulAssociative(a: Complex, b: Complex, c: Complex)
    ensures Mul(Mul(a, b), c) == Mul(a, Mul(b, c))
  {
  }

  lemma MulCommutes(a: Complex, b: Complex)
    ensures Mul(a, b) == Mul(b, a)
  {
  }

  lemma MulAdds(a: Complex, b: Complex, c: Complex)
    ensures Mul(a, Add(b, c)) == Add(Mul(a, b), Mul(a, c))
  {
  }

  lemma AddShuffle(e: Complex, x: Complex, o: Complex, y: Complex)
    ensures Add(Add(Add(e, o), x), y) == Add(Add(e, x), Add(o, y))
  {
  }

  // -------------------------------------------------------------- the root

  lemma RootSplit(w: nat -> Complex, h: nat, a: nat, b: nat)
    requires IsRoot(w, h)
    ensures w(a + b) == Mul(w(a), w(b))
  {
    assert AddsExponents(w, a, b);
  }

  lemma FullTurn(w: nat -> Complex, h: nat)
    requires IsRoot(w, h)
    ensures w(2 * h) == ONE
  {
    assert AddsExponents(w, h, h);
    assert h + h == 2 * h;
  }

  lemma OneTimes(a: Complex)
    ensures Mul(ONE, a) == a && Mul(a, ONE) == a
  {
  }

  /** A full turn is 1. */
  lemma {:induction false} RootPeriod(w: nat -> Complex, h: nat, t: nat)
    requires IsRoot(w, h)
    ensures w(Times(t, 2 * h)) == ONE
  {
    hide Mul, Times;
    FullTurn(w, h);
    OneTimes(ONE);
    TimesFacts(t, 2 * h, 0);
    if t > 0 {
      RootPeriod(w, h, t - 1);
      TimesFacts(t - 1, 2 * h, 0);
      RootSplit(w, h, Times(t - 1, 2 * h), 2 * h);
    }
  }

  lemma TimesFacts(t: nat, s: nat, r: nat)
    ensures Times(0, s) == 0 && Times(t + 1, s) == Times(t, s) + s
    ensures Times(t, s + r) == Times(t, s) + Times(t, r)
    ensures Times(t, 2 * s) == Times(2 * t, s)
  {
    MulDistributes(t, 1, s);
    MulDistributes(s, r, t);
  }

  /** Half a turn changes the sign. */
  lemma RootHalfTurn(w: nat -> Complex, h: nat, s: nat)
    requires IsRoot(w, h)
    ensures w(s + h) == Complex(-w(s).re, -w(s).im)
  {
    RootSplit(w, h, s, h);
  }

  lemma SumStep(w: nat -> Complex, s: nat, v: seq<Complex>, n: nat)
    requires 0 < n <= |v|
    ensures FourierSum(w, s, v, n) == Add(FourierSum(w, s, v, n - 1), Mul(v[n - 1], w(Times(n - 1, s))))
  {
  }

  lemma NoSum(w: nat -> Complex, s: nat, v: seq<Complex>)
    ensures FourierSum(w, s, v, 0) == ZERO
  {
  }

  /** Frequencies a full turn apart have the same sum. */
  lemma {:induction false} SumPeriodic(w: nat -> Complex, h: nat, s: nat, v: seq<Complex>, n: nat)
    requires IsRoot(w, h) && n <= |v|
    ensures FourierSum(w, s + 2 * h, v, n) == FourierSum(w, s, v, n)
    decreases n
  {
    hide Mul, Times, FourierSum;
    if n == 0 {
      NoSum(w, s + 2 * h, v);
      NoSum(w, s, v);
    } else {
      SumPeriodic(w, h, s, v, n - 1);
      SumStep(w, s, v, n);
      SumStep(w, s + 2 * h, v, n);
      TimesFacts(n - 1, s, 2 * h);
      RootPeriod(w, h, n - 1);
      RootSplit(w, h, Times(n - 1, s), Times(n - 1, 2 * h));
      OneTimes(w(Times(n - 1, s)));
    }
  }

  lemma SamplesOf(v: seq<Complex>, n: nat)
    requires 2 * n + 1 < |v|
    ensures Evens(v)[n] == v[2 * n] && Odds(v)[n] == v[2 * n + 1]
  {
  }

  lemma EmptySums(w: nat -> Complex, s: nat, v: seq<Complex>)
    ensures FourierSum(w, s, v, 0)
         == Add(FourierSum(w, 2 * s, Evens(v), 0), Mul(w(s), FourierSum(w, 2 * s, Odds(v), 0)))
  {
  }

  /** A sum over all samples splits into the even and the odd ones. */
  lemma {:induction false} SumSplits(w: nat -> Complex, h: nat, s: nat, v: seq<Complex>, n: nat)
    requires IsRoot(w, h) && 2 * n <= |v|
    ensures FourierSum(w, s, v, 2 * n)
         == Add(FourierSum(w, 2 * s, Evens(v), n), Mul(w(s), FourierSum(w, 2 * s, Odds(v), n)))
    decreases n
  {
    hide Mul, Add, FourierSum, Evens, Odds, Times;
    if n == 0 {
      EmptySums(w, s, v);
    } else {
      var m := n - 1;
      SumSplits(w, h, s, v, m);
      SamplesOf(v, m);
      SumStep(w, s, v, 2 * m + 1);
      SumStep(w, s, v, 2 * m + 2);
      SumStep(w, 2 * s, Evens(v), m + 1);
      SumStep(w, 2 * s, Odds(v), m + 1);
      TimesFacts(m, s, 0);
      TimesFacts(2 * m, s, 0);
      var r := Times(2 * m, s);
      RootSplit(w, h, r, s);
      SplitTerm(FourierSum(w, 2 * s, Evens(v), m), FourierSum(w, 2 * s, Odds(v), m),
                v[2 * m], v[2 * m + 1], w(r), w(s));
    }
  }

  lemma SplitTerm(e: Complex, o: Complex, x: Complex, y: Complex, r: Complex, z: Complex)
    ensures Add(Add(Add(e, Mul(z, o)), Mul(x, r)), Mul(y, Mul(r, z)))
         == Add(Add(e, Mul(x, r)), Mul(z, Add(o, Mul(y, r))))
  {
    MulAdds(z, o, Mul(y, r));
    MulCommutes(z, Mul(y, r));
    MulAssociative(y, r, z);
    AddShuffle(e, Mul(x, r), Mul(z, o), Mul(Mul(y, r), z));
  }

  // ------------------------------------------------------------- the theorem

  /** The output samples of a block, from the transforms of its halves. */
  lemma DitOutput(w: nat -> Complex, k: nat, level: nat, v: seq<Complex>, g: nat)
    requires 1 <= level <= k && |v| == Pow2(level) && g < Pow2(level - 1) && w(0) == ONE
    ensures var bf, h := ExactButterfly(w, k), Pow2(level - 1);
      var e, t := Dit(bf, level - 1, Evens(v))[g], Mul(Dit(bf, level - 1, Odds(v))[g], w(Times(g, Pow2(k - level))));
      && Dit(bf, level, v)[g] == Add(e, t) && Dit(bf, level, v)[g + h] == Sub(e, t)
  {
    var bf := ExactButterfly(w, k);
    if level == 1 {
      TimesFacts(0, Pow2(k - level), 0);
      OneTimes(Dit(bf, 0, Odds(v))[g]);
    }
  }

  /** The arithmetic of frequencies: half a transform apart is half a turn apart. */
  lemma Frequencies(k: nat, level: nat, g: nat)
    requires 1 <= level <= k
    ensures var h, m, n := Pow2(level - 1), Pow2(k - level), Pow2(k - 1);
      && Times(g, 2 * m) == 2 * Times(g, m) && Times(g + h, m) == Times(g, m) + n
  {
    Pow2Adds(level - 1, k - level);
    MulDistributes(g, Pow2(level - 1), Pow2(k - level));
  }

  /** Output f of a sub-transform of 2^level samples is the Fourier sum at frequency f, in steps of
      the root that belong to that size. */
  lemma {:induction false} DitIsFourierSum(w: nat -> Complex, k: nat, level: nat, v: seq<Complex>, f: nat)
    requires 1 <= k && level <= k && |v| == Pow2(level) && f < |v| && IsRoot(w, Pow2(k - 1))
    ensures Dit(ExactButterfly(w, k), level, v)[f] == FourierSum(w, Times(f, Pow2(k - level)), v, |v|)
    decreases level
  {
    hide Mul, Add, Sub, FourierSum, Dit, Evens, Odds, Times;
    if level == 0 {
      OneSample(w, Pow2(k - 1), k, v);
    } else {
      var h, m, n := Pow2(level - 1), Pow2(k - level), Pow2(k - 1);
      var g := if f < h then f else f - h;
      var s := Times(g, m);
      Frequencies(k, level, g);
      DitIsFourierSum(w, k, level - 1, Evens(v), g);
      DitIsFourierSum(w, k, level - 1, Odds(v), g);
      DitOutput(w, k, level, v, g);
      var e, o := FourierSum(w, 2 * s, Evens(v), h), FourierSum(w, 2 * s, Odds(v), h);
      if f < h {
        SumSplits(w, n, s, v, h);
        MulCommutes(o, w(s));
      } else {
        SumSplits(w, n, s + n, v, h);
        SumPeriodic(w, n, 2 * s, Evens(v), h);
        SumPeriodic(w, n, 2 * s, Odds(v), h);
        HalfTurnTerm(w, n, s, e, o);
      }
    }
  }

  lemma OneSample(w: nat -> Complex, h: nat, k: nat, v: seq<Complex>)
    requires |v| == 1 && IsRoot(w, h)
    ensures Dit(ExactButterfly(w, k), 0, v)[0] == FourierSum(w, Times(0, Pow2(k)), v, 1)
  {
    TimesFacts(0, Pow2(k), 0);
    assert FourierSum(w, 0, v, 0) == ZERO;
    OneTimes(v[0]);
  }

  lemma HalfTurnTerm(w: nat -> Complex, n: nat, s: nat, e: Complex, o: Complex)
    requires IsRoot(w, n)
    ensures Sub(e, Mul(o, w(s))) == Add(e, Mul(w(s + n), o))
  {
    RootHalfTurn(w, n, s);
  }

  /** With exact multiplication by powers of a principal 2^k-th root, the transform is the DFT. */
  lemma DitIsDft(w: nat -> Complex, k: nat, v: seq<Complex>, f: nat)
    requires 1 <= k && |v| == Pow2(k) && f < |v| && IsRoot(w, Pow2(k - 1))
    ensures Dit(ExactButterfly(w, k), k, v)[f] == FourierSum(w, f, v, |v|)
  {
    DitIsFourierSum(w, k, k, v, f);
  }
}
