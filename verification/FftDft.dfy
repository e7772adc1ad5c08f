/// The fixed-point transform against the discrete Fourier transform, array by array.
///
/// A table holds the powers of a principal root, each part times 2^d and off by at most `g' units.
/// The range and rounding bounds of `FftBounds' then add up with what the table is off.

module FftDft {
  import opened Arithmetic
  import opened FftSpec
  import opened FftExact
  import F = FftFixed
  import B = FftBounds

  // ----------------------------------------------------------- the unit circle

  function Norm(z: Complex): real { z.re * z.re + z.im * z.im }

  lemma NormMul(a: Complex, b: Complex)
    ensures Norm(Mul(a, b)) == Norm(a) * Norm(b)
  {
    var x, y, u, v := a.re, a.im, b.re, b.im;
    Brahmagupta(x, y, u, v);
  }

  lemma Brahmagupta(x: real, y: real, u: real, v: real)
    ensures (x * u - y * v) * (x * u - y * v) + (x * v + y * u) * (x * v + y * u) == (x * x + y * y) * (u * u + v * v)
  {
  }

  function RealPower(x: real, n: nat): real { if n == 0 then 1.0 else x * RealPower(x, n - 1) }

  lemma {:induction false} PowerBelow(x: real, n: nat)
    requires 0.0 <= x < 1.0 && n > 0
    ensures 0.0 <= RealPower(x, n) < 1.0
  {
    if n > 1 {
      PowerBelow(x, n - 1);
      assert x * RealPower(x, n - 1) <= x;
    }
  }

  lemma {:induction false} PowerAbove(x: real, n: nat)
    requires x > 1.0 && n > 0
    ensures RealPower(x, n) > 1.0
  {
    if n > 1 {
      PowerAbove(x, n - 1);
      assert x * RealPower(x, n - 1) > x;
    }
  }

  lemma {:induction false} NormOfPower(w: nat -> Complex, h: nat, i: nat)
    requires IsRoot(w, h)
    ensures Norm(w(i)) == RealPower(Norm(w(1)), i)
  {
    hide Norm, Mul;
    if i == 0 {
      assert Norm(ONE) == 1.0 by { NormOne(); }
    } else {
      NormOfPower(w, h, i - 1);
      RootSplit(w, h, 1, i - 1);
      NormMul(w(1), w(i - 1));
    }
  }

  lemma NormOne()
    ensures Norm(ONE) == 1.0 && Norm(Complex(-1.0, 0.0)) == 1.0
  {
  }

  /** The powers of a principal root lie on the unit circle. */
  lemma RootOnCircle(w: nat -> Complex, h: nat, i: nat)
    requires IsRoot(w, h)
    ensures Norm(w(i)) == 1.0 && -1.0 <= w(i).re <= 1.0 && -1.0 <= w(i).im <= 1.0
  {
    var r := Norm(w(1));
    NormOfPower(w, h, h);
    NormOne();
    assert h > 0;
    if r < 1.0 { PowerBelow(r, h); }
    if r > 1.0 { PowerAbove(r, h); }
    NormOfPower(w, h, i);
    OnePower(i);
    PartsOfUnit(w(i).re, w(i).im);
  }

  lemma {:induction false} OnePower(n: nat)
    ensures RealPower(1.0, n) == 1.0
  {
    if n > 0 { OnePower(n - 1); }
  }

  lemma PartsOfUnit(x: real, y: real)
    requires x * x + y * y == 1.0
    ensures -1.0 <= x <= 1.0 && -1.0 <= y <= 1.0
  {
    SquareOf(x);
    SquareOf(y);
  }

  lemma SquareOf(x: real)
    ensures x * x >= 0.0 && (x > 1.0 || x < -1.0 ==> x * x > 1.0)
  {
    if x > 1.0 {
      assert x * x > x;
    } else if x < -1.0 {
      assert (-x) * (-x) > -x;
      assert (-x) * (-x) == x * x;
    }
  }

  // ------------------------------------------------------------------ bounds

  predicate Bounded(z: Complex, m: real) { -m <= z.re <= m && -m <= z.im <= m }

  predicate Close(a: Complex, b: Complex, e: real) { B.Gap(a.re, b.re) <= e && B.Gap(a.im, b.im) <= e }

  lemma ProductBound(x: real, u: real, m: real, p: real)
    requires -m <= x <= m && -p <= u <= p
    ensures -(m * p) <= x * u <= m * p
  {
    var a, b := if x < 0.0 then -x else x, if u < 0.0 then -u else u;
    assert a * b <= m * b;
    assert m * b <= m * p;
    assert x * u == a * b || x * u == -(a * b);
  }

  /** A product with a factor whose parts are at most p in size. */
  lemma MulBound(z: Complex, w: Complex, m: real, p: real)
    requires Bounded(z, m) && Bounded(w, p)
    ensures Bounded(Mul(z, w), 2.0 * (m * p))
  {
    var x, y, u, v := z.re, z.im, w.re, w.im;
    CrossBound(x, y, u, v, m, p, x * u - y * v, x * v + y * u);
  }

  lemma CrossBound(x: real, y: real, u: real, v: real, m: real, p: real, r: real, s: real)
    requires -m <= x <= m && -m <= y <= m && -p <= u <= p && -p <= v <= p
    requires r == x * u - y * v && s == x * v + y * u
    ensures -(2.0 * (m * p)) <= r <= 2.0 * (m * p) && -(2.0 * (m * p)) <= s <= 2.0 * (m * p)
  {
    ProductBound(x, u, m, p);
    ProductBound(y, v, m, p);
    ProductBound(x, v, m, p);
    ProductBound(y, u, m, p);
  }

  lemma SplitTimes(a: real, z: real, t: real, w: real)
    ensures B.Times(a, t) - B.Times(z, w) == B.Times(a - z, t) + B.Times(z, t - w)
  {
  }

  lemma SplitParts(a: real, b: real, z: real, y: real, t: real, u: real, w: real, v: real)
    ensures B.CrossRe(a, b, t, u) - B.CrossRe(z, y, w, v)
         == B.CrossRe(a - z, b - y, t, u) + B.CrossRe(z, y, t - w, u - v)
    ensures B.CrossIm(a, b, t, u) - B.CrossIm(z, y, w, v)
         == B.CrossIm(a - z, b - y, t, u) + B.CrossIm(z, y, t - w, u - v)
  {
    SplitTimes(a, z, t, w);
    SplitTimes(b, y, u, v);
    SplitTimes(a, z, u, v);
    SplitTimes(b, y, t, w);
  }

  lemma MulIsCross(z: Complex, w: Complex)
    ensures Mul(z, w) == Complex(B.CrossRe(z.re, z.im, w.re, w.im), B.CrossIm(z.re, z.im, w.re, w.im))
  {
  }

  lemma SplitDifference(a: Complex, z: Complex, t: Complex, w: Complex)
    ensures Sub(Mul(a, t), Mul(z, w)) == Add(Mul(Sub(a, z), t), Mul(z, Sub(t, w)))
  {
    hide Mul, B.CrossRe, B.CrossIm;
    MulIsCross(a, t);
    MulIsCross(z, w);
    MulIsCross(Sub(a, z), t);
    MulIsCross(z, Sub(t, w));
    SplitParts(a.re, a.im, z.re, z.im, t.re, t.im, w.re, w.im);
  }

  /** Products of close factors: the first within e, the second, of size at most 1, within c. */
  lemma MulClose(a: Complex, z: Complex, t: Complex, w: Complex, e: real, c: real, m: real)
    requires Close(a, z, e) && Close(t, w, c) && Bounded(t, 1.0) && Bounded(z, m)
    ensures Close(Mul(a, t), Mul(z, w), 2.0 * e + 2.0 * B.Times(m, c))
  {
    hide Mul;
    MulBound(Sub(a, z), t, e, 1.0);
    MulBound(z, Sub(t, w), m, c);
    SplitDifference(a, z, t, w);
    PartsOfDifference(Mul(a, t), Mul(z, w), Mul(Sub(a, z), t), Mul(z, Sub(t, w)), 2.0 * (e * 1.0), 2.0 * B.Times(m, c));
  }

  lemma PartsOfDifference(x: Complex, y: Complex, p: Complex, q: Complex, e: real, f: real)
    requires Sub(x, y) == Add(p, q) && Bounded(p, e) && Bounded(q, f)
    ensures Close(x, y, e + f)
  {
  }

  lemma SumsClose(a: Complex, b: Complex, y: Complex, z: Complex, e: real, f: real, sum: real)
    requires Close(a, y, e) && Close(b, z, f) && sum == e + f
    ensures Close(Add(a, b), Add(y, z), sum) && Close(Sub(a, b), Sub(y, z), sum)
  {
  }

  lemma SumsBounded(y: Complex, z: Complex, e: real, f: real, sum: real)
    requires Bounded(y, e) && Bounded(z, f) && sum == e + f
    ensures Bounded(Add(y, z), sum) && Bounded(Sub(y, z), sum)
  {
  }

  // ------------------------------------------------------- the table's share

  function ScaledUp(x: real, d: nat): real { x * (Pow2(d) as real) }

  /** Two numbers of an interleaved table are the parts of z, scaled by 2^d and off by at most g. */
  predicate Scaled(re: Short, im: Short, d: nat, z: Complex, g: real) {
    B.Gap(re as real, ScaledUp(z.re, d)) <= g && B.Gap(im as real, ScaledUp(z.im, d)) <= g
  }

  /** The first n pairs of a table are the powers of the root. */
  ghost predicate IsTable(tw: seq<Short>, d: nat, w: nat -> Complex, n: nat, g: real) {
    2 * n <= |tw| && forall i :: 0 <= i < n ==> Scaled(tw[2 * i], tw[2 * i + 1], d, w(i), g)
  }

  /** What the table adds to the error, if its factors are off by c. */
  function Slip(level: nat, size: nat, c: real): real {
    if level <= 1 then 0.0 else 3.0 * Slip(level - 1, size, c) + 2.0 * B.Times(B.Growth(level - 1, size) as real, c)
  }

  lemma {:induction false} SlipClosedForm(level: nat, size: nat, c: real)
    requires level >= 2
    ensures Slip(level, size, c) == 4.0 * ((level - 1) as real) * (Power(3, level - 2) as real) * (size as real) * c
  {
    hide Power;
    B.GrowthClosedForm(level - 1, size);
    var p, n, s := Power(3, level - 2) as real, (level - 1) as real, size as real;
    GrowthAsReal(Power(3, level - 2), size);
    if level == 2 {
      PowerStep(0);
    } else {
      PowerStep(level - 2);
      SlipClosedForm(level - 1, size, c);
      var q := Power(3, level - 3) as real;
      SlipArithmetic(p, q, n, s, c);
    }
  }

  lemma PowerStep(n: nat)
    ensures Power(3, 0) == 1 && (n > 0 ==> Power(3, n) == 3 * Power(3, n - 1))
  {
  }

  lemma GrowthAsReal(p: nat, size: nat)
    ensures (2 * p * size) as real == 2.0 * (p as real) * (size as real)
  {
    B.ProductAsReal(2 * p, size);
  }

  lemma SlipArithmetic(p: real, q: real, n: real, s: real, c: real)
    requires p == 3.0 * q
    ensures 3.0 * (4.0 * (n - 1.0) * q * s * c) + 2.0 * (2.0 * p * s * c) == 4.0 * n * p * s * c
  {
    var x := q * s * c;
    assert 4.0 * (n - 1.0) * q * s * c == 4.0 * (n - 1.0) * x;
    assert 2.0 * p * s * c == 6.0 * x;
    assert 4.0 * n * p * s * c == 12.0 * n * x;
  }

  lemma ScaledUpFacts(x: real, d: nat)
    ensures ScaledUp(x, d) == B.Times(x, Pow2(d) as real) && ScaledUp(B.Over(x, d), d) == x
  {
    B.OverTimes(x, d);
  }

  lemma ScaledFactor(t: Short, u: real, d: nat, g: real)
    requires B.Gap(t as real, ScaledUp(u, d)) <= g
    ensures B.Gap(B.Over(t as real, d), u) <= B.Over(g, d)
  {
    hide Pow2, B.Over, B.Times, ScaledUp;
    var v, c, p := B.Over(t as real, d), B.Over(g, d), Pow2(d) as real;
    ScaledUpFacts(t as real, d);
    ScaledUpFacts(g, d);
    ScaledUpFacts(u, d);
    ScaledUpFacts(v, d);
    ScaledUpFacts(c, d);
    B.DifferenceCancel(v, u, c, p);
    B.DifferenceCancel(u, v, c, p);
  }

  lemma UnitReal(v: real, t: real, p: real)
    requires p > 0.0 && v * p == t && -p <= t <= p
    ensures -1.0 <= v <= 1.0
  {
    B.RealDistributes(v, 1.0, p);
    B.RealDistributes(-1.0, v, p);
    if v > 1.0 { B.PositiveProduct(v - 1.0, p); }
    if v < -1.0 { B.PositiveProduct(-1.0 - v, p); }
  }

  lemma UnitFactor(t: Short, d: nat)
    requires 0 - Pow2(d) <= t <= Pow2(d)
    ensures -1.0 <= B.Over(t as real, d) <= 1.0
  {
    hide Pow2, B.Over;
    B.OverTimes(t as real, d);
    UnitReal(B.Over(t as real, d), t as real, Pow2(d) as real);
  }

  /** An entry of the table is a factor of size at most 1, close to the power of the root. */
  lemma EntryClose(tw: seq<Short>, d: nat, w: nat -> Complex, n: nat, g: real, i: nat)
    requires IsTable(tw, d, w, n, g) && B.TableWithin(tw, d) && i < n
    ensures var t := B.Twiddle(F.Entry(tw, i), d); Close(t, w(i), B.Over(g, d)) && Bounded(t, 1.0)
  {
    hide Pow2, B.Over, ScaledUp;
    assert Scaled(tw[2 * i], tw[2 * i + 1], d, w(i), g);
    ScaledFactor(tw[2 * i], w(i).re, d, g);
    ScaledFactor(tw[2 * i + 1], w(i).im, d, g);
    UnitFactor(tw[2 * i], d);
    UnitFactor(tw[2 * i + 1], d);
  }

  lemma ExactAt(w: nat -> Complex, k: nat, level: nat, j: nat, y: Complex, z: Complex)
    ensures ExactButterfly(w, k)(level, j, y, z)
      == if level <= 1 || level > k then (Add(y, z), Sub(y, z))
         else var t := Mul(z, w(j * Pow2(k - level))); (Add(y, t), Sub(y, t))
  {
  }

  /** Error and size after one more level. */
  function NextSlip(level: nat, e: real, m: real, c: real): real {
    if level == 1 then 2.0 * e else 3.0 * e + 2.0 * B.Times(m, c)
  }

  function NextSize(level: nat, m: real): real { if level == 1 then 2.0 * m else 3.0 * m }

  /** One butterfly: of the table on values that are close, and of the root on bounded values. */
  lemma ButterflyClose(tw: seq<Short>, k: nat, d: nat, w: nat -> Complex, g: real, level: nat, j: nat,
                       a: Complex, b: Complex, y: Complex, z: Complex, e: real, m: real)
    requires 1 <= level <= k && j < Pow2(level - 1) && IsRoot(w, Pow2(k - 1))
    requires IsTable(tw, d, w, Pow2(k - 1), g) && B.TableWithin(tw, d)
    requires Close(a, y, e) && Close(b, z, e) && Bounded(y, m) && Bounded(z, m)
    ensures var p, q := B.ExactTableButterfly(tw, k, d)(level, j, a, b), ExactButterfly(w, k)(level, j, y, z);
      var f, n := NextSlip(level, e, m, B.Over(g, d)), NextSize(level, m);
      && Close(p.0, q.0, f) && Close(p.1, q.1, f) && Bounded(q.0, n) && Bounded(q.1, n)
  {
    hide B.ExactTableButterfly, ExactButterfly, Pow2, IsTable, B.TableWithin, Close, Bounded, Mul, Add, Sub, B.Twiddle,
      F.Entry, B.Over, IsRoot, B.Times;
    B.ExactApplied(tw, k, d, level, j, a, b);
    ExactAt(w, k, level, j, y, z);
    if level == 1 {
      SumsClose(a, b, y, z, e, e, 2.0 * e);
      SumsBounded(y, z, m, m, 2.0 * m);
    } else {
      var i, c := j * Pow2(k - level), B.Over(g, d);
      F.TwiddleInRange(k, level, j);
      EntryClose(tw, d, w, Pow2(k - 1), g, i);
      var t := B.Twiddle(F.Entry(tw, i), d);
      MulClose(b, z, t, w(i), e, c, m);
      SumsClose(a, Mul(b, t), y, Mul(z, w(i)), e, 2.0 * e + 2.0 * B.Times(m, c), 3.0 * e + 2.0 * B.Times(m, c));
      UnitPower(w, Pow2(k - 1), i);
      MulBound(z, w(i), m, 1.0);
      SumsBounded(y, Mul(z, w(i)), m, 2.0 * (m * 1.0), 3.0 * m);
    }
  }

  lemma UnitPower(w: nat -> Complex, h: nat, i: nat)
    requires IsRoot(w, h)
    ensures Bounded(w(i), 1.0)
  {
    RootOnCircle(w, h, i);
  }

  ghost predicate AllBounded(v: seq<Complex>, m: real) {
    forall i :: 0 <= i < |v| ==> Bounded(v[i], m)
  }

  lemma HalvesBounded(v: seq<Complex>, m: real)
    requires AllBounded(v, m)
    ensures AllBounded(Evens(v), m) && AllBounded(Odds(v), m)
  {
  }

  lemma LastStageClose(tw: seq<Short>, k: nat, d: nat, w: nat -> Complex, g: real, level: nat, v: seq<Complex>,
                       i: nat, e: real, m: real)
    requires 1 <= level <= k && |v| == Pow2(level) && i < |v| && IsRoot(w, Pow2(k - 1))
    requires IsTable(tw, d, w, Pow2(k - 1), g) && B.TableWithin(tw, d)
    requires var h := Pow2(level - 1); var j := if i < h then i else i - h;
      var bf, ef := B.ExactTableButterfly(tw, k, d), ExactButterfly(w, k);
      && Close(Dit(bf, level - 1, Evens(v))[j], Dit(ef, level - 1, Evens(v))[j], e)
      && Close(Dit(bf, level - 1, Odds(v))[j], Dit(ef, level - 1, Odds(v))[j], e)
      && Bounded(Dit(ef, level - 1, Evens(v))[j], m) && Bounded(Dit(ef, level - 1, Odds(v))[j], m)
    ensures Close(Dit(B.ExactTableButterfly(tw, k, d), level, v)[i], Dit(ExactButterfly(w, k), level, v)[i],
                  NextSlip(level, e, m, B.Over(g, d)))
    ensures Bounded(Dit(ExactButterfly(w, k), level, v)[i], NextSize(level, m))
  {
    hide B.ExactTableButterfly, ExactButterfly, IsTable, B.TableWithin, Bounded, Close, Dit, Evens, Odds, IsRoot,
      B.Over, B.Times;
    var h := Pow2(level - 1);
    var j := if i < h then i else i - h;
    var bf, ef := B.ExactTableButterfly(tw, k, d), ExactButterfly(w, k);
    ButterflyClose(tw, k, d, w, g, level, j, Dit(bf, level - 1, Evens(v))[j], Dit(bf, level - 1, Odds(v))[j],
                   Dit(ef, level - 1, Evens(v))[j], Dit(ef, level - 1, Odds(v))[j], e, m);
    B.LastStage(bf, level, v, j);
    B.LastStage(ef, level, v, j);
  }

  /** With the table and with the root, the transforms differ by at most the slip of the level. */
  lemma {:induction false} TableClose(tw: seq<Short>, k: nat, d: nat, w: nat -> Complex, g: real, level: nat,
                                      v: seq<Complex>, size: nat, i: nat)
    requires k >= 1 && level <= k && |v| == Pow2(level) && i < |v| && IsRoot(w, Pow2(k - 1))
    requires IsTable(tw, d, w, Pow2(k - 1), g) && B.TableWithin(tw, d) && AllBounded(v, size as real)
    ensures Close(Dit(B.ExactTableButterfly(tw, k, d), level, v)[i], Dit(ExactButterfly(w, k), level, v)[i],
                  Slip(level, size, B.Over(g, d)))
    ensures Bounded(Dit(ExactButterfly(w, k), level, v)[i], B.Growth(level, size) as real)
    decreases level
  {
    hide B.ExactTableButterfly, ExactButterfly, IsTable, B.TableWithin, AllBounded, Bounded, Close, Dit, Evens, Odds,
      IsRoot, B.Over, B.Growth, Slip, NextSlip, NextSize;
    SlipStep(level, size, B.Over(g, d));
    if level == 0 {
      OneSampleClose(tw, k, d, w, v, size);
    } else {
      var h := Pow2(level - 1);
      var j := if i < h then i else i - h;
      HalvesBounded(v, size as real);
      TableClose(tw, k, d, w, g, level - 1, Evens(v), size, j);
      TableClose(tw, k, d, w, g, level - 1, Odds(v), size, j);
      LastStageClose(tw, k, d, w, g, level, v, i, Slip(level - 1, size, B.Over(g, d)),
                     B.Growth(level - 1, size) as real);
    }
  }

  lemma SlipStep(level: nat, size: nat, c: real)
    ensures Slip(0, size, c) == 0.0 && B.Growth(0, size) == size
    ensures level > 0 ==>
      Slip(level, size, c) == NextSlip(level, Slip(level - 1, size, c), B.Growth(level - 1, size) as real, c)
    ensures level > 0 ==> B.Growth(level, size) as real == NextSize(level, B.Growth(level - 1, size) as real)
  {
  }

  lemma OneSampleClose(tw: seq<Short>, k: nat, d: nat, w: nat -> Complex, v: seq<Complex>, size: nat)
    requires |v| == 1 && AllBounded(v, size as real)
    ensures Close(Dit(B.ExactTableButterfly(tw, k, d), 0, v)[0], Dit(ExactButterfly(w, k), 0, v)[0], 0.0)
    ensures Bounded(Dit(ExactButterfly(w, k), 0, v)[0], size as real)
  {
  }

  // --------------------------------------------------------------- the arrays

  /** The samples of an interleaved array as complex numbers. */
  function Signal(x: seq<Short>, n: nat): (v: seq<Complex>)
    requires 2 * n <= |x|
    ensures |v| == n
  {
    seq(n, i requires 0 <= i < n => Complex(x[2 * i] as real, x[2 * i + 1] as real))
  }

  /** The error bound: rounding, and a table that is off by g units. */
  function Tolerance(k: nat, size: nat, d: nat, g: real): real
    requires k >= 1
  {
    ((Power(3, k - 1) - 1) / 2) as real + Slip(k, size, B.Over(g, d))
  }

  /** An exact table adds nothing; otherwise each unit that it is off adds 4 * (k - 1) * 3^(k - 2) * size / 2^d. */
  lemma ToleranceClosedForm(k: nat, size: nat, d: nat, g: real)
    requires k >= 2
    ensures Tolerance(k, size, d, g) == ((Power(3, k - 1) - 1) / 2) as real
         + 4.0 * ((k - 1) as real) * (Power(3, k - 2) as real) * (size as real) * (g / (Pow2(d) as real))
    ensures Tolerance(k, size, d, 0.0) == ((Power(3, k - 1) - 1) / 2) as real
  {
    hide Power, Slip;
    SlipClosedForm(k, size, B.Over(g, d));
    SlipClosedForm(k, size, B.Over(0.0, d));
  }

  /** The fourth roots of unity in clockwise order. */
  function Turn(r: int): Complex {
    if r == 0 then ONE else if r == 1 then Complex(0.0, -1.0) else if r == 2 then Complex(-1.0, 0.0)
    else Complex(0.0, 1.0)
  }

  function QuarterTurns(): nat -> Complex { (i: nat) => Turn(i % 4) }

  lemma Turned(r: nat, z: Complex)
    requires r < 4
    ensures Mul(Turn(r), z) == if r == 0 then z else if r == 1 then Complex(z.im, -z.re)
                               else if r == 2 then Complex(-z.re, -z.im) else Complex(-z.im, z.re)
  {
  }

  lemma TurnsAdd(r: nat, s: nat)
    requires r < 4 && s < 4
    ensures Turn((r + s) % 4) == Mul(Turn(r), Turn(s))
  {
    hide Mul;
    Turned(r, Turn(s));
  }

  lemma RemaindersAdd(a: nat, b: nat)
    ensures (a + b) % 4 == (a % 4 + b % 4) % 4
  {
  }

  lemma QuarterTurnsAreRoots()
    ensures IsRoot(QuarterTurns(), 2)
  {
    hide Mul, Turn;
    TurnValues();
    forall a: nat, b: nat
      ensures AddsExponents(QuarterTurns(), a, b)
    {
      RemaindersAdd(a, b);
      TurnsAdd(a % 4, b % 4);
    }
  }

  lemma TurnValues()
    ensures Turn(0) == ONE && Turn(1) == Complex(0.0, -1.0) && Turn(2) == Complex(-1.0, 0.0)
  {
  }

  lemma ExactEntry(re: Short, im: Short, p: real, z: Complex)
    requires Pow2(8) as real == p && re as real == z.re * p && im as real == z.im * p
    ensures Scaled(re, im, 8, z, 0.0)
  {
  }

  /** They are the powers of a principal root, and their table of four samples with eight fractional bits is exact. */
  lemma FourSampleTable()
    ensures IsRoot(QuarterTurns(), 2) && IsTable([256, 0, 0, -256], 8, QuarterTurns(), 2, 0.0)
  {
    QuarterTurnsAreRoots();
    TurnValues();
    assert Pow2(4) == 16;
    assert Pow2(8) == 256;
    hide Turn, Pow2, Scaled, IsRoot;
    ExactEntry(256, 0, 256.0, Turn(0));
    ExactEntry(0, -256, 256.0, Turn(1));
    forall i: nat | i < 2
      ensures Scaled([256, 0, 0, -256][2 * i], [256, 0, 0, -256][2 * i + 1], 8, QuarterTurns()(i), 0.0)
    {
      assert i == 0 || i == 1;
    }
  }

  lemma SignalIsReals(x: seq<Short>, n: nat)
    requires |x| == 2 * n
    ensures Signal(x, n) == B.Reals(F.Samples(x))
  {
  }

  lemma SamplesWithin(x: seq<Short>, n: nat, size: nat)
    requires |x| == 2 * n && forall i :: 0 <= i < |x| ==> -(size as int) <= x[i] <= size
    ensures B.AllWithin(F.Samples(x), size) && AllBounded(Signal(x, n), size as real)
  {
  }

  lemma CloseThrough(c: F.Cx, t: Complex, z: Complex, e: nat, f: real)
    requires B.Near(c, t, e) && Close(t, z, f)
    ensures Close(B.Real(c), z, e as real + f)
  {
  }

  /** What the transform leaves in X is the DFT of what is in x, up to the tolerance. */
  lemma OutputsAreDft(x: seq<Short>, X: seq<Short>, tw: seq<Short>, k: nat, d: nat, w: nat -> Complex, g: real,
                      size: nat, f: nat)
    requires k >= 1 && d <= 14 && |x| == |X| == 2 * Pow2(k) && f < Pow2(k)
    requires F.Samples(X) == Dit(F.FixedButterfly(tw, k, d), k, F.Samples(x))
    requires IsRoot(w, Pow2(k - 1)) && IsTable(tw, d, w, Pow2(k - 1), g) && B.TableWithin(tw, d)
    requires (forall i :: 0 <= i < |x| ==> -(size as int) <= x[i] <= size) && 2 * Power(3, k - 1) * size <= 32767
    ensures var z := FourierSum(w, f, Signal(x, Pow2(k)), Pow2(k));
      && B.Gap(X[2 * f] as real, z.re) <= Tolerance(k, size, d, g)
      && B.Gap(X[2 * f + 1] as real, z.im) <= Tolerance(k, size, d, g)
  {
    hide Dit, F.FixedButterfly, B.ExactTableButterfly, ExactButterfly, IsTable, B.TableWithin, AllBounded, B.AllWithin,
      B.Near, Power, FourierSum, B.NeverWraps, Slip, IsRoot, B.Over, Signal, B.Reals;
    var v, n := Signal(x, Pow2(k)), Pow2(k);
    SamplesWithin(x, n, size);
    SignalIsReals(x, n);
    B.FixedPointAccuracy(tw, k, d, F.Samples(x), size);
    TableClose(tw, k, d, w, g, k, v, size, f);
    DitIsDft(w, k, v, f);
    CloseThrough(F.Samples(X)[f], Dit(B.ExactTableButterfly(tw, k, d), k, v)[f], FourierSum(w, f, v, n),
                 (Power(3, k - 1) - 1) / 2, Slip(k, size, B.Over(g, d)));
  }

  /** The example as a whole: positions, transform, and how far each part of each output is from the DFT of
      the samples.  An exact table leaves the rounding alone. */
  method TransformIsDft(x: array<Short>, X: array<Short>, N: nat, twiddleFactors: array<Short>, decimalBits: nat,
                        wRe: array<Short>, wIm: array<Short>, xrev: array<Short>, bitReversedSeq: array<Short>,
                        ghost k: nat, ghost w: nat -> Complex, ghost g: real, ghost size: nat)
    requires 1 <= k <= 14 && N == Pow2(k) && decimalBits <= 14
    requires x.Length == 2 * N && X.Length == 2 * N && xrev.Length >= 2 * N && bitReversedSeq.Length >= N
    requires twiddleFactors.Length >= N && wRe.Length >= N / 2 && wIm.Length >= N / 2
    requires xrev != x && xrev != X && xrev != wRe && xrev != wIm && xrev != bitReversedSeq && xrev != twiddleFactors
    requires twiddleFactors != wRe && twiddleFactors != wIm && wRe != wIm
    requires bitReversedSeq != x && bitReversedSeq != twiddleFactors
    requires IsRoot(w, Pow2(k - 1)) && IsTable(twiddleFactors[..], decimalBits, w, Pow2(k - 1), g)
    requires B.TableWithin(twiddleFactors[..], decimalBits)
    requires forall i :: 0 <= i < x.Length ==> -(size as int) <= x[i] <= size
    requires 2 * Power(3, k - 1) * size <= 32767
    modifies bitReversedSeq, xrev, wRe, wIm, X
    ensures forall f :: 0 <= f < N ==>
      var z := FourierSum(w, f, Signal(old(x[..]), N), N);
      && B.Gap(X[2 * f] as real, z.re) <= Tolerance(k, size, decimalBits, g)
      && B.Gap(X[2 * f + 1] as real, z.im) <= Tolerance(k, size, decimalBits, g)
  {
    hide Dit, F.FixedButterfly, IsTable, B.TableWithin, Power, FourierSum, Tolerance, F.Samples, IsRoot, Signal, Pow2;
    ghost var v, tw := x[..], twiddleFactors[..];
    assert v[..2 * N] == v;
    F.Radix2(x, X, N, twiddleFactors, decimalBits, wRe, wIm, xrev, bitReversedSeq, k);
    assert X[..2 * N] == X[..];
    forall f | 0 <= f < N
      ensures var z := FourierSum(w, f, Signal(v, N), N);
        && B.Gap(X[2 * f] as real, z.re) <= Tolerance(k, size, decimalBits, g)
        && B.Gap(X[2 * f + 1] as real, z.im) <= Tolerance(k, size, decimalBits, g)
    {
      OutputsAreDft(v, X[..], tw, k, decimalBits, w, g, size, f);
    }
  }
}
