/// Range and accuracy of the fixed-point transform.
///
/// Twiddle components are at most 2^d in size, as a table with d fractional bits
/// is, and d is at most 14.  The comparison is with the transform that uses the
/// same table entries divided by 2^d and does not round.

module FftBounds {
  import opened Arithmetic
  import opened FftSpec
  import opened FftFixed
  import FftExact

  // ----------------------------------------------------------------- ranges

  predicate Within(c: Cx, m: int) {
    -m <= c.re <= m && -m <= c.im <= m
  }

  ghost predicate AllWithin(v: seq<Cx>, m: int) {
    forall i :: 0 <= i < |v| ==> Within(v[i], m)
  }

  /** The size of the values after `level' stages on inputs of size B: doubled, then tripled. */
  function Growth(level: nat, B: nat): nat {
    if level == 0 then B else if level == 1 then 2 * B else 3 * Growth(level - 1, B)
  }

  /** The error after `level' stages, in units of the last place. */
  function Drift(level: nat): nat {
    if level <= 1 then 0 else 3 * Drift(level - 1) + 1
  }

  lemma {:induction false} GrowthClosedForm(level: nat, B: nat)
    requires level >= 1
    ensures Growth(level, B) == 2 * Power(3, level - 1) * B
  {
    if level > 1 { GrowthClosedForm(level - 1, B); }
  }

  /** (3^(k-1) - 1) / 2; for 16 samples that is 13. */
  lemma {:induction false} DriftClosedForm(level: nat)
    requires level >= 1
    ensures 2 * Drift(level) + 1 == Power(3, level - 1)
    ensures level == 4 ==> Drift(level) == 13
  {
    if level > 1 { DriftClosedForm(level - 1); }
  }

  ghost predicate TableWithin(tw: seq<Short>, d: nat) {
    forall i :: 0 <= i < |tw| ==> 0 - Pow2(d) <= tw[i] <= Pow2(d)
  }

  lemma EntryWithin(tw: seq<Short>, d: nat, i: nat)
    requires TableWithin(tw, d)
    ensures Within(Entry(tw, i), Pow2(d))
  {
  }

  lemma ProductWithin(x: int, w: int, m: int, p: int)
    requires -m <= x <= m && -p <= w <= p
    ensures -(m * p) <= x * w <= m * p
  {
    MulMonotone(if x < 0 then -x else x, m, if w < 0 then -w else w);
    MulMonotone(if w < 0 then -w else w, p, m);
    var a, b := if x < 0 then -x else x, if w < 0 then -w else w;
    assert x * w == a * b || x * w == -(a * b);
  }

  /** The quotient rounded down, between neighbouring multiples. */
  lemma ShrBounds(x: int, d: nat)
    ensures Shr(x, d) * Pow2(d) <= x < Shr(x, d) * Pow2(d) + Pow2(d)
  {
  }

  lemma ShrWithin(x: int, d: nat, m: int)
    requires -(m * Pow2(d)) <= x <= m * Pow2(d)
    ensures -m <= Shr(x, d) <= m
  {
    hide Shr;
    ShrBounds(x, d);
    var q, p := Shr(x, d), Pow2(d);
    if q > m {
      MulMonotone(m + 1, q, p);
      MulDistributes(m, 1, p);
    } else if q < -m {
      MulMonotone(q, -m - 1, p);
      MulDistributes(-m, 1, p);
    }
  }

  lemma Fits32(m: nat, d: nat)
    requires m <= 0x8000 && d <= 14
    ensures 2 * (m * Pow2(d)) < 0x8000_0000
  {
    Pow2Monotone(d, 14);
    assert Pow2(7) == 128;
    Pow2Adds(7, 7);
    MulMonotone(Pow2(d), Pow2(14), m);
    MulMonotone(m, 0x8000, 0x4000);
  }

  /** A part of a product of sample and twiddle: the 32-bit value is exact, and the shifted one at
      most twice the sample. */
  lemma PartInRange(s: int, d: nat, m: nat)
    requires -(2 * (m * Pow2(d))) <= s <= 2 * (m * Pow2(d)) && d <= 14 && m <= 0x8000
    ensures Wrap32(s) == s && -0x8000_0000 <= s < 0x8000_0000
    ensures -2 * m <= Shr(s, d) <= 2 * m
  {
    hide Shr, Pow2;
    Fits32(m, d);
    MulDistributes(m, m, Pow2(d));
    ShrWithin(s, d, 2 * m);
  }

  lemma PartsWithin(b: Cx, w: Cx, m: nat, p: nat)
    requires Within(b, m) && Within(w, p)
    ensures -(2 * (m * p)) <= b.re * w.re - b.im * w.im <= 2 * (m * p)
    ensures -(2 * (m * p)) <= b.re * w.im + b.im * w.re <= 2 * (m * p)
  {
    var x: int, y: int, u: int, v: int := b.re, b.im, w.re, w.im;
    SumsWithin(x, y, u, v, m, p);
  }

  lemma SumsWithin(x: int, y: int, u: int, v: int, m: int, p: int)
    requires -m <= x <= m && -m <= y <= m && -p <= u <= p && -p <= v <= p
    ensures -(2 * (m * p)) <= x * u - y * v <= 2 * (m * p)
    ensures -(2 * (m * p)) <= x * v + y * u <= 2 * (m * p)
  {
    ProductWithin(x, u, m, p);
    ProductWithin(y, v, m, p);
    ProductWithin(x, v, m, p);
    ProductWithin(y, u, m, p);
  }

  lemma ProductFacts(b: Cx, w: Cx, d: nat, m: nat)
    requires Within(b, m) && Within(w, Pow2(d)) && d <= 14 && m <= 0x8000
    ensures ProductRe(b, w, d) == Shr(b.re * w.re - b.im * w.im, d) && -2 * m <= ProductRe(b, w, d) <= 2 * m
    ensures ProductIm(b, w, d) == Shr(b.re * w.im + b.im * w.re, d) && -2 * m <= ProductIm(b, w, d) <= 2 * m
  {
    hide Shr, Wrap32, Pow2, Within;
    PartsWithin(b, w, m, Pow2(d));
    PartInRange(b.re * w.re - b.im * w.im, d, m);
    PartInRange(b.re * w.im + b.im * w.re, d, m);
  }

  /** The four stored parts of a butterfly, before they are cut to 16 bits, all fit 16 bits. */
  ghost predicate NoWrap(a: Cx, re: int, im: int) {
    && -0x8000 <= a.re + re < 0x8000 && -0x8000 <= a.re - re < 0x8000
    && -0x8000 <= a.im + im < 0x8000 && -0x8000 <= a.im - im < 0x8000
  }

  ghost predicate ButterflyFits(tw: seq<Short>, k: nat, d: nat, level: nat, j: nat, a: Cx, b: Cx) {
    if level <= 1 || level > k then NoWrap(a, b.re, b.im)
    else
      var w := Entry(tw, j * Pow2(k - level));
      && -0x8000_0000 <= b.re * w.re - b.im * w.im < 0x8000_0000
      && -0x8000_0000 <= b.re * w.im + b.im * w.re < 0x8000_0000
      && NoWrap(a, ProductRe(b, w, d), ProductIm(b, w, d))
  }

  /** No product and no stored sum of the whole transform wraps. */
  ghost predicate NeverWraps(tw: seq<Short>, k: nat, d: nat, level: nat, v: seq<Cx>)
    requires |v| == Pow2(level)
    decreases level
  {
    level > 0 ==>
      var bf, h := FixedButterfly(tw, k, d), Pow2(level - 1);
      var lo, hi := Dit(bf, level - 1, Evens(v)), Dit(bf, level - 1, Odds(v));
      && NeverWraps(tw, k, d, level - 1, Evens(v)) && NeverWraps(tw, k, d, level - 1, Odds(v))
      && forall j :: 0 <= j < h ==> ButterflyFits(tw, k, d, level, j, lo[j], hi[j])
  }

  lemma ButterflyApplied(tw: seq<Short>, k: nat, d: nat, level: nat, j: nat, a: Cx, b: Cx)
    ensures FixedButterfly(tw, k, d)(level, j, a, b)
      == if level <= 1 || level > k then PlainButterfly(a, b)
         else TwiddledButterfly(a, b, Entry(tw, j * Pow2(k - level)), d)
  {
  }

  lemma WrapExact(x: int)
    requires -0x8000 <= x < 0x8000
    ensures Wrap16(x) == x
  {
  }

  /** Adding and subtracting a part that does not make the sums leave 16 bits. */
  lemma PlainInRange(a: Cx, b: Cx, m: nat)
    requires Within(a, m) && Within(b, m) && 2 * m <= 0x7fff
    ensures NoWrap(a, b.re, b.im)
    ensures PlainButterfly(a, b) == (Cx(a.re + b.re, a.im + b.im), Cx(a.re - b.re, a.im - b.im))
    ensures Within(PlainButterfly(a, b).0, 2 * m) && Within(PlainButterfly(a, b).1, 2 * m)
  {
    hide Wrap16;
    WrapExact(a.re + b.re);
    WrapExact(a.im + b.im);
    WrapExact(a.re - b.re);
    WrapExact(a.im - b.im);
  }

  lemma TwiddledInRange(a: Cx, b: Cx, w: Cx, d: nat, m: nat)
    requires Within(a, m) && Within(b, m) && Within(w, Pow2(d)) && d <= 14 && 3 * m <= 0x7fff
    ensures NoWrap(a, ProductRe(b, w, d), ProductIm(b, w, d))
    ensures var re, im := ProductRe(b, w, d), ProductIm(b, w, d);
      TwiddledButterfly(a, b, w, d) == (Cx(a.re + re, a.im + im), Cx(a.re - re, a.im - im))
    ensures Within(TwiddledButterfly(a, b, w, d).0, 3 * m) && Within(TwiddledButterfly(a, b, w, d).1, 3 * m)
  {
    hide Wrap16, ProductRe, ProductIm;
    ProductFacts(b, w, d, m);
    var re, im := ProductRe(b, w, d), ProductIm(b, w, d);
    WrapExact(a.re + re);
    WrapExact(a.im + im);
    WrapExact(a.re - re);
    WrapExact(a.im - im);
  }

  /** A butterfly on values of size m: nothing wraps, and the outputs are at most twice or three
      times as large. */
  lemma ButterflyInRange(tw: seq<Short>, k: nat, d: nat, level: nat, j: nat, a: Cx, b: Cx, m: nat)
    requires TableWithin(tw, d) && d <= 14 && 1 <= level <= k && Within(a, m) && Within(b, m)
    requires (if level == 1 then 2 * m else 3 * m) <= 0x7fff
    ensures ButterflyFits(tw, k, d, level, j, a, b)
    ensures var y := FixedButterfly(tw, k, d)(level, j, a, b); var n := if level == 1 then 2 * m else 3 * m;
      Within(y.0, n) && Within(y.1, n)
  {
    hide ProductRe, ProductIm, Entry, FixedButterfly, PlainButterfly, TwiddledButterfly, NoWrap, Within, Pow2,
      TableWithin;
    ButterflyApplied(tw, k, d, level, j, a, b);
    if level == 1 {
      PlainInRange(a, b, m);
    } else {
      var w := Entry(tw, j * Pow2(k - level));
      EntryWithin(tw, d, j * Pow2(k - level));
      TwiddledInRange(a, b, w, d, m);
      Products32(b, w, d, m);
    }
  }

  lemma Products32(b: Cx, w: Cx, d: nat, m: nat)
    requires Within(b, m) && Within(w, Pow2(d)) && d <= 14 && m <= 0x8000
    ensures -0x8000_0000 <= b.re * w.re - b.im * w.im < 0x8000_0000
    ensures -0x8000_0000 <= b.re * w.im + b.im * w.re < 0x8000_0000
  {
    hide Shr, Wrap32, Pow2, Within;
    PartsWithin(b, w, m, Pow2(d));
    PartInRange(b.re * w.re - b.im * w.im, d, m);
    PartInRange(b.re * w.im + b.im * w.re, d, m);
  }

  lemma {:induction false} GrowthMonotone(a: nat, b: nat, B: nat)
    requires a <= b
    ensures Growth(a, B) <= Growth(b, B)
  {
    if a < b { GrowthMonotone(a, b - 1, B); }
  }

  /** The two outputs of butterfly j of the last stage. */
  lemma LastStage<T>(bf: Butterfly<T>, level: nat, v: seq<T>, j: nat)
    requires level > 0 && |v| == Pow2(level) && j < Pow2(level - 1)
    ensures var h := Pow2(level - 1);
      var y := bf(level, j, Dit(bf, level - 1, Evens(v))[j], Dit(bf, level - 1, Odds(v))[j]);
      Dit(bf, level, v)[j] == y.0 && Dit(bf, level, v)[j + h] == y.1
  {
  }

  lemma HalvesWithin(v: seq<Cx>, B: nat)
    requires AllWithin(v, B)
    ensures AllWithin(Evens(v), B) && AllWithin(Odds(v), B)
  {
  }

  /** The last stage, when the transforms of the halves have size m. */
  lemma LastStageInRange(tw: seq<Short>, k: nat, d: nat, level: nat, v: seq<Cx>, m: nat, i: nat)
    requires TableWithin(tw, d) && d <= 14 && 1 <= level <= k && |v| == Pow2(level) && i < |v|
    requires AllWithin(Dit(FixedButterfly(tw, k, d), level - 1, Evens(v)), m)
    requires AllWithin(Dit(FixedButterfly(tw, k, d), level - 1, Odds(v)), m)
    requires (if level == 1 then 2 * m else 3 * m) <= 0x7fff
    ensures Within(Dit(FixedButterfly(tw, k, d), level, v)[i], if level == 1 then 2 * m else 3 * m)
    ensures i < Pow2(level - 1) ==> ButterflyFits(tw, k, d, level, i,
      Dit(FixedButterfly(tw, k, d), level - 1, Evens(v))[i], Dit(FixedButterfly(tw, k, d), level - 1, Odds(v))[i])
  {
    hide FixedButterfly, ButterflyFits, TableWithin, Within, Dit, Evens, Odds;
    var bf, h := FixedButterfly(tw, k, d), Pow2(level - 1);
    var j := if i < h then i else i - h;
    ButterflyInRange(tw, k, d, level, j, Dit(bf, level - 1, Evens(v))[j], Dit(bf, level - 1, Odds(v))[j], m);
    LastStage(bf, level, v, j);
  }

  /** If the final size fits 16 bits, nothing wraps on the way. */
  lemma {:induction false} TransformInRange(tw: seq<Short>, k: nat, d: nat, level: nat, v: seq<Cx>, B: nat)
    requires TableWithin(tw, d) && d <= 14 && level <= k && |v| == Pow2(level)
    requires AllWithin(v, B) && Growth(level, B) <= 0x7fff
    ensures NeverWraps(tw, k, d, level, v)
    ensures AllWithin(Dit(FixedButterfly(tw, k, d), level, v), Growth(level, B))
    decreases level
  {
    hide FixedButterfly, ButterflyFits, TableWithin, Within, Evens, Odds;
    if level > 0 {
      hide Dit;
      GrowthMonotone(level - 1, level, B);
      HalvesWithin(v, B);
      TransformInRange(tw, k, d, level - 1, Evens(v), B);
      TransformInRange(tw, k, d, level - 1, Odds(v), B);
      var bf, h := FixedButterfly(tw, k, d), Pow2(level - 1);
      var lo, hi := Dit(bf, level - 1, Evens(v)), Dit(bf, level - 1, Odds(v));
      forall j | 0 <= j < h
        ensures ButterflyFits(tw, k, d, level, j, lo[j], hi[j])
      {
        LastStageInRange(tw, k, d, level, v, Growth(level - 1, B), j);
      }
      forall i | 0 <= i < |v| { LastStageInRange(tw, k, d, level, v, Growth(level - 1, B), i); }
    }
  }

  // --------------------------------------------------------------- accuracy

  function Real(c: Cx): FftExact.Complex { FftExact.Complex(c.re as real, c.im as real) }

  function Reals(v: seq<Cx>): (r: seq<FftExact.Complex>)
    ensures |r| == |v|
  {
    seq(|v|, i requires 0 <= i < |v| => Real(v[i]))
  }

  function Over(x: real, d: nat): real { x / (Pow2(d) as real) }

  /** The table entry as the rational number it stands for. */
  function Twiddle(w: Cx, d: nat): FftExact.Complex {
    FftExact.Complex(Over(w.re as real, d), Over(w.im as real, d))
  }

  /** The same butterfly without rounding and without wrapping. */
  function ExactTableButterfly(tw: seq<Short>, k: nat, d: nat): Butterfly<FftExact.Complex> {
    (level: nat, j: nat, a: FftExact.Complex, b: FftExact.Complex) =>
      if level <= 1 || level > k then (FftExact.Add(a, b), FftExact.Sub(a, b))
      else
        var t := FftExact.Mul(b, Twiddle(Entry(tw, j * Pow2(k - level)), d));
        (FftExact.Add(a, t), FftExact.Sub(a, t))
  }

  function Gap(x: real, y: real): real { if x < y then y - x else x - y }

  /** Both parts of the stored sample are within e of the exact one. */
  ghost predicate Near(c: Cx, z: FftExact.Complex, e: nat) {
    Gap(c.re as real, z.re) <= e as real && Gap(c.im as real, z.im) <= e as real
  }

  lemma GapTimes(x: real, y: real, u: real, e: real, p: real)
    requires Gap(x, y) <= e && -p <= u <= p
    ensures -(e * p) <= x * u - y * u <= e * p
  {
    var g, v := Gap(x, y), if u < 0.0 then -u else u;
    assert g * v <= e * v;
    assert e * v <= e * p;
    assert x * u - y * u == (x - y) * u;
    assert (x - y) * u == g * v || (x - y) * u == -(g * v);
  }

  lemma PositiveProduct(a: real, p: real)
    requires a > 0.0 && p > 0.0
    ensures a * p > 0.0
  {
  }

  lemma RealCancel(a: real, b: real, p: real)
    requires p > 0.0 && a * p <= b * p
    ensures a <= b
  {
    if a > b {
      PositiveProduct(a - b, p);
      RealDistributes(a, b, p);
    }
  }

  lemma RealDistributes(a: real, b: real, p: real)
    ensures (a + b) * p == a * p + b * p && (a - b) * p == a * p - b * p
  {
  }

  lemma RealAssociative(x: real, a: real, p: real)
    ensures (x * a) * p == x * (a * p)
  {
  }

  lemma OverTimes(x: real, d: nat)
    ensures Over(x, d) * (Pow2(d) as real) == x
  {
  }

  /** Rounding down after a product of a sample that is off by e: off by at most 2 * e + 1. */
  lemma RoundedQuotient(s: int, t: real, d: nat, e: nat)
    requires Gap(s as real, t) <= 2.0 * (e as real) * (Pow2(d) as real)
    ensures Gap(Shr(s, d) as real, Over(t, d)) <= (2 * e + 1) as real
  {
    hide Shr, Pow2, Over;
    ShrBounds(s, d);
    OverTimes(t, d);
    ProductAsReal(Shr(s, d), Pow2(d));
    QuotientGap(s as real, t, Shr(s, d) as real, Over(t, d), 2.0 * (e as real), Pow2(d) as real);
  }

  lemma ProductAsReal(a: int, b: int)
    ensures (a * b) as real == (a as real) * (b as real)
  {
  }

  /** The same on products: w is y, and v is q, times p. */
  lemma ScaledGap(s: real, t: real, v: real, w: real, f: real, p: real)
    requires w == t && v <= s <= v + p && Gap(s, t) <= f && p > 0.0
    ensures v - w <= f + p && w - v <= f + p
  {
  }

  function Times(x: real, p: real): real { x * p }

  lemma DifferenceCancel(x: real, y: real, f: real, p: real)
    requires p > 0.0 && Times(x, p) - Times(y, p) <= Times(f, p)
    ensures x - y <= f
  {
    RealDistributes(x, y, p);
    RealCancel(x - y, f, p);
  }

  lemma OneMore(e: real, p: real)
    ensures Times(e + 1.0, p) == Times(e, p) + p
  {
  }

  lemma QuotientGap(s: real, t: real, q: real, y: real, e: real, p: real)
    requires p > 0.0 && Times(y, p) == t && Times(q, p) <= s <= Times(q, p) + p && Gap(s, t) <= Times(e, p)
    ensures Gap(q, y) <= e + 1.0
  {
    hide Times;
    ScaledGap(s, t, Times(q, p), Times(y, p), Times(e, p), p);
    OneMore(e, p);
    DifferenceCancel(q, y, e + 1.0, p);
    DifferenceCancel(y, q, e + 1.0, p);
  }

  /** One part of a product: the stored factors and the exact ones. */
  lemma PartNear(x: int, y: int, u: int, v: int, p: int, X: real, Y: real, e: nat, s: int, t: real)
    requires -p <= u <= p && -p <= v <= p && Gap(x as real, X) <= e as real && Gap(y as real, Y) <= e as real
    requires s == x * u + y * v && t == X * (u as real) + Y * (v as real)
    ensures Gap(s as real, t) <= 2.0 * (e as real) * (p as real)
  {
    GapTimes(x as real, X, u as real, e as real, p as real);
    GapTimes(y as real, Y, v as real, e as real, p as real);
    assert s as real == (x as real) * (u as real) + (y as real) * (v as real) by { ProductsAsReal(x, u, y, v); }
  }

  lemma ProductsAsReal(x: int, u: int, y: int, v: int)
    ensures (x * u + y * v) as real == (x as real) * (u as real) + (y as real) * (v as real)
  {
    assert (x * u) as real == (x as real) * (u as real);
    assert (y * v) as real == (y as real) * (v as real);
  }

  lemma DifferenceNear(x: int, y: int, u: int, v: int, p: int, X: real, Y: real, e: nat, s: int, t: real)
    requires -p <= u <= p && -p <= v <= p && Gap(x as real, X) <= e as real && Gap(y as real, Y) <= e as real
    requires s == x * u - y * v && t == X * (u as real) - Y * (v as real)
    ensures Gap(s as real, t) <= 2.0 * (e as real) * (p as real)
  {
    var n := -v;
    assert n as real == -(v as real);
    assert y * n == -(y * v);
    assert Y * (n as real) == -(Y * (v as real));
    PartNear(x, y, u, n, p, X, Y, e, s, t);
  }

  function CrossRe(x: real, y: real, u: real, v: real): real { x * u - y * v }

  function CrossIm(x: real, y: real, u: real, v: real): real { x * v + y * u }

  lemma RoundedProduct(x: int, y: int, u: int, v: int, X: real, Y: real, d: nat, e: nat)
    requires 0 - Pow2(d) <= u <= Pow2(d) && 0 - Pow2(d) <= v <= Pow2(d)
    requires Gap(x as real, X) <= e as real && Gap(y as real, Y) <= e as real
    ensures Gap(Shr(x * u - y * v, d) as real, Over(CrossRe(X, Y, u as real, v as real), d)) <= (2 * e + 1) as real
    ensures Gap(Shr(x * v + y * u, d) as real, Over(CrossIm(X, Y, u as real, v as real), d)) <= (2 * e + 1) as real
  {
    hide Shr, Pow2, Gap, Over;
    var s, t := x * u - y * v, CrossRe(X, Y, u as real, v as real);
    DifferenceNear(x, y, u, v, Pow2(d), X, Y, e, s, t);
    RoundedQuotient(s, t, d, e);
    var s', t' := x * v + y * u, CrossIm(X, Y, u as real, v as real);
    PartNear(x, y, v, u, Pow2(d), X, Y, e, s', t');
    RoundedQuotient(s', t', d, e);
  }

  /** A product with a table entry, divided once at the end. */
  lemma MulTwiddle(z: FftExact.Complex, w: Cx, d: nat)
    ensures FftExact.Mul(z, Twiddle(w, d)).re == Over(CrossRe(z.re, z.im, w.re as real, w.im as real), d)
    ensures FftExact.Mul(z, Twiddle(w, d)).im == Over(CrossIm(z.re, z.im, w.re as real, w.im as real), d)
  {
    var u, v := w.re as real, w.im as real;
    OverParts(z.re, z.im, u, v, d, CrossRe(z.re, z.im, u, v), CrossIm(z.re, z.im, u, v));
  }

  lemma OverParts(x: real, y: real, u: real, v: real, d: nat, s: real, t: real)
    requires s == x * u - y * v && t == x * v + y * u
    ensures x * Over(u, d) - y * Over(v, d) == Over(s, d)
    ensures x * Over(v, d) + y * Over(u, d) == Over(t, d)
  {
    hide Over, Pow2;
    var p, a, b := Pow2(d) as real, Over(u, d), Over(v, d);
    OverTimes(u, d);
    OverTimes(v, d);
    OverTimes(s, d);
    OverTimes(t, d);
    RealAssociative(x, a, p);
    RealAssociative(y, b, p);
    RealAssociative(x, b, p);
    RealAssociative(y, a, p);
    RealDistributes(x * a, y * b, p);
    RealDistributes(x * b, y * a, p);
    RealSame(x * a - y * b, Over(s, d), p);
    RealSame(x * b + y * a, Over(t, d), p);
  }

  lemma RealSame(a: real, b: real, p: real)
    requires p > 0.0 && a * p == b * p
    ensures a == b
  {
    RealCancel(a, b, p);
    RealCancel(b, a, p);
  }

  /** The rounded product of a sample that is off by e. */
  lemma ProductNear(b: Cx, w: Cx, z: FftExact.Complex, d: nat, m: nat, e: nat)
    requires Within(b, m) && Within(w, Pow2(d)) && d <= 14 && m <= 0x8000 && Near(b, z, e)
    ensures var t := FftExact.Mul(z, Twiddle(w, d));
      && Gap(ProductRe(b, w, d) as real, t.re) <= (2 * e + 1) as real
      && Gap(ProductIm(b, w, d) as real, t.im) <= (2 * e + 1) as real
  {
    hide Shr, ProductRe, ProductIm, Pow2, Gap, Over, CrossRe, CrossIm, FftExact.Mul, Twiddle;
    ProductFacts(b, w, d, m);
    RoundedProduct(b.re, b.im, w.re, w.im, z.re, z.im, d, e);
    MulTwiddle(z, w, d);
  }

  /** One butterfly with a twiddle: an error of e grows to at most 3 * e + 1. */
  lemma TwiddledNear(a: Cx, b: Cx, w: Cx, y: FftExact.Complex, z: FftExact.Complex, d: nat, m: nat, e: nat)
    requires Within(a, m) && Within(b, m) && Within(w, Pow2(d)) && d <= 14 && 3 * m <= 0x7fff
    requires Near(a, y, e) && Near(b, z, e)
    ensures var r, t := TwiddledButterfly(a, b, w, d), FftExact.Mul(z, Twiddle(w, d));
      Near(r.0, FftExact.Add(y, t), 3 * e + 1) && Near(r.1, FftExact.Sub(y, t), 3 * e + 1)
  {
    hide Shr, ProductRe, ProductIm, Pow2, FftExact.Mul, Twiddle, TwiddledButterfly;
    TwiddledInRange(a, b, w, d, m);
    ProductNear(b, w, z, d, m, e);
  }

  /** The first level adds exact inputs exactly. */
  lemma PlainNear(a: Cx, b: Cx, y: FftExact.Complex, z: FftExact.Complex, m: nat)
    requires Within(a, m) && Within(b, m) && 2 * m <= 0x7fff && Near(a, y, 0) && Near(b, z, 0)
    ensures var r := PlainButterfly(a, b);
      Near(r.0, FftExact.Add(y, z), 0) && Near(r.1, FftExact.Sub(y, z), 0)
  {
    hide PlainButterfly;
    PlainInRange(a, b, m);
  }

  lemma ExactApplied(tw: seq<Short>, k: nat, d: nat, level: nat, j: nat, y: FftExact.Complex, z: FftExact.Complex)
    ensures ExactTableButterfly(tw, k, d)(level, j, y, z)
      == if level <= 1 || level > k then (FftExact.Add(y, z), FftExact.Sub(y, z))
         else
           var t := FftExact.Mul(z, Twiddle(Entry(tw, j * Pow2(k - level)), d));
           (FftExact.Add(y, t), FftExact.Sub(y, t))
  {
  }

  lemma ButterflyNear(tw: seq<Short>, k: nat, d: nat, level: nat, j: nat, a: Cx, b: Cx,
                      y: FftExact.Complex, z: FftExact.Complex, m: nat)
    requires TableWithin(tw, d) && d <= 14 && 1 <= level <= k && Within(a, m) && Within(b, m)
    requires (if level == 1 then 2 * m else 3 * m) <= 0x7fff
    requires Near(a, y, Drift(level - 1)) && Near(b, z, Drift(level - 1))
    ensures var r, q := FixedButterfly(tw, k, d)(level, j, a, b), ExactTableButterfly(tw, k, d)(level, j, y, z);
      Near(r.0, q.0, Drift(level)) && Near(r.1, q.1, Drift(level))
  {
    hide FixedButterfly, ExactTableButterfly, Entry, Near, Within, TableWithin, Pow2, PlainButterfly, TwiddledButterfly,
      FftExact.Add, FftExact.Sub, FftExact.Mul, Twiddle;
    ButterflyApplied(tw, k, d, level, j, a, b);
    ExactApplied(tw, k, d, level, j, y, z);
    if level == 1 {
      PlainNear(a, b, y, z, m);
    } else {
      var w := Entry(tw, j * Pow2(k - level));
      EntryWithin(tw, d, j * Pow2(k - level));
      TwiddledNear(a, b, w, y, z, d, m, Drift(level - 1));
    }
  }

  lemma HalvesOfReals(v: seq<Cx>)
    ensures Evens(Reals(v)) == Reals(Evens(v)) && Odds(Reals(v)) == Reals(Odds(v))
  {
  }

  /** The transform of 16-bit samples stays within the drift of its level of the transform
      without rounding. */
  lemma {:induction false} TransformNear(tw: seq<Short>, k: nat, d: nat, level: nat, v: seq<Cx>, B: nat, i: nat)
    requires TableWithin(tw, d) && d <= 14 && level <= k && |v| == Pow2(level) && i < |v|
    requires AllWithin(v, B) && Growth(level, B) <= 0x7fff
    ensures Near(Dit(FixedButterfly(tw, k, d), level, v)[i],
                 Dit(ExactTableButterfly(tw, k, d), level, Reals(v))[i], Drift(level))
    decreases level
  {
    if level == 0 {
      NothingLost(tw, k, d, v, i);
    } else {
      hide FixedButterfly, ExactTableButterfly, TableWithin, AllWithin, Within, Near, Drift, Dit, Evens, Odds, Reals;
      var h := Pow2(level - 1);
      var j := if i < h then i else i - h;
      GrowthMonotone(level - 1, level, B);
      HalvesWithin(v, B);
      TransformInRange(tw, k, d, level - 1, Evens(v), B);
      TransformInRange(tw, k, d, level - 1, Odds(v), B);
      TransformNear(tw, k, d, level - 1, Evens(v), B, j);
      TransformNear(tw, k, d, level - 1, Odds(v), B, j);
      LastStageNear(tw, k, d, level, v, Growth(level - 1, B), i);
    }
  }

  lemma NothingLost(tw: seq<Short>, k: nat, d: nat, v: seq<Cx>, i: nat)
    requires |v| == 1 && i == 0
    ensures Near(Dit(FixedButterfly(tw, k, d), 0, v)[i], Dit(ExactTableButterfly(tw, k, d), 0, Reals(v))[i], 0)
  {
  }

  lemma LastStageNear(tw: seq<Short>, k: nat, d: nat, level: nat, v: seq<Cx>, m: nat, i: nat)
    requires TableWithin(tw, d) && d <= 14 && 1 <= level <= k && |v| == Pow2(level) && i < |v|
    requires AllWithin(Dit(FixedButterfly(tw, k, d), level - 1, Evens(v)), m)
    requires AllWithin(Dit(FixedButterfly(tw, k, d), level - 1, Odds(v)), m)
    requires (if level == 1 then 2 * m else 3 * m) <= 0x7fff
    requires var h := Pow2(level - 1); var j := if i < h then i else i - h;
      var bf, ef := FixedButterfly(tw, k, d), ExactTableButterfly(tw, k, d);
      && Near(Dit(bf, level - 1, Evens(v))[j], Dit(ef, level - 1, Reals(Evens(v)))[j], Drift(level - 1))
      && Near(Dit(bf, level - 1, Odds(v))[j], Dit(ef, level - 1, Reals(Odds(v)))[j], Drift(level - 1))
    ensures Near(Dit(FixedButterfly(tw, k, d), level, v)[i],
                 Dit(ExactTableButterfly(tw, k, d), level, Reals(v))[i], Drift(level))
  {
    hide FixedButterfly, ExactTableButterfly, TableWithin, Within, Near, Drift, Dit, Evens, Odds, Reals;
    var h := Pow2(level - 1);
    var j := if i < h then i else i - h;
    HalvesOfReals(v);
    var bf, ef := FixedButterfly(tw, k, d), ExactTableButterfly(tw, k, d);
    ButterflyNear(tw, k, d, level, j, Dit(bf, level - 1, Evens(v))[j], Dit(bf, level - 1, Odds(v))[j],
                  Dit(ef, level - 1, Evens(Reals(v)))[j], Dit(ef, level - 1, Odds(Reals(v)))[j], m);
    LastStage(bf, level, v, j);
    LastStage(ef, level, Reals(v), j);
  }

  /** The whole transform, for a table with d fractional bits and inputs of size B with
      2 * 3^(k-1) * B at most 32767: nothing wraps, and each part of each output is within
      (3^(k-1) - 1) / 2 of the transform without rounding. */
  lemma FixedPointAccuracy(tw: seq<Short>, k: nat, d: nat, v: seq<Cx>, B: nat)
    requires k >= 1 && |v| == Pow2(k) && TableWithin(tw, d) && d <= 14
    requires AllWithin(v, B) && 2 * Power(3, k - 1) * B <= 32767
    ensures NeverWraps(tw, k, d, k, v)
    ensures var r, t := Dit(FixedButterfly(tw, k, d), k, v), Dit(ExactTableButterfly(tw, k, d), k, Reals(v));
      && AllWithin(r, 2 * Power(3, k - 1) * B)
      && forall i :: 0 <= i < |v| ==> Near(r[i], t[i], (Power(3, k - 1) - 1) / 2)
  {
    hide FixedButterfly, ExactTableButterfly, TableWithin, Within, Near, Dit, Power, Growth, Drift, NeverWraps;
    GrowthClosedForm(k, B);
    DriftClosedForm(k);
    TransformInRange(tw, k, d, k, v, B);
    forall i | 0 <= i < |v| { TransformNear(tw, k, d, k, v, B, i); }
  }
}
