/// Logarithms and digit reversal (fft.h), for radix 2 and radix 4.

module DigitReversal {
  import opened Arithmetic
  import opened FftSpec

  /** The lowest digit of n in base b. */
  function Digit(n: nat, b: nat): (t: nat)
    requires b >= 2
    ensures t < b
  {
    n % b
  }

  function Rest(n: nat, b: nat): nat
    requires b >= 2
  {
    n / b
  }

  /** The d low digits of n in base b, in the opposite order: the lowest gets the greatest weight. */
  function Reversal(n: nat, d: nat, b: nat): nat
    requires b >= 2
    decreases d
  {
    if d == 0 then 0 else Digit(n, b) * Power(b, d - 1) + Reversal(Rest(n, b), d - 1, b)
  }

  lemma {:induction false} ReversalBound(n: nat, d: nat, b: nat)
    requires b >= 2
    ensures Reversal(n, d, b) < Power(b, d)
    decreases d
  {
    hide Digit, Rest;
    if d > 0 {
      ReversalBound(Rest(n, b), d - 1, b);
      MulMonotone(Digit(n, b), b - 1, Power(b, d - 1));
      MulDistributes(b, 1, Power(b, d - 1));
    }
  }

  lemma Unfold(n: nat, d: nat, b: nat)
    requires b >= 2
    ensures Power(b, d + 1) == b * Power(b, d)
    ensures Reversal(n, d + 1, b) == Digit(n, b) * Power(b, d) + Reversal(Rest(n, b), d, b)
  {
  }

  lemma SplitLow(q: nat, t: nat, p: nat, b: nat)
    requires b >= 2 && q < b * p
    ensures Digit(q + t * (b * p), b) == Digit(q, b)
    ensures Rest(q + t * (b * p), b) == Rest(q, b) + t * p && Rest(q, b) < p
  {
    var q', r := q / b, q % b;
    assert t * (b * p) == t * p * b;
    MulDistributes(q', t * p, b);
    DivModUnique(q + t * (b * p), b, q' + t * p, r);
    if q' >= p { MulMonotone(p, q', b); }
  }

  /** Putting a digit t on top of q puts it at the bottom of the reversal. */
  lemma {:induction false} ReversalTop(q: nat, t: nat, d: nat, b: nat)
    requires b >= 2 && t < b && q < Power(b, d)
    ensures Reversal(q + t * Power(b, d), d + 1, b) == Reversal(q, d, b) * b + t
    decreases d
  {
    if d == 0 {
      assert q == 0;
      DivModUnique(t, b, 0, t);
    } else {
      hide Reversal, Power, Digit, Rest;
      var p := Power(b, d - 1);
      Unfold(q, d - 1, b);
      var n := q + t * (b * p);
      Unfold(n, d, b);
      SplitLow(q, t, p, b);
      ReversalTop(Rest(q, b), t, d - 1, b);
      RegroupTop(Digit(q, b), p, Reversal(Rest(q, b), d - 1, b), b, t);
    }
  }

  lemma RegroupTop(r: nat, p: nat, w: nat, b: nat, t: nat)
    ensures r * (b * p) + (w * b + t) == (r * p + w) * b + t
  {
    MulDistributes(r * p, w, b);
    assert r * (b * p) == r * p * b;
  }

  lemma Recompose(n: nat, b: nat)
    requires b >= 2
    ensures Rest(n, b) * b + Digit(n, b) == n
  {
  }

  /** Digit reversal is its own inverse. */
  lemma {:induction false} ReversalInvolution(n: nat, d: nat, b: nat)
    requires b >= 2 && n < Power(b, d)
    ensures Reversal(Reversal(n, d, b), d, b) == n
    decreases d
  {
    if d > 0 {
      hide Reversal, Power, Digit, Rest;
      var m := Rest(n, b);
      var q, t := Reversal(m, d - 1, b), Digit(n, b);
      Unfold(n, d - 1, b);
      SplitLow(n, 0, Power(b, d - 1), b);
      ReversalBound(m, d - 1, b);
      ReversalInvolution(m, d - 1, b);
      ReversalTop(q, t, d - 1, b);
      Recompose(n, b);
      assert Reversal(n, d, b) == q + t * Power(b, d - 1);
    } else {
      assert n == 0;
    }
  }

  /** Digit i of a number, counted from the lowest. */
  function DigitAt(n: nat, i: nat, b: nat): nat
    requires b >= 2
    decreases i
  {
    if i == 0 then Digit(n, b) else DigitAt(Rest(n, b), i - 1, b)
  }

  /** It is the quotient by b^i modulo b. */
  lemma {:induction false} DigitAtIs(n: nat, i: nat, b: nat)
    requires b >= 2
    ensures DigitAt(n, i, b) == n / Power(b, i) % b
    decreases i
  {
    hide Power;
    PowerUnfold(b, i);
    if i > 0 {
      DigitAtIs(Rest(n, b), i - 1, b);
      QuotientTwice(n, b, Power(b, i - 1));
    }
  }

  lemma PowerUnfold(b: nat, i: nat)
    requires b >= 2
    ensures Power(b, 0) == 1 && (i > 0 ==> Power(b, i) == b * Power(b, i - 1))
  {
  }

  /** A multiple of b^d on top does not touch the d low digits. */
  lemma {:induction false} LowDigits(q: nat, t: nat, d: nat, i: nat, b: nat)
    requires b >= 2 && q < Power(b, d) && i < d
    ensures DigitAt(q + t * Power(b, d), i, b) == DigitAt(q, i, b)
    decreases d
  {
    hide Power, Digit, Rest;
    PowerUnfold(b, d);
    SplitLow(q, t, Power(b, d - 1), b);
    if i > 0 { LowDigits(Rest(q, b), t, d - 1, i - 1, b); }
  }

  lemma {:induction false} TopDigit(q: nat, t: nat, d: nat, b: nat)
    requires b >= 2 && q < Power(b, d) && t < b
    ensures DigitAt(q + t * Power(b, d), d, b) == t
    decreases d
  {
    PowerUnfold(b, d);
    if d == 0 {
      assert q == 0;
      DivModUnique(t, b, 0, t);
    } else {
      hide Power, Digit, Rest;
      SplitLow(q, t, Power(b, d - 1), b);
      TopDigit(Rest(q, b), t, d - 1, b);
    }
  }

  /** The reversal has the d low digits in the opposite order. */
  lemma {:induction false} ReversalDigits(n: nat, d: nat, i: nat, b: nat)
    requires b >= 2 && i < d
    ensures DigitAt(Reversal(n, d, b), i, b) == DigitAt(n, d - 1 - i, b)
    decreases d
  {
    hide Power, Digit, Rest;
    Unfold(n, d - 1, b);
    var q := Reversal(Rest(n, b), d - 1, b);
    ReversalBound(Rest(n, b), d - 1, b);
    if i < d - 1 {
      LowDigits(q, Digit(n, b), d - 1, i, b);
      ReversalDigits(Rest(n, b), d - 1, i, b);
    } else {
      TopDigit(q, Digit(n, b), d - 1, b);
    }
  }

  ghost predicate IsPermutation(s: seq<int>) {
    && (forall i :: 0 <= i < |s| ==> 0 <= s[i] < |s|)
    && (forall i, j :: 0 <= i < j < |s| ==> s[i] != s[j])
    && (forall v :: 0 <= v < |s| ==> v in s)
  }

  /** The reversals of 0 .. b^d - 1 are a permutation of 0 .. b^d - 1. */
  lemma ReversalsPermute(s: seq<int>, d: nat, b: nat)
    requires b >= 2 && |s| == Power(b, d) && forall i :: 0 <= i < |s| ==> s[i] == Reversal(i, d, b)
    ensures IsPermutation(s)
  {
    forall i | 0 <= i < |s|
      ensures s[i] < |s| && Reversal(s[i], d, b) == i && s[s[i]] == i
    {
      ReversalBound(i, d, b);
      ReversalInvolution(i, d, b);
    }
    forall v | 0 <= v < |s|
      ensures v in s
    {
      assert s[s[v]] == v;
    }
  }

  // ------------------------------------------------------------- the code

  /** The greatest exponent whose power does not exceed N; 0 for N == 0 and for other bases. */
  method LogFloor(N0: nat, base: nat) returns (logVal: nat)
    requires N0 < 0x1_0000
    ensures (base == 2 || base == 4) && N0 > 0 ==> Power(base, logVal) <= N0 < Power(base, logVal + 1)
    ensures (base != 2 && base != 4) || N0 == 0 ==> logVal == 0
  {
    logVal := 0;
    var N := N0;
    if N == 0 {
      return;
    }
    if base == 2 || base == 4 {
      ghost var p := 1;
      while N >= base
        invariant N > 0 && p == Power(base, logVal)
        invariant N * p <= N0 < (N + 1) * p
      {
        assert N == N / base * base + N % base;
        QuotientScale(N, base, p);
        p := base * p;
        N := N / base;
        logVal := logVal + 1;
      }
      MulMonotone(1, N, p);
      MulMonotone(N + 1, base, p);
    }
  }

  lemma QuotientScale(n: nat, b: nat, p: nat)
    requires b > 0
    ensures n / b * (b * p) <= n * p && (n + 1) * p <= (n / b + 1) * (b * p)
  {
    var q := n / b;
    assert q * b <= n < (q + 1) * b;
    MulMonotone(q * b, n, p);
    MulMonotone(n + 1, (q + 1) * b, p);
    assert q * b * p == q * (b * p) && (q + 1) * b * p == (q + 1) * (b * p);
  }

  /** The accumulator form of `Reversal'. */
  lemma {:induction false} ReversalStep(n: nat, d: nat, b: nat, acc: nat)
    requires b >= 2 && d > 0
    ensures acc * Power(b, d) + Reversal(n, d, b)
         == (acc * b + Digit(n, b)) * Power(b, d - 1) + Reversal(Rest(n, b), d - 1, b)
  {
    hide Digit, Rest;
    MulDistributes(acc * b, Digit(n, b), Power(b, d - 1));
    assert acc * (b * Power(b, d - 1)) == acc * b * Power(b, d - 1);
  }

  /** One iteration: while the number of digits fits 16 bits, the shift drops nothing. */
  lemma ReversalIteration(n0: nat, numBits: nat, base: nat, n: nat, left: nat, result: nat)
    requires base >= 2 && left > 0 && Power(base, numBits) <= 0x1_0000
    requires result * Power(base, left) + Reversal(n, left, base) == Reversal(n0, numBits, base)
    ensures result * base % 0x1_0000 == result * base
    ensures (result * base + Digit(n, base)) * Power(base, left - 1) + Reversal(Rest(n, base), left - 1, base)
         == Reversal(n0, numBits, base)
  {
    hide Reversal, Power, Digit, Rest;
    ReversalBound(n0, numBits, base);
    ReversalStep(n, left, base, result);
    var r := result * base + Digit(n, base);
    MulMonotone(1, Power(base, left - 1), r);
    assert Power(base, left - 1) * r == r * Power(base, left - 1);
    assert r < 0x1_0000;
  }

  /** Shifts the digits of n out and into a 16-bit result; exact if numBits digits fit 16 bits. */
  method BitReversal(n0: nat, numBits: nat, base: nat) returns (result: nat)
    requires base == 2 || base == 4
    ensures Power(base, numBits) <= 0x1_0000 ==> result == Reversal(n0, numBits, base)
  {
    hide Reversal, Power, Digit, Rest;
    ghost var fits := Power(base, numBits) <= 0x1_0000;
    result := 0;
    var n: nat := n0;
    var i := 0;
    while i < numBits
      invariant 0 <= i <= numBits
      invariant fits ==>
        result * Power(base, numBits - i) + Reversal(n, numBits - i, base) == Reversal(n0, numBits, base)
    {
      if fits {
        ReversalIteration(n0, numBits, base, n, numBits - i, result);
      }
      result := result * base % 0x1_0000 + Digit(n, base);
      n := Rest(n, base);
      i := i + 1;
    }
    NoDigits(n, base);
  }

  lemma NoDigits(n: nat, b: nat)
    requires b >= 2
    ensures Power(b, 0) == 1 && Reversal(n, 0, b) == 0
  {
  }

  /** Fills seq with the reversals of 0 .. N - 1, as 16-bit numbers.  The transform reads them with
      a sign, so they are themselves up to 2^15. */
  method BitReversedSeq(a: array<Short>, N: nat, numBits: nat, base: nat)
    requires base == 2 || base == 4
    requires N <= a.Length && Power(base, numBits) <= 0x1_0000
    modifies a
    ensures forall i :: 0 <= i < N ==> a[i] == Wrap16(Reversal(i, numBits, base))
    ensures Power(base, numBits) <= 0x8000 ==> forall i :: 0 <= i < N ==> a[i] == Reversal(i, numBits, base)
    ensures forall i :: N <= i < a.Length ==> a[i] == old(a[i])
    ensures N == Power(base, numBits) <= 0x8000 ==> IsPermutation(a[..N])
  {
    hide Reversal, Power;
    var i := 0;
    while i < N
      invariant 0 <= i <= N
      invariant forall j :: 0 <= j < i ==> a[j] == Wrap16(Reversal(j, numBits, base))
      invariant Power(base, numBits) <= 0x8000 ==> forall j :: 0 <= j < i ==> a[j] == Reversal(j, numBits, base)
      invariant forall j :: i <= j < a.Length ==> a[j] == old(a[j])
    {
      var result := BitReversal(i, numBits, base);
      ReversalBound(i, numBits, base);
      a[i] := Wrap16(result);
      i := i + 1;
    }
    if N == Power(base, numBits) <= 0x8000 {
      ReversalsPermute(a[..N], numBits, base);
    }
  }

  // ------------------------------------------------------------ applied to a seq

  lemma {:induction false} PowerOfTwo(k: nat)
    ensures Power(2, k) == Pow2(k)
  {
    if k > 0 { PowerOfTwo(k - 1); }
  }

  lemma ReorderedHalves<T>(k: nat, v: seq<T>, i: nat, r: nat)
    requires k > 0 && |v| == Pow2(k) && i < |v| && r < Pow2(k - 1)
    ensures i < Pow2(k - 1) ==> Reordered(k, v)[i] == Reordered(k - 1, Evens(v))[i] && Evens(v)[r] == v[2 * r]
    ensures i >= Pow2(k - 1) ==>
      Reordered(k, v)[i] == Reordered(k - 1, Odds(v))[i - Pow2(k - 1)] && Odds(v)[r] == v[2 * r + 1]
  {
  }

  /** The even/odd reordering of an FFT is bit reversal of the sample positions. */
  lemma {:induction false} ReorderedIsReversal<T>(k: nat, v: seq<T>, i: nat)
    requires |v| == Pow2(k) && i < |v|
    ensures Reversal(i, k, 2) < |v| && Reordered(k, v)[i] == v[Reversal(i, k, 2)]
    decreases k
  {
    hide Reversal, Power, Evens, Odds;
    PowerOfTwo(k);
    ReversalBound(i, k, 2);
    if k == 0 {
      assert Reversal(i, 0, 2) == 0 by { NoDigits(i, 2); }
    } else {
      PowerOfTwo(k - 1);
      var h := Pow2(k - 1);
      if i < h {
        ReversalTop(i, 0, k - 1, 2);
        ReversalBound(i, k - 1, 2);
        ReorderedIsReversal(k - 1, Evens(v), i);
        ReorderedHalves(k, v, i, Reversal(i, k - 1, 2));
      } else {
        ReversalTop(i - h, 1, k - 1, 2);
        ReversalBound(i - h, k - 1, 2);
        ReorderedIsReversal(k - 1, Odds(v), i - h);
        ReorderedHalves(k, v, i, Reversal(i - h, k - 1, 2));
      }
    }
  }
}
