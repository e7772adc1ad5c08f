/// The 16-bit CRC of CoreMark (core_util.c).
///
/// `crcu8` shifts one byte through the register bit by bit; the wider versions
/// feed their bytes low byte first.  The theory is stated on bit sequences: a
/// register is its 16 bits, least significant first, and so is a message.  The
/// methods at the end work on machine words and are proved against `Feed`.

module Crc {

  type Bits = seq<bool>

  type Register = r: Bits | |r| == 16 witness seq(16, _ => false)

  function Xor(x: Bits, y: Bits): (z: Bits)
    requires |x| == |y|
    ensures |z| == |x|
  {
    seq(|x|, i requires 0 <= i < |x| => x[i] != y[i])
  }

  function Zeros(n: nat): (z: Bits)
    ensures |z| == n
  {
    seq(n, _ => false)
  }

  /** The bits of 0xA001: G without its leading term, highest power first. */
  function Taps(): (r: Register)
  {
    [true] + Zeros(12) + [true, false, true]
  }

  function When(f: bool, x: Bits): (z: Bits)
    ensures |z| == |x|
  {
    if f then x else Zeros(|x|)
  }

  /** One message bit: the feedback is the message bit plus the bit shifted out. */
  function Step(r: Register, b: bool): Register {
    Xor(r[1..] + [false], When(r[0] != b, Taps()))
  }

  function Feed(bits: Bits, r: Register): Register {
    if bits == [] then r else Feed(bits[1..], Step(r, bits[0]))
  }

  // ------------------------------------------------- linearity and bijection

  lemma StepLinear(p: Register, q: Register, a: bool, b: bool)
    ensures Step(Xor(p, q), a != b) == Xor(Step(p, a), Step(q, b))
  {
  }

  /** Feeding is linear over GF(2) in the stream and the register together. */
  lemma {:induction false} FeedLinear(x: Bits, y: Bits, p: Register, q: Register)
    requires |x| == |y|
    ensures Feed(Xor(x, y), Xor(p, q)) == Xor(Feed(x, p), Feed(y, q))
  {
    if x != [] {
      assert Xor(x, y)[1..] == Xor(x[1..], y[1..]);
      StepLinear(p, q, x[0], y[0]);
      FeedLinear(x[1..], y[1..], Step(p, x[0]), Step(q, y[0]));
    }
  }

  /** Undoes `Step`: the last bit of the register tells whether the taps were added. */
  function Unstep(r: Register, b: bool): Register {
    [r[15] != b] + Xor(r, When(r[15], Taps()))[..15]
  }

  function Unfeed(bits: Bits, r: Register): Register {
    if bits == [] then r else Unstep(Unfeed(bits[1..], r), bits[0])
  }

  lemma UnstepStep(r: Register, b: bool)
    ensures Unstep(Step(r, b), b) == r
    ensures Step(Unstep(r, b), b) == r
  {
  }

  /** For a fixed stream the register update is a bijection, with inverse `Unfeed`. */
  lemma {:induction false} FeedBijective(bits: Bits, r: Register)
    ensures Unfeed(bits, Feed(bits, r)) == r
    ensures Feed(bits, Unfeed(bits, r)) == r
  {
    if bits != [] {
      FeedBijective(bits[1..], Step(r, bits[0]));
      UnstepStep(r, bits[0]);
      FeedBijective(bits[1..], r);
      UnstepStep(Unfeed(bits[1..], r), bits[0]);
    }
  }

  lemma {:induction false} FeedConcat(x: Bits, y: Bits, r: Register)
    ensures Feed(x + y, r) == Feed(y, Feed(x, r))
  {
    if x == [] {
      assert x + y == y;
    } else {
      assert (x + y)[1..] == x[1..] + y;
      FeedConcat(x[1..], y, Step(r, x[0]));
    }
  }

  // -------------------------------------------- division by the polynomial

  /** The coefficients of G = x^16 + x^15 + x^2 + 1, highest power first. */
  function Generator(): Bits {
    [true] + Taps()
  }

  /** Its powers are 16, 15, 2 and 0. */
  lemma GeneratorIs(i: nat)
    requires i <= 16
    ensures Generator()[16 - i] <==> i == 16 || i == 15 || i == 2 || i == 0
  {
  }

  /** The product of the polynomial q (highest power first) and G. */
  function TimesG(q: Bits): (p: Bits)
    ensures |p| == |q| + 16
  {
    if q == [] then Zeros(16)
    else
      var n := |q| - 1;
      Xor(TimesG(q[..n]) + [false], Zeros(n) + When(q[n], Generator()))
  }

  /** The feedback bits that `Feed` computes on its way. */
  function Feedback(bits: Bits, r: Register): (q: Bits)
    ensures |q| == |bits|
    decreases |bits|
  {
    if bits == [] then []
    else
      var n := |bits| - 1;
      Feedback(bits[..n], r) + [Feed(bits[..n], r)[0] != bits[n]]
  }

  lemma FeedLast(bits: Bits, r: Register)
    requires bits != []
    ensures Feed(bits, r) == Step(Feed(bits[..|bits| - 1], r), bits[|bits| - 1])
  {
    var n := |bits| - 1;
    assert bits[..n] + [bits[n]] == bits;
    FeedConcat(bits[..n], [bits[n]], r);
    var m := Feed(bits[..n], r);
    assert [bits[n]][1..] == [];
    assert Feed([bits[n]], m) == Step(m, bits[n]);
  }

  /** The dividend: the message, the initial register added onto its first 16 bits,
      times x^16. */
  function Dividend(bits: Bits, r: Register): (p: Bits)
    ensures |p| == |bits| + 16
  {
    Xor(bits + Zeros(16), r + Zeros(|bits|))
  }

  lemma DividendLast(bits: Bits, r: Register)
    requires bits != []
    ensures var n := |bits| - 1;
      Dividend(bits, r) == Xor(Dividend(bits[..n], r) + [false], Zeros(n) + ([bits[n]] + Zeros(16)))
  {
  }

  /** `Feed` is long division: message * x^16 (+ initial register) = quotient * G + register. */
  lemma {:induction false} FeedDivides(bits: Bits, r: Register)
    ensures Dividend(bits, r) == Xor(TimesG(Feedback(bits, r)), Zeros(|bits|) + Feed(bits, r))
    decreases |bits|
  {
    if bits == [] {
      assert Dividend(bits, r) == r;
    } else {
      var n := |bits| - 1;
      FeedDivides(bits[..n], r);
      FeedLast(bits, r);
      DividendLast(bits, r);
      var q := Feedback(bits, r);
      assert q[..n] == Feedback(bits[..n], r);
      DivideStep(n, Dividend(bits[..n], r), TimesG(q[..n]), Feed(bits[..n], r), bits[n]);
    }
  }

  /** One step of long division, on a partial product `t` of n quotient bits. */
  lemma DivideStep(n: nat, d: Bits, t: Bits, m: Register, b: bool)
    requires |d| == |t| == n + 16
    requires d == Xor(t, Zeros(n) + m)
    ensures Xor(d + [false], Zeros(n) + ([b] + Zeros(16)))
         == Xor(Xor(t + [false], Zeros(n) + When(m[0] != b, Generator())), Zeros(n + 1) + Step(m, b))
  {
    assert d + [false] == Xor(t + [false], Zeros(n) + (m + [false]));
    SubtractG(m, b);
    Regroup(t + [false], n, m + [false], [b] + Zeros(16), When(m[0] != b, Generator()), [false] + Step(m, b));
    assert Zeros(n + 1) + Step(m, b) == Zeros(n) + ([false] + Step(m, b));
  }

  lemma SubtractG(m: Register, b: bool)
    ensures Xor(m + [false], [b] + Zeros(16)) == Xor(When(m[0] != b, Generator()), [false] + Step(m, b))
  {
  }

  lemma Regroup(t: Bits, n: nat, u: Bits, v: Bits, g: Bits, s: Bits)
    requires |u| == |v| == |g| == |s| && |t| == n + |u|
    requires Xor(u, v) == Xor(g, s)
    ensures Xor(Xor(t, Zeros(n) + u), Zeros(n) + v) == Xor(Xor(t, Zeros(n) + g), Zeros(n) + s)
  {
    assert Xor(Zeros(n) + u, Zeros(n) + v) == Zeros(n) + Xor(u, v);
    assert Xor(Zeros(n) + g, Zeros(n) + s) == Zeros(n) + Xor(g, s);
    XorAssociative(t, Zeros(n) + u, Zeros(n) + v);
    XorAssociative(t, Zeros(n) + g, Zeros(n) + s);
  }

  lemma XorAssociative(x: Bits, y: Bits, z: Bits)
    requires |x| == |y| == |z|
    ensures Xor(Xor(x, y), z) == Xor(x, Xor(y, z))
  {
  }

  lemma TimesGCoefficient(q: Bits, i: nat)
    requires i < |q|
    ensures var n := |q| - 1; var t := TimesG(q[..n]);
      TimesG(q)[i] == if i < n then t[i] else (t[n] != q[n])
  {
    var n := |q| - 1;
    var g := Zeros(n) + When(q[n], Generator());
    assert g[i] == (i == n && q[n]);
  }

  /** The first |q| coefficients of q * G determine q. */
  lemma {:induction false} QuotientUnique(q: Bits, q': Bits)
    requires |q| == |q'|
    requires forall i :: 0 <= i < |q| ==> TimesG(q)[i] == TimesG(q')[i]
    ensures q == q'
    decreases |q|
  {
    hide TimesG;
    if q != [] {
      var n := |q| - 1;
      var t, t' := TimesG(q[..n]), TimesG(q'[..n]);
      forall i | 0 <= i < n
        ensures t[i] == t'[i]
      {
        TimesGCoefficient(q, i);
        TimesGCoefficient(q', i);
        assert TimesG(q)[i] == TimesG(q')[i];
      }
      QuotientUnique(q[..n], q'[..n]);
      TimesGCoefficient(q, n);
      TimesGCoefficient(q', n);
      assert TimesG(q)[n] == TimesG(q')[n];
      assert q == q[..n] + [q[n]] && q' == q'[..n] + [q'[n]];
    }
  }

  /** The register is the remainder: no other 16 bits complete any multiple of G. */
  lemma RemainderUnique(bits: Bits, r: Register, q: Bits, rest: Register)
    requires |q| == |bits|
    ensures Dividend(bits, r) == Xor(TimesG(q), Zeros(|bits|) + rest)
       <==> q == Feedback(bits, r) && rest == Feed(bits, r)
  {
    FeedDivides(bits, r);
    var n, d := |bits|, Dividend(bits, r);
    if d == Xor(TimesG(q), Zeros(n) + rest) {
      var q0, r0 := Feedback(bits, r), Feed(bits, r);
      forall i | 0 <= i < n
        ensures TimesG(q)[i] == TimesG(q0)[i]
      {
        assert d[i] == TimesG(q)[i] && d[i] == TimesG(q0)[i];
      }
      QuotientUnique(q, q0);
      forall i | 0 <= i < 16
        ensures rest[i] == r0[i]
      {
        assert d[n + i] == (TimesG(q)[n + i] != rest[i]);
        assert d[n + i] == (TimesG(q0)[n + i] != r0[i]);
      }
    }
  }

  // ------------------------------------------------------- burst detection

  lemma {:induction false} ZerosKeepZero(n: nat)
    ensures Feed(Zeros(n), Zeros(16)) == Zeros(16)
  {
    if n > 0 {
      assert Zeros(n)[1..] == Zeros(n - 1);
      assert Step(Zeros(16), false) == Zeros(16);
      ZerosKeepZero(n - 1);
    }
  }

  lemma AddedStep(bits: Bits, r: Register)
    requires 0 < |bits| <= 16
    ensures Step(Xor(r, bits + Zeros(16 - |bits|)), false)
         == Xor(Step(r, bits[0]), bits[1..] + Zeros(17 - |bits|))
  {
  }

  /** Feeding up to 16 bits is feeding zeros into the register with the bits added on. */
  lemma {:induction false} FeedAdded(bits: Bits, r: Register)
    requires |bits| <= 16
    ensures Feed(bits, r) == Feed(Zeros(|bits|), Xor(r, bits + Zeros(16 - |bits|)))
  {
    if bits == [] {
      assert Xor(r, bits + Zeros(16)) == r;
    } else {
      AddedStep(bits, r);
      assert Zeros(|bits|)[1..] == Zeros(|bits| - 1);
      FeedAdded(bits[1..], Step(r, bits[0]));
    }
  }

  /** A nonzero word fed into the zero register leaves a nonzero register. */
  lemma WordLeavesTrace(d: Bits, i: nat)
    requires |d| <= 16 && i < |d| && d[i]
    ensures Feed(d, Zeros(16)) != Zeros(16)
  {
    FeedAdded(d, Zeros(16));
    var r := Xor(Zeros(16), d + Zeros(16 - |d|));
    assert r[i];
    ZerosKeepNonzero(|d|, r);
  }

  lemma ZerosKeepNonzero(n: nat, r: Register)
    requires r != Zeros(16)
    ensures Feed(Zeros(n), r) != Zeros(16)
  {
    ZerosKeepZero(n);
    FeedBijective(Zeros(n), r);
    FeedBijective(Zeros(n), Zeros(16));
  }

  lemma FeedPadded(d: Bits, before: nat, w: Bits, after: nat, k: nat)
    requires |w| <= 16 && k < |w| && w[k]
    requires d == Zeros(before) + (w + Zeros(after))
    ensures Feed(d, Zeros(16)) != Zeros(16)
  {
    FeedConcat(Zeros(before), w + Zeros(after), Zeros(16));
    ZerosKeepZero(before);
    FeedConcat(w, Zeros(after), Zeros(16));
    WordLeavesTrace(w, k);
    ZerosKeepNonzero(after, Feed(w, Zeros(16)));
  }

  lemma WindowSplit(d: Bits, at: nat, end: nat)
    requires at <= end <= |d|
    requires forall j :: 0 <= j < |d| && d[j] ==> at <= j < end
    ensures d == Zeros(at) + (d[at..end] + Zeros(|d| - end))
  {
  }

  /** A stream that is zero outside a window of 16 bits, but not inside it, leaves a trace. */
  lemma BurstLeavesTrace(d: Bits, at: nat, i: nat)
    requires i < |d| && d[i]
    requires forall j :: 0 <= j < |d| && d[j] ==> at <= j < at + 16
    ensures Feed(d, Zeros(16)) != Zeros(16)
  {
    var end := if at + 16 <= |d| then at + 16 else |d|;
    WindowSplit(d, at, end);
    assert at <= i < end;
    FeedPadded(d, at, d[at..end], |d| - end, i - at);
  }

  /** Two streams of any length that differ only inside one window of 16 bits, and
      do differ there, never have the same CRC. */
  lemma BurstDetected(x: Bits, y: Bits, at: nat, r: Register)
    requires |x| == |y| && x != y
    requires forall i :: 0 <= i < |x| && x[i] != y[i] ==> at <= i < at + 16
    ensures Feed(x, r) != Feed(y, r)
  {
    var i :| 0 <= i < |x| && x[i] != y[i];
    BurstLeavesTrace(Xor(x, y), at, i);
    FeedLinear(x, y, r, r);
    assert Xor(r, r) == Zeros(16);
    var p := Feed(x, r);
    assert Xor(p, p) == Zeros(16);
  }

  // -------------------------------------------------- the machine-word code

  function Mask(i: nat): bv16 {
    if i == 0 then 0x0001 else if i == 1 then 0x0002 else if i == 2 then 0x0004 else if i == 3 then 0x0008
    else if i == 4 then 0x0010 else if i == 5 then 0x0020 else if i == 6 then 0x0040 else if i == 7 then 0x0080
    else if i == 8 then 0x0100 else if i == 9 then 0x0200 else if i == 10 then 0x0400 else if i == 11 then 0x0800
    else if i == 12 then 0x1000 else if i == 13 then 0x2000 else if i == 14 then 0x4000 else 0x8000
  }

  predicate TestBit(w: bv16, i: nat)
    requires i < 16
  {
    w & Mask(i) != 0
  }

  /** The low n bits of a word, least significant first. */
  function BitsOf(w: bv16, n: nat): (s: Bits)
    requires n <= 16
    ensures |s| == n
  {
    seq(n, i requires 0 <= i < n => TestBit(w, i))
  }

  lemma MaskNext(i: nat)
    requires i < 15
    ensures Mask(i + 1) == Mask(i) << 1 && Mask(i) & 0x8000 == 0
  {
  }

  lemma MaskTapped(i: nat)
    requires i < 15 && i != 0 && i != 13
    ensures Mask(i) & 0xA001 == 0
  {
  }

  lemma PlainMask(c: bv16, e: bv16, m: bv16)
    requires m & 0x8000 == 0
    requires e == (c >> 1) & 0x7fff
    ensures (e & m != 0) == (c & (m << 1) != 0)
  {
  }

  lemma TappedMask(c: bv16, e: bv16, m: bv16)
    requires m & 0xA001 == 0
    requires e == ((c ^ 0x4002) >> 1) | 0x8000
    ensures (e & m != 0) == (c & (m << 1) != 0)
  {
  }

  lemma TappedBits(c: bv16, e: bv16)
    requires e == ((c ^ 0x4002) >> 1) | 0x8000
    ensures (e & 0x0001 != 0) == (c & 0x0002 == 0)
    ensures (e & 0x2000 != 0) == (c & 0x4000 == 0)
    ensures e & 0x8000 != 0
  {
  }

  lemma PlainShift(c: bv16, e: bv16, i: nat)
    requires i < 16
    requires e == (c >> 1) & 0x7fff
    ensures if i == 15 then !TestBit(e, i) else TestBit(e, i) == TestBit(c, i + 1)
  {
    if i < 15 {
      MaskNext(i);
      PlainMask(c, e, Mask(i));
    }
  }

  lemma TappedShift(c: bv16, e: bv16, i: nat)
    requires i < 15 && i != 0 && i != 13
    requires e == ((c ^ 0x4002) >> 1) | 0x8000
    ensures TestBit(e, i) == TestBit(c, i + 1)
  {
    MaskNext(i);
    MaskTapped(i);
    TappedMask(c, e, Mask(i));
  }

  lemma TappedEnds(c: bv16, e: bv16, i: nat)
    requires i == 0 || i == 13
    requires e == ((c ^ 0x4002) >> 1) | 0x8000
    ensures TestBit(e, i) == !TestBit(c, i + 1)
  {
    TappedBits(c, e);
    if i == 0 {
      assert Mask(0) == 0x0001 && Mask(1) == 0x0002;
    } else {
      assert Mask(13) == 0x2000 && Mask(14) == 0x4000;
    }
  }

  lemma TappedTop(c: bv16, e: bv16)
    requires e == ((c ^ 0x4002) >> 1) | 0x8000
    ensures TestBit(e, 15)
  {
  }

  lemma LowBits(d: bv8, c: bv16)
    ensures ((d & 1) ^ (((c & 0xff) as bv8) & 1) == 1) == (((d as bv16) & 0x0001 != 0) != (c & 0x0001 != 0))
  {
  }

  lemma DataMask(d: bv8, m: bv16)
    requires m <= 0x40
    ensures (((d >> 1) as bv16) & m != 0) == ((d as bv16) & (m << 1) != 0)
  {
  }

  lemma DataShift(d: bv8, n: nat)
    requires n < 8
    ensures BitsOf((d >> 1) as bv16, n) == BitsOf(d as bv16, n + 1)[1..]
  {
    var s, t := BitsOf((d >> 1) as bv16, n), BitsOf(d as bv16, n + 1);
    forall i | 0 <= i < n
      ensures s[i] == t[1..][i]
    {
      MaskNext(i);
      DataMask(d, Mask(i));
    }
  }

  /** The two arms of the loop body are the two values of the feedback bit. */
  lemma ShiftIsStep(c: bv16, e: bv16, b: bool)
    requires e == if TestBit(c, 0) != b then ((c ^ 0x4002) >> 1) | 0x8000 else (c >> 1) & 0x7fff
    ensures BitsOf(e, 16) == Step(BitsOf(c, 16), b)
  {
    var s := Step(BitsOf(c, 16), b);
    forall i | 0 <= i < 16
      ensures TestBit(e, i) == s[i]
    {
      if TestBit(c, 0) != b {
        if i == 15 { TappedTop(c, e); }
        else if i == 0 || i == 13 { TappedEnds(c, e, i); }
        else { TappedShift(c, e, i); }
      } else {
        PlainShift(c, e, i);
      }
    }
  }

  /** The register update of the loop body. */
  method ShiftRegister(x16: bv8, crc: bv16) returns (r: bv16)
    ensures r == if x16 == 1 then ((crc ^ 0x4002) >> 1) | 0x8000 else (crc >> 1) & 0x7fff
  {
    r := crc;
    var carry;
    if x16 == 1 {
      r := r ^ 0x4002;
      carry := 1;
    } else {
      carry := 0;
    }
    r := r >> 1;
    if carry == 1 {
      r := r | 0x8000;
    } else {
      r := r & 0x7fff;
    }
  }

  method CrcU8(data: bv8, crc: bv16) returns (r: bv16)
    ensures BitsOf(r, 16) == Feed(BitsOf(data as bv16, 8), BitsOf(crc, 16))
  {
    var d := data;
    r := crc;
    var i := 0;
    ghost var todo := BitsOf(data as bv16, 8);
    while i < 8
      invariant 0 <= i <= 8
      invariant |todo| == 8 - i && todo == BitsOf(d as bv16, 8 - i)
      invariant Feed(todo, BitsOf(r, 16)) == Feed(BitsOf(data as bv16, 8), BitsOf(crc, 16))
    {
      LowBits(d, r);
      DataShift(d, 7 - i);
      var x16 := (d & 1) ^ (((r & 0xff) as bv8) & 1);
      assert (x16 == 1) == (TestBit(r, 0) != todo[0]);
      d := d >> 1;
      var next := ShiftRegister(x16, r);
      ShiftIsStep(r, next, todo[0]);
      r := next;
      todo := todo[1..];
      i := i + 1;
    }
  }

  /** A word goes in low byte first, so it goes in as its own 16 bits. */
  lemma WordIsTwoBytes(w: bv16)
    ensures BitsOf(w, 16) == BitsOf(w & 0xff, 8) + BitsOf(w >> 8, 8)
  {
    var s := BitsOf(w & 0xff, 8) + BitsOf(w >> 8, 8);
    forall i | 0 <= i < 16
      ensures TestBit(w, i) == s[i]
    {
      if i < 8 { LowByteBit(w, i); } else { HighByteBit(w, i - 8); }
    }
  }

  lemma LowByteBit(w: bv16, i: nat)
    requires i < 8
    ensures TestBit(w & 0xff, i) == TestBit(w, i)
  {
  }

  lemma HighByteBit(w: bv16, i: nat)
    requires i < 8
    ensures TestBit(w >> 8, i) == TestBit(w, i + 8)
  {
  }

  method CrcU16(newval: bv16, crc: bv16) returns (r: bv16)
    ensures BitsOf(r, 16) == Feed(BitsOf(newval, 16), BitsOf(crc, 16))
  {
    WordIsTwoBytes(newval);
    FeedConcat(BitsOf(newval & 0xff, 8), BitsOf(newval >> 8, 8), BitsOf(crc, 16));
    r := CrcU8((newval & 0xff) as bv8, crc);
    r := CrcU8((newval >> 8) as bv8, r);
  }

  /** The source's signed 16-bit argument has the same bit pattern. */
  method Crc16(newval: bv16, crc: bv16) returns (r: bv16)
    ensures BitsOf(r, 16) == Feed(BitsOf(newval, 16), BitsOf(crc, 16))
  {
    r := CrcU16(newval, crc);
  }

  function LowHalf(w: bv32): bv16 { (w & 0xffff) as bv16 }

  function HighHalf(w: bv32): bv16 { (w >> 16) as bv16 }

  lemma HalvesAre(w: bv32)
    ensures LowHalf(w) == (w & 0xffff) as bv16 && HighHalf(w) == (w >> 16) as bv16
  {
  }

  /** Bit i of a 32-bit word. */
  predicate LongBit(w: bv32, i: nat)
    requires i < 32
  {
    if i < 16 then LowMasked(w, Mask(i)) else HighMasked(w, Mask(i - 16))
  }

  predicate LowMasked(w: bv32, m: bv16) { w & (m as bv32) != 0 }

  predicate HighMasked(w: bv32, m: bv16) { w & ((m as bv32) << 16) != 0 }

  /** All bits of a 32-bit word, least significant first. */
  function LongBits(w: bv32): (s: Bits)
    ensures |s| == 32
  {
    seq(32, i requires 0 <= i < 32 => LongBit(w, i))
  }

  lemma HalfBits(w: bv32, m: bv16)
    ensures Masked(LowHalf(w), m) == LowMasked(w, m)
    ensures Masked(HighHalf(w), m) == HighMasked(w, m)
  {
  }

  predicate Masked(w: bv16, m: bv16) { w & m != 0 }

  lemma TestBitMasked(w: bv16, i: nat)
    requires i < 16
    ensures TestBit(w, i) == Masked(w, Mask(i))
  {
  }

  lemma HalfBit(w: bv32, i: nat)
    requires i < 16
    ensures TestBit(LowHalf(w), i) == LowMasked(w, Mask(i)) && TestBit(HighHalf(w), i) == HighMasked(w, Mask(i))
  {
    hide LowHalf, HighHalf, LowMasked, HighMasked, Mask, Masked, TestBit;
    TestBitMasked(LowHalf(w), i);
    TestBitMasked(HighHalf(w), i);
    HalfBits(w, Mask(i));
  }

  /** The low half goes first, so that the stream is the word bit by bit. */
  lemma LongIsTwoHalves(w: bv32)
    ensures LongBits(w) == BitsOf(LowHalf(w), 16) + BitsOf(HighHalf(w), 16)
  {
    hide LowHalf, HighHalf, LowMasked, HighMasked, Mask, TestBit;
    var s := BitsOf(LowHalf(w), 16) + BitsOf(HighHalf(w), 16);
    forall i | 0 <= i < 32
      ensures LongBit(w, i) == s[i]
    {
      HalfBit(w, if i < 16 then i else i - 16);
    }
  }

  method CrcU32(newval: bv32, crc: bv16) returns (r: bv16)
    ensures BitsOf(r, 16) == Feed(LongBits(newval), BitsOf(crc, 16))
    ensures BitsOf(r, 16) == Feed(BitsOf(LowHalf(newval), 16) + BitsOf(HighHalf(newval), 16), BitsOf(crc, 16))
  {
    hide LowHalf, HighHalf, LongBits;
    LongIsTwoHalves(newval);
    HalvesAre(newval);
    FeedConcat(BitsOf(LowHalf(newval), 16), BitsOf(HighHalf(newval), 16), BitsOf(crc, 16));
    r := Crc16((newval & 0xffff) as bv16, crc);
    r := Crc16((newval >> 16) as bv16, r);
  }
}
