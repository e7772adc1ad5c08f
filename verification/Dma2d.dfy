/// The two-dimensional copy example (example_dma_2d/main.c): pointer increments
/// computed from strides and sizes for the DMA, and counter-driven loops for the CPU.
/// Both produce the matrix that the closed form describes, plain or transposed.

module Dma2d {
  import opened Arithmetic
  import opened Dma

  datatype Params = Params(
    inWidth: nat, extr1: nat, extr2: nat,
    strideIn1: nat, strideIn2: nat, strideOut1: nat, strideOut2: nat,
    top: nat, bottom: nat, left: nat, right: nat)
  {
    predicate Valid() { extr1 > 0 && extr2 > 0 && strideOut1 > 0 && strideOut2 > 0 }

    function Cols(): nat { extr1 + left + right }

    function Rows(): nat { extr2 + top + bottom }

    /** Width of the output, with the gaps that the output stride leaves. */
    function OutWidth(): int { Cols() * strideOut1 - (strideOut1 - 1) }

    function OutHeight(): int { Rows() * strideOut2 - (strideOut2 - 1) }
  }

  /** The source word for row i, column j of the extracted matrix. */
  function SourceIndex(p: Params, transposed: bool, i: int, j: int): int {
    if transposed then j * (p.strideIn2 * p.inWidth) + i * p.strideIn1
    else i * (p.strideIn2 * p.inWidth) + j * p.strideIn1
  }

  predicate SourceFits(p: Params, transposed: bool, n: nat) {
    forall i, j :: 0 <= i < p.extr2 && 0 <= j < p.extr1 ==> 0 <= SourceIndex(p, transposed, i, j) < n
  }

  /** The padded matrix, before the output stride. */
  function Padded(p: Params, transposed: bool, src: seq<Word>, i: int, j: int): Word
    requires SourceFits(p, transposed, |src|)
  {
    if p.top <= i < p.top + p.extr2 && p.left <= j < p.left + p.extr1
    then src[SourceIndex(p, transposed, i - p.top, j - p.left)] else 0
  }

  /** The output: words of the padded matrix on stride hits, zeros in the gaps. */
  function Cell(p: Params, transposed: bool, src: seq<Word>, y: int, x: int): Word
    requires p.Valid() && SourceFits(p, transposed, |src|)
  {
    if y % p.strideOut2 == 0 && x % p.strideOut1 == 0
    then Padded(p, transposed, src, y / p.strideOut2, x / p.strideOut1) else 0
  }

  /** Where row y, column x of the output is stored. */
  function At(p: Params, y: int, x: int): int { y * p.OutWidth() + x }

  predicate InOutput(p: Params, y: int, x: int) { 0 <= y < p.OutHeight() && 0 <= x < p.OutWidth() }

  ghost predicate IsCopy(p: Params, transposed: bool, src: seq<Word>, dst: seq<Word>)
    requires p.Valid() && SourceFits(p, transposed, |src|)
  {
    && |dst| == p.OutHeight() * p.OutWidth()
    && forall y, x :: InOutput(p, y, x) ==>
         0 <= At(p, y, x) < |dst| && dst[At(p, y, x)] == Cell(p, transposed, src, y, x)
  }

  lemma SizesPositive(p: Params)
    requires p.Valid()
    ensures p.OutWidth() == (p.Cols() - 1) * p.strideOut1 + 1 >= 1
    ensures p.OutHeight() == (p.Rows() - 1) * p.strideOut2 + 1 >= 1
  {
    MulDistributes(p.Cols(), 1, p.strideOut1);
    MulDistributes(p.Rows(), 1, p.strideOut2);
    MulMonotone(0, p.Cols() - 1, p.strideOut1);
    MulMonotone(0, p.Rows() - 1, p.strideOut2);
  }

  lemma AtInRange(p: Params, y: int, x: int)
    requires InOutput(p, y, x)
    ensures 0 <= At(p, y, x) < p.OutHeight() * p.OutWidth()
    ensures At(p, y, x) == At(p, y, 0) + x
  {
    RowsApart(p, y, x, p.OutHeight());
    MulMonotone(0, y, p.OutWidth());
  }

  lemma RowsApart(p: Params, y: int, x: int, i: int)
    requires 0 <= y < i && 0 <= x < p.OutWidth()
    ensures At(p, y, x) < At(p, i, 0)
  {
    MulMonotone(y + 1, i, p.OutWidth());
    MulDistributes(y, 1, p.OutWidth());
  }

  /** Every place of the output array has a row and a column. */
  lemma Place(p: Params, k: int) returns (y: int, x: int)
    requires p.Valid() && 0 <= k < p.OutHeight() * p.OutWidth()
    ensures InOutput(p, y, x) && k == At(p, y, x)
  {
    SizesPositive(p);
    var w := p.OutWidth();
    y, x := k / w, k % w;
    if y >= p.OutHeight() { MulMonotone(p.OutHeight(), y, w); }
  }

  /** Two matrices that are the copy are the same array. */
  lemma CopyUnique(p: Params, transposed: bool, src: seq<Word>, a: seq<Word>, b: seq<Word>)
    requires p.Valid() && SourceFits(p, transposed, |src|)
    requires IsCopy(p, transposed, src, a) && IsCopy(p, transposed, src, b)
    ensures a == b
  {
    hide At, InOutput, Cell, SourceFits;
    forall k | 0 <= k < |a|
      ensures a[k] == b[k]
    {
      var y, x := Place(p, k);
    }
  }

  /** The copy in terms of the parameters alone: row i, column j of the padded matrix stands at the i-th and
      j-th multiple of the strides in an array as wide as its last column needs, and holds the word i - top rows
      and j - left columns of input strides into the source, transposed the other way round, or 0 in the padding. */
  lemma CopyMeaning(p: Params, transposed: bool, src: seq<Word>, dst: seq<Word>, i: nat, j: nat)
    requires p.Valid() && SourceFits(p, transposed, |src|) && IsCopy(p, transposed, src, dst)
    requires i < p.top + p.extr2 + p.bottom && j < p.left + p.extr1 + p.right
    ensures var width := (p.left + p.extr1 + p.right - 1) * p.strideOut1 + 1;
      var place := i * p.strideOut2 * width + j * p.strideOut1;
      var y, x := i - p.top, j - p.left;
      && |dst| == ((p.top + p.extr2 + p.bottom - 1) * p.strideOut2 + 1) * width && 0 <= place < |dst|
      && if 0 <= y < p.extr2 && 0 <= x < p.extr1 then
           var from := if transposed then x * (p.strideIn2 * p.inWidth) + y * p.strideIn1
                       else y * (p.strideIn2 * p.inWidth) + x * p.strideIn1;
           0 <= from < |src| && dst[place] == src[from]
         else dst[place] == 0
  {
    SizesPositive(p);
    Multiple(p.Rows(), p.strideOut2, i);
    Multiple(p.Cols(), p.strideOut1, j);
    DivModUnique(i * p.strideOut2, p.strideOut2, i, 0);
    DivModUnique(j * p.strideOut1, p.strideOut1, j, 0);
    assert InOutput(p, i * p.strideOut2, j * p.strideOut1);
  }

  // ------------------------------------------------------- the CPU's counters

  /** What the 8-bit counter of stride s holds after i steps.  It is reset when it is s - 1; beyond
      0x100 it never is, and wraps. */
  function Phase(i: nat, s: nat): (n: nat)
    requires s > 0
  {
    if s <= 0x100 then i % s else i % 0x100
  }

  /** How often it has been reset. */
  function Resets(i: nat, s: nat): (n: nat)
    requires s > 0
  {
    if s <= 0x100 then i / s else 0
  }

  lemma CounterStarts(s: nat)
    requires s > 0
    ensures Phase(0, s) == 0 && Resets(0, s) == 0
  {
    DivModUnique(0, s, 0, 0);
  }

  lemma CounterStep(i: nat, s: nat)
    requires s > 0
    ensures Phase(i + 1, s) == if Phase(i, s) == s - 1 then 0 else (Phase(i, s) + 1) % 0x100
    ensures Resets(i + 1, s) == if Phase(i, s) == s - 1 then Resets(i, s) + 1 else Resets(i, s)
  {
    CountUp(i, if s <= 0x100 then s else 0x100);
  }

  /** The counters are remainder and quotient by the stride exactly up to 0x100. */
  lemma CountersFollowIff(s: nat)
    requires s > 0
    ensures (forall i: nat :: Phase(i, s) == i % s && Resets(i, s) == i / s) <==> s <= 0x100
  {
    if s > 0x100 {
      DivModUnique(0x100, s, 0, 0x100);
      assert Phase(0x100, s) != 0x100 % s;
    }
  }

  /** What the CPU writes in row y, column x. */
  function CpuCell(p: Params, transposed: bool, src: seq<Word>, y: nat, x: nat): Word
    requires p.Valid() && SourceFits(p, transposed, |src|)
  {
    if Phase(y, p.strideOut2) == 0 && Phase(x, p.strideOut1) == 0
    then Padded(p, transposed, src, Resets(y, p.strideOut2), Resets(x, p.strideOut1)) else 0
  }

  ghost predicate IsCpuCopy(p: Params, transposed: bool, src: seq<Word>, dst: seq<Word>)
    requires p.Valid() && SourceFits(p, transposed, |src|)
  {
    && |dst| == p.OutHeight() * p.OutWidth()
    && forall y, x :: InOutput(p, y, x) ==>
         0 <= At(p, y, x) < |dst| && dst[At(p, y, x)] == CpuCell(p, transposed, src, y, x)
  }

  /** What a padding counter holds, where it is used: `inner' and `phase' are those of its stride. */
  predicate PadSeen(pad: nat, s: nat, inner: int, phase: int, count: int) {
    s <= 0x100 || pad == 0 ==> count == if phase == 0 then Min(inner, pad) else Min(inner + 1, pad)
  }

  lemma PadSeenStep(pad: nat, s: nat, i: nat, count: nat)
    requires s > 0 && pad < 0x1_0000 && PadSeen(pad, s, Resets(i, s), Phase(i, s), count)
    ensures var next := if Resets(i, s) < pad && Phase(i, s) == 0 then (count + 1) % 0x1_0000 else count;
      PadSeen(pad, s, Resets(i + 1, s), Phase(i + 1, s), next)
  {
    hide Phase, Resets;
    CounterStep(i, s);
    PhaseBelow(i, s);
  }

  lemma PhaseBelow(i: nat, s: nat)
    requires s > 0
    ensures s <= 0x100 ==> Phase(i, s) < s
    ensures s > 0x100 ==> Resets(i, s) == 0
  {
  }

  /** The word for row i, column j, read with the counters. */
  lemma CounterCell(p: Params, transposed: bool, src: seq<Word>, i: nat, j: nat, topPad: int, leftPad: int)
    requires p.Valid() && SourceFits(p, transposed, |src|)
    requires PadSeen(p.top, p.strideOut2, Resets(i, p.strideOut2), Phase(i, p.strideOut2), topPad)
    requires Phase(i, p.strideOut2) == 0 && Resets(i, p.strideOut2) >= p.top ==>
      PadSeen(p.left, p.strideOut1, Resets(j, p.strideOut1), Phase(j, p.strideOut1), leftPad)
    ensures
      var y, u := Resets(i, p.strideOut2), Phase(i, p.strideOut2);
      var x, v := Resets(j, p.strideOut1), Phase(j, p.strideOut1);
      if y < p.top || y >= p.extr2 + p.top || x < p.left || x >= p.extr1 + p.left || v != 0 || u != 0
      then CpuCell(p, transposed, src, i, j) == 0
      else
        && 0 <= SourceIndex(p, transposed, y - topPad, x - leftPad) < |src|
        && CpuCell(p, transposed, src, i, j) == src[SourceIndex(p, transposed, y - topPad, x - leftPad)]
  {
    hide SourceIndex, Phase, Resets;
    PhaseBelow(i, p.strideOut2);
    PhaseBelow(j, p.strideOut1);
  }

  // ---------------------------------------------------------- the CPU loops

  /** One output row.  The counters follow the column, and the number of left padding words seen. */
  method CpuRow(src: array<Word>, out: array<Word>, p: Params, transposed: bool, i: nat, iIn: nat, stride2: nat,
                topPad: nat)
    requires p.Valid() && SourceFits(p, transposed, src.Length) && src != out && p.left < 0x1_0000
    requires i < p.OutHeight() && out.Length == p.OutHeight() * p.OutWidth()
    requires iIn == Resets(i, p.strideOut2) && stride2 == Phase(i, p.strideOut2)
    requires PadSeen(p.top, p.strideOut2, iIn, stride2, topPad)
    modifies out
    ensures forall x: nat :: x < p.OutWidth() ==>
      0 <= At(p, i, x) < out.Length && out[At(p, i, x)] == CpuCell(p, transposed, src[..], i, x)
    ensures forall k :: 0 <= k < At(p, i, 0) && k < out.Length ==> out[k] == old(out[k])
  {
    hide SourceIndex, CpuCell, At, PadSeen, Phase, Resets;
    var stride1, jIn, leftPad := 0, 0, 0;
    CounterStarts(p.strideOut1);
    NothingPadded(p.left, p.strideOut1);
    var j: nat := 0;
    while j < p.OutWidth()
      invariant 0 <= j <= p.OutWidth() && jIn == Resets(j, p.strideOut1) && stride1 == Phase(j, p.strideOut1)
      invariant leftPad >= 0
      invariant stride2 == 0 && iIn >= p.top ==> PadSeen(p.left, p.strideOut1, jIn, stride1, leftPad)
      invariant forall x: nat :: x < j ==>
        0 <= At(p, i, x) == At(p, i, 0) + x < out.Length && out[At(p, i, x)] == CpuCell(p, transposed, src[..], i, x)
      invariant forall k :: 0 <= k < At(p, i, 0) && k < out.Length ==> out[k] == old(out[k])
    {
      var dstPtr := At(p, i, j);
      AtInRange(p, i, j);
      CounterCell(p, transposed, src[..], i, j, topPad, leftPad);
      if iIn < p.top || iIn >= p.extr2 + p.top || jIn < p.left || jIn >= p.extr1 + p.left
         || stride1 != 0 || stride2 != 0 {
        out[dstPtr] := 0;
      } else {
        out[dstPtr] := src[SourceIndex(p, transposed, iIn - topPad, jIn - leftPad)];
      }
      if stride2 == 0 && iIn >= p.top { PadSeenStep(p.left, p.strideOut1, j, leftPad); }
      CounterStep(j, p.strideOut1);
      if jIn < p.left && iIn >= p.top && stride1 == 0 && stride2 == 0 { leftPad := (leftPad + 1) % 0x1_0000; }
      if stride1 == p.strideOut1 - 1 {
        stride1, jIn := 0, jIn + 1;
      } else {
        stride1 := (stride1 + 1) % 0x100;
      }
      j := j + 1;
    }
  }

  lemma NothingPadded(pad: nat, s: nat)
    ensures PadSeen(pad, s, 0, 0, 0)
  {
  }

  /** The counter-driven copy, with 8-bit stride counters and 16-bit padding counters. */
  method CpuCopy(src: array<Word>, out: array<Word>, p: Params, transposed: bool)
    requires p.Valid() && SourceFits(p, transposed, src.Length) && src != out
    requires p.left < 0x1_0000 && p.top < 0x1_0000
    requires out.Length == p.OutHeight() * p.OutWidth()
    modifies out
    ensures IsCpuCopy(p, transposed, src[..], out[..])
  {
    hide SourceFits, CpuCell, At, PadSeen, Phase, Resets;
    var iIn, topPad, stride2 := 0, 0, 0;
    CounterStarts(p.strideOut2);
    NothingPadded(p.top, p.strideOut2);
    var i: nat := 0;
    while i < p.OutHeight()
      invariant 0 <= i && iIn == Resets(i, p.strideOut2) && stride2 == Phase(i, p.strideOut2)
      invariant topPad >= 0 && PadSeen(p.top, p.strideOut2, iIn, stride2, topPad)
      invariant forall y, x :: InOutput(p, y, x) && y < i ==>
        0 <= At(p, y, x) < out.Length && out[At(p, y, x)] == CpuCell(p, transposed, src[..], y, x)
    {
      forall y, x | InOutput(p, y, x) && y < i
        ensures At(p, y, x) < At(p, i, 0)
      {
        RowsApart(p, y, x, i);
      }
      CpuRow(src, out, p, transposed, i, iIn, stride2, topPad);
      PadSeenStep(p.top, p.strideOut2, i, topPad);
      CounterStep(i, p.strideOut2);
      if iIn < p.top && stride2 == 0 { topPad := (topPad + 1) % 0x1_0000; }
      if stride2 == p.strideOut2 - 1 {
        stride2, iIn := 0, iIn + 1;
      } else {
        stride2 := (stride2 + 1) % 0x100;
      }
      i := i + 1;
    }
  }

  // ------------------------------------------------- when the counters suffice

  ghost predicate SameCells(p: Params, transposed: bool, src: seq<Word>)
    requires p.Valid() && SourceFits(p, transposed, |src|)
  {
    forall y, x :: InOutput(p, y, x) ==> CpuCell(p, transposed, src, y, x) == Cell(p, transposed, src, y, x)
  }

  /** No counter of a dimension with more than one place has to reach 0x100. */
  predicate CountersSuffice(p: Params) {
    (p.strideOut2 <= 0x100 || p.Rows() == 1) && (p.strideOut1 <= 0x100 || p.Cols() == 1)
  }

  lemma CountersRight(n: nat, s: nat, i: nat)
    requires s > 0 && n > 0 && (s <= 0x100 || n == 1) && i < n * s - (s - 1)
    ensures Phase(i, s) == i % s && Resets(i, s) == i / s
  {
    CountersFollowIff(s);
    if n == 1 {
      CounterStarts(s);
      DivModUnique(0, s, 0, 0);
    }
  }

  lemma SameIfCountersSuffice(p: Params, transposed: bool, src: seq<Word>)
    requires p.Valid() && SourceFits(p, transposed, |src|) && CountersSuffice(p)
    ensures SameCells(p, transposed, src)
  {
    hide Phase, Resets, SourceFits, SourceIndex;
    forall y, x | InOutput(p, y, x)
      ensures CpuCell(p, transposed, src, y, x) == Cell(p, transposed, src, y, x)
    {
      CountersRight(p.Rows(), p.strideOut2, y);
      CountersRight(p.Cols(), p.strideOut1, x);
    }
  }

  /** Row and column of the first extracted word, and the row or column behind which a counter wraps. */
  lemma FirstWord(p: Params, transposed: bool, src: seq<Word>)
    requires p.Valid() && SourceFits(p, transposed, |src|) && forall k :: 0 <= k < |src| ==> src[k] == 1
    ensures var y, x := p.top * p.strideOut2, p.left * p.strideOut1;
      InOutput(p, y, x) && Cell(p, transposed, src, y, x) == 1
  {
    hide SourceIndex;
    Multiple(p.Rows(), p.strideOut2, p.top);
    Multiple(p.Cols(), p.strideOut1, p.left);
    DivModUnique(p.top * p.strideOut2, p.strideOut2, p.top, 0);
    DivModUnique(p.left * p.strideOut1, p.strideOut1, p.left, 0);
  }

  /** A counter that wraps before padding ends leaves only padding. */
  lemma StuckInPadding(p: Params, transposed: bool, src: seq<Word>)
    requires p.Valid() && SourceFits(p, transposed, |src|) && forall k :: 0 <= k < |src| ==> src[k] == 1
    requires (p.strideOut2 > 0x100 && p.top > 0) || (p.strideOut1 > 0x100 && p.left > 0)
    ensures !SameCells(p, transposed, src)
  {
    FirstWord(p, transposed, src);
    var y, x := p.top * p.strideOut2, p.left * p.strideOut1;
    assert CpuCell(p, transposed, src, y, x) == 0;
  }

  lemma PastWrap(n: nat, s: nat)
    requires s > 0x100 && n > 1
    ensures 0x100 < n * s - (s - 1) && 0x100 % s == 0x100 && Phase(0x100, s) == 0 && Resets(0x100, s) == 0
  {
    MulMonotone(2, n, s);
    DivModUnique(0x100, s, 0, 0x100);
  }

  /** Where padding ends in a dimension whose counter is right, or that has none. */
  lemma PaddingEnds(n: nat, s: nat, pad: nat)
    requires s > 0 && pad < n && (s <= 0x100 || pad == 0)
    ensures 0 <= pad * s < n * s - (s - 1) && Phase(pad * s, s) == 0 && Resets(pad * s, s) == pad
  {
    Multiple(n, s, pad);
    DivModUnique(pad * s, s, pad, 0);
    CounterStarts(s);
  }

  /** A row counter that wraps at once copies the first row again where there is a gap. */
  lemma WrappedRow(p: Params, transposed: bool, src: seq<Word>)
    requires p.Valid() && SourceFits(p, transposed, |src|) && forall k :: 0 <= k < |src| ==> src[k] == 1
    requires p.strideOut2 > 0x100 && p.Rows() > 1 && p.top == 0 && (p.strideOut1 <= 0x100 || p.left == 0)
    ensures !SameCells(p, transposed, src)
  {
    hide Phase, Resets, SourceIndex;
    PastWrap(p.Rows(), p.strideOut2);
    PaddingEnds(p.Cols(), p.strideOut1, p.left);
    assert InOutput(p, 0x100, p.left * p.strideOut1);
  }

  lemma WrappedColumn(p: Params, transposed: bool, src: seq<Word>)
    requires p.Valid() && SourceFits(p, transposed, |src|) && forall k :: 0 <= k < |src| ==> src[k] == 1
    requires p.strideOut1 > 0x100 && p.Cols() > 1 && p.left == 0 && (p.strideOut2 <= 0x100 || p.top == 0)
    ensures !SameCells(p, transposed, src)
  {
    hide Phase, Resets, SourceIndex;
    PastWrap(p.Cols(), p.strideOut1);
    PaddingEnds(p.Rows(), p.strideOut2, p.top);
    assert InOutput(p, p.top * p.strideOut2, 0x100);
  }

  /** The loops write the matrix for all source data if and only if the counters suffice. */
  lemma CpuRightIff(p: Params, transposed: bool, n: nat)
    requires p.Valid() && SourceFits(p, transposed, n)
    ensures (forall src: seq<Word> :: |src| == n ==> SameCells(p, transposed, src)) <==> CountersSuffice(p)
  {
    hide SourceFits, SameCells;
    if CountersSuffice(p) {
      forall src: seq<Word> | |src| == n
        ensures SameCells(p, transposed, src)
      {
        SameIfCountersSuffice(p, transposed, src);
      }
    } else {
      var ones: seq<Word> := seq(n, _ => 1);
      if (p.strideOut2 > 0x100 && p.top > 0) || (p.strideOut1 > 0x100 && p.left > 0) {
        StuckInPadding(p, transposed, ones);
      } else if p.strideOut2 > 0x100 && p.Rows() > 1 {
        WrappedRow(p, transposed, ones);
      } else {
        WrappedColumn(p, transposed, ones);
      }
      assert !SameCells(p, transposed, ones);
    }
  }

  lemma LongStrideCounters(y: nat, s: nat)
    requires s == 300
    ensures y == 256 ==> Phase(y, s) == 0 && Resets(y, s) == 0 && y % s == 256
    ensures y == 300 ==> Phase(y, s) == 44 && y % s == 0 && y / s == 1
  {
  }

  lemma LongStrideWords(p: Params)
    requires p == Params(1, 1, 2, 1, 1, 1, 300, 0, 0, 0, 0)
    ensures p.Valid() && SourceFits(p, false, 2) && InOutput(p, 256, 0) && InOutput(p, 300, 0)
    ensures forall i :: SourceIndex(p, false, i, 0) == i
    ensures Phase(0, p.strideOut1) == 0 && Resets(0, p.strideOut1) == 0 && 0 % p.strideOut1 == 0 / p.strideOut1 == 0
  {
  }

  lemma LongStrideRow(p: Params, src: seq<Word>, y: nat)
    requires p == Params(1, 1, 2, 1, 1, 1, 300, 0, 0, 0, 0) && |src| == 2 && (y == 256 || y == 300)
    ensures p.Valid() && SourceFits(p, false, |src|)
    ensures CpuCell(p, false, src, y, 0) == if y == 256 then src[0] else 0
    ensures Cell(p, false, src, y, 0) == if y == 256 then 0 else src[1]
  {
    hide Phase, Resets, SourceIndex, SourceFits, InOutput;
    LongStrideWords(p);
    LongStrideCounters(y, p.strideOut2);
  }

  lemma LongStrideTaken(p: Params)
    requires p == Params(1, 1, 2, 1, 1, 1, 300, 0, 0, 0, 0)
    ensures FitsRegisters(Registers(p, false)) && Registers(p, false).srcInc2 != 0
  {
  }

  /** Two rows with a stride of 300, which the registers and the driver take: row 256 repeats the first
      word, and the second one is missing. */
  lemma LongStrideFails(p: Params, src: seq<Word>)
    requires p == Params(1, 1, 2, 1, 1, 1, 300, 0, 0, 0, 0) && |src| == 2
    ensures p.Valid() && SourceFits(p, false, |src|) && InOutput(p, 256, 0) && InOutput(p, 300, 0)
    ensures FitsRegisters(Registers(p, false)) && Registers(p, false).srcInc2 != 0
    ensures CpuCell(p, false, src, 256, 0) == src[0] && Cell(p, false, src, 256, 0) == 0
    ensures CpuCell(p, false, src, 300, 0) == 0 && Cell(p, false, src, 300, 0) == src[1]
  {
    hide CpuCell, Cell, SourceFits, InOutput, FitsRegisters, Registers;
    LongStrideTaken(p);
    LongStrideWords(p);
    LongStrideRow(p, src, 256);
    LongStrideRow(p, src, 300);
  }

  // --------------------------------------------------------- the DMA's copy

  /** The registers, with the increments of the example's macros. */
  function Registers(p: Params, transposed: bool): Config {
    Config(
      0, p.strideIn1,
      if transposed then p.strideIn2 * p.inWidth
      else p.strideIn2 * p.inWidth - (p.extr1 - 1 + (p.strideIn1 - 1) * (p.extr1 - 1)),
      0, p.strideOut1, (p.strideOut2 - 1) * p.OutWidth() + 1,
      p.extr1, p.extr2, p.top, p.bottom, p.left, p.right, transposed)
  }

  /** The pointer walks follow the matrix: source words at their index, targets on stride hits. */
  lemma WalksFollowMatrix(p: Params, transposed: bool, i: int, j: int)
    requires p.Valid()
    ensures SrcAddr(Registers(p, transposed), i, j) == SourceIndex(p, transposed, i, j)
    ensures DstAddr(Registers(p, transposed), i, j) == At(p, i * p.strideOut2, j * p.strideOut1)
  {
    SizesPositive(p);
    MulDistributes(p.strideIn1, 1, p.extr1 - 1);
    MulDistributes(p.strideOut2, 1, p.OutWidth());
    var c := Registers(p, transposed);
    assert c.transposed || (c.size1 - 1) * c.srcInc1 + c.srcInc2 == p.strideIn2 * p.inWidth;
    assert (c.Cols() - 1) * c.dstInc1 + c.dstInc2 == p.strideOut2 * p.OutWidth();
    MulAssociates(i, p.strideOut2, p.OutWidth());
  }

  lemma AtUnique(p: Params, y: int, x: int, y': int, x': int)
    requires p.Valid() && 0 <= x < p.OutWidth() && 0 <= x' < p.OutWidth() && At(p, y, x) == At(p, y', x')
    ensures y == y' && x == x'
  {
    DivModUnique(At(p, y, x), p.OutWidth(), y, x);
    DivModUnique(At(p, y, x), p.OutWidth(), y', x');
  }

  lemma Hit(n: int, s: nat, k: int)
    requires s > 0 && 0 <= k < n * s - (s - 1) && k % s == 0
    ensures 0 <= k / s < n && k / s * s == k
  {
    if k / s >= n { MulMonotone(n, k / s, s); }
  }

  lemma Multiple(n: int, s: nat, a: int)
    requires s > 0 && 0 <= a < n
    ensures 0 <= a * s < n * s - (s - 1) && a * s % s == 0
  {
    MulMonotone(0, a, s);
    MulMonotone(a + 1, n, s);
    MulDistributes(a, 1, s);
    DivModUnique(a * s, s, a, 0);
  }

  /** A place is written exactly when it is a stride hit. */
  lemma HitIsTarget(p: Params, transposed: bool, y: int, x: int)
    requires p.Valid() && InOutput(p, y, x) && y % p.strideOut2 == 0 && x % p.strideOut1 == 0
    ensures var c, i, j := Registers(p, transposed), y / p.strideOut2, x / p.strideOut1;
      InGrid(c, i, j) && DstAddr(c, i, j) == At(p, y, x)
  {
    hide At, DstAddr;
    WalksFollowMatrix(p, transposed, y / p.strideOut2, x / p.strideOut1);
    Hit(p.Rows(), p.strideOut2, y);
    Hit(p.Cols(), p.strideOut1, x);
  }

  lemma GapIsNoTarget(p: Params, transposed: bool, y: int, x: int)
    requires p.Valid() && InOutput(p, y, x) && (y % p.strideOut2 != 0 || x % p.strideOut1 != 0)
    ensures !IsTarget(Registers(p, transposed), At(p, y, x))
  {
    hide At, DstAddr, IsTarget;
    var c := Registers(p, transposed);
    if IsTarget(c, At(p, y, x)) {
      var a, b := TargetOf(c, At(p, y, x));
      WalksFollowMatrix(p, transposed, a, b);
      Multiple(p.Rows(), p.strideOut2, a);
      Multiple(p.Cols(), p.strideOut1, b);
      AtUnique(p, y, x, a * p.strideOut2, b * p.strideOut1);
    }
  }

  lemma TargetOf(c: Config, x: int) returns (i: int, j: int)
    requires IsTarget(c, x)
    ensures InGrid(c, i, j) && DstAddr(c, i, j) == x
  {
    i, j :| InGrid(c, i, j) && DstAddr(c, i, j) == x;
  }

  /** The registers describe a transfer that stays inside both arrays. */
  lemma RegistersFit(p: Params, transposed: bool, n: nat)
    requires p.Valid() && SourceFits(p, transposed, n)
    ensures Reads(Registers(p, transposed), n)
    ensures Writes(Registers(p, transposed), p.OutHeight() * p.OutWidth())
  {
    hide SrcAddr, DstAddr, SourceIndex, At;
    var c := Registers(p, transposed);
    SizesPositive(p);
    MulMonotone(0, p.strideOut2 - 1, p.OutWidth());
    forall i, j | 0 <= i < c.size2 && 0 <= j < c.size1
      ensures 0 <= SrcAddr(c, i, j) < n
    {
      WalksFollowMatrix(p, transposed, i, j);
    }
    WalksFollowMatrix(p, transposed, c.Rows() - 1, c.Cols() - 1);
    AtInRange(p, p.OutHeight() - 1, p.OutWidth() - 1);
  }

  lemma OutputIsCell(p: Params, transposed: bool, src: seq<Word>, y: int, x: int)
    requires p.Valid() && SourceFits(p, transposed, |src|) && InOutput(p, y, x)
    requires y % p.strideOut2 == 0 && x % p.strideOut1 == 0
    ensures Reads(Registers(p, transposed), |src|)
    ensures Output(Registers(p, transposed), src, y / p.strideOut2, x / p.strideOut1) == Cell(p, transposed, src, y, x)
  {
    hide SrcAddr, SourceIndex;
    RegistersFit(p, transposed, |src|);
    WalksFollowMatrix(p, transposed, y / p.strideOut2 - p.top, x / p.strideOut1 - p.left);
  }

  /** Shapes whose increments, sizes and pads fit the registers: strides below eight words along a
      row, rows shorter than 2^20 words. */
  lemma ShapeFitsRegisters(p: Params, transposed: bool)
    requires p.Valid() && p.strideIn1 < 8 && p.strideOut1 < 8 && p.extr1 < 0x1_0000 && p.extr2 < 0x1_0000
    requires p.top < 0x40 && p.bottom < 0x40 && p.left < 0x40 && p.right < 0x40
    requires p.strideIn2 * p.inWidth < 0x10_0000 && p.strideOut2 * p.OutWidth() < 0x10_0000
    ensures FitsRegisters(Registers(p, transposed))
  {
    hide Params.OutWidth;
    SizesPositive(p);
    MulMonotone(0, p.strideIn2, p.inWidth);
    RowIsShort(p.strideIn1, p.extr1 - 1);
    GapIsShort(p.strideOut2, p.OutWidth());
  }

  /** The words that n strides of less than eight go over. */
  lemma RowIsShort(s: nat, n: nat)
    requires s < 8
    ensures 0 <= n + (s - 1) * n <= 7 * n
  {
    MulDistributes(s, 1, n);
    MulMonotone(s, 7, n);
    MulMonotone(0, s, n);
  }

  lemma GapIsShort(s: nat, w: int)
    requires s >= 1 && w >= 1
    ensures 0 <= (s - 1) * w < s * w
  {
    MulDistributes(s, 1, w);
    MulMonotone(0, s - 1, w);
  }

  /** The driver takes the transfer unless the second source increment comes out as zero. */
  lemma AcceptedIff(p: Params, transposed: bool)
    requires p.Valid() && FitsRegisters(Registers(p, transposed))
    ensures Accepted(Registers(p, transposed)) <==> Registers(p, transposed).srcInc2 != 0
  {
    SizesPositive(p);
    MulMonotone(0, p.strideOut2 - 1, p.OutWidth());
    var c := Registers(p, transposed);
    assert c.dstInc2 >= 1;
    Small(c.dstInc2);
    Small(c.srcInc2);
  }

  lemma Small(x: int)
    requires -0x10_0000 <= x < 0x10_0000
    ensures x % 0x1_0000_0000 != 0 <==> x != 0
  {
  }

  /** The copy by one transfer into a cleared array, if all parameters fit their registers. */
  method DmaCopy(src: array<Word>, out: array<Word>, p: Params, transposed: bool) returns (done: bool)
    requires p.Valid() && SourceFits(p, transposed, src.Length) && src != out
    requires FitsRegisters(Registers(p, transposed))
    requires out.Length == p.OutHeight() * p.OutWidth() && forall k :: 0 <= k < out.Length ==> out[k] == 0
    modifies out
    ensures done <==> Registers(p, transposed).srcInc2 != 0
    ensures if done then IsCopy(p, transposed, src[..], out[..]) else out[..] == old(out[..])
  {
    hide SourceFits, Cell, At, DstAddr, SrcAddr, IsTarget, Output, Reads, Writes, InGrid, Programmed, Accepted,
      FitsRegisters;
    RegistersFit(p, transposed, src.Length);
    AcceptedIff(p, transposed);
    ProgrammedIff(Registers(p, transposed));
    done := Launch(src, out, Registers(p, transposed));
    if done {
      forall y, x | InOutput(p, y, x)
        ensures 0 <= At(p, y, x) < out.Length && out[At(p, y, x)] == Cell(p, transposed, src[..], y, x)
      {
        AtInRange(p, y, x);
        if y % p.strideOut2 == 0 && x % p.strideOut1 == 0 {
          HitIsTarget(p, transposed, y, x);
          OutputIsCell(p, transposed, src[..], y, x);
        } else {
          GapIsNoTarget(p, transposed, y, x);
          GapCell(p, transposed, src[..], y, x);
        }
      }
    }
  }

  lemma GapCell(p: Params, transposed: bool, src: seq<Word>, y: int, x: int)
    requires p.Valid() && SourceFits(p, transposed, |src|)
    requires y % p.strideOut2 != 0 || x % p.strideOut1 != 0
    ensures Cell(p, transposed, src, y, x) == 0
  {
  }

  /** The example's check, for parameters that fit the registers: when the driver takes the transfer,
      the DMA writes the matrix, and the CPU's array is the same if and only if its counters have led to
      the same cells. */
  method CopyBoth(src: array<Word>, dma: array<Word>, cpu: array<Word>, p: Params, transposed: bool)
    returns (done: bool)
    requires p.Valid() && SourceFits(p, transposed, src.Length) && src != dma && src != cpu && dma != cpu
    requires FitsRegisters(Registers(p, transposed))
    requires dma.Length == cpu.Length == p.OutHeight() * p.OutWidth() && forall k :: 0 <= k < dma.Length ==> dma[k] == 0
    modifies dma, cpu
    ensures done <==> Registers(p, transposed).srcInc2 != 0
    ensures IsCpuCopy(p, transposed, src[..], cpu[..])
    ensures done ==> IsCopy(p, transposed, src[..], dma[..])
    ensures done ==> (dma[..] == cpu[..] <==> SameCells(p, transposed, src[..]))
    ensures done && CountersSuffice(p) ==> dma[..] == cpu[..]
  {
    hide FitsRegisters, SourceFits, IsCopy, IsCpuCopy, SameCells, CountersSuffice;
    PadsFit(Registers(p, transposed));
    done := DmaCopy(src, dma, p, transposed);
    CpuCopy(src, cpu, p, transposed);
    if done {
      SameArrays(p, transposed, src[..], dma[..], cpu[..]);
      if CountersSuffice(p) { SameIfCountersSuffice(p, transposed, src[..]); }
    }
  }

  lemma PadsFit(c: Config)
    requires FitsRegisters(c)
    ensures c.left < 0x40 && c.top < 0x40
  {
  }

  lemma SameArrays(p: Params, transposed: bool, src: seq<Word>, a: seq<Word>, b: seq<Word>)
    requires p.Valid() && SourceFits(p, transposed, |src|)
    requires IsCopy(p, transposed, src, a) && IsCpuCopy(p, transposed, src, b)
    ensures a == b <==> SameCells(p, transposed, src)
  {
    hide At, Cell, CpuCell, SourceFits;
    if SameCells(p, transposed, src) {
      forall k | 0 <= k < |a|
        ensures a[k] == b[k]
      {
        var y, x := Place(p, k);
      }
    }
    if a == b {
      forall y, x | InOutput(p, y, x)
        ensures CpuCell(p, transposed, src, y, x) == Cell(p, transposed, src, y, x)
      {
        assert a[At(p, y, x)] == b[At(p, y, x)];
      }
    }
  }
}
