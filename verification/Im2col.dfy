/// im2col on an NCHW image (im2col_lib.c): the loop nest of the CPU and the version
/// that runs one padded two-dimensional DMA transfer per output row block.  Both
/// write the same matrix.

module Im2col {
  import opened Arithmetic
  import opened Dma

  /** Sizes, strides and pads; D1 is along the width, D2 along the height. */
  datatype Shape = Shape(
    batch: nat, ch: nat, ih: nat, iw: nat, fh: nat, fw: nat,
    strideD1: nat, strideD2: nat,
    top: nat, bottom: nat, left: nat, right: nat)
  {
    predicate Valid() {
      && fh > 0 && fw > 0 && strideD1 > 0 && strideD2 > 0
      && fh <= ih + top + bottom && fw <= iw + left + right
    }

    function PatchesH(): (n: int)
      requires Valid()
    {
      (ih + (top + bottom) - fh) / strideD2 + 1
    }

    function PatchesW(): (n: int)
      requires Valid()
    {
      (iw + (right + left) - fw) / strideD1 + 1
    }

    function LastPatchH(): int
      requires Valid()
    {
      strideD2 * (PatchesH() - 1) - top - ih
    }

    function LastPatchW(): int
      requires Valid()
    {
      strideD1 * (PatchesW() - 1) - left - iw
    }

    function ChCol(): nat { ch * fh * fw }

    function ImageSize(): int { batch * ch * ih * iw }

    function OutputSize(): int
      requires Valid()
    {
      ChCol() * batch * PatchesH() * PatchesW()
    }

    function WOffset(c: nat): nat
      requires Valid()
    {
      c % fw
    }

    function HOffset(c: nat): nat
      requires Valid()
    {
      c / fw % fh
    }

    function Channel(c: nat): nat
      requires Valid()
    {
      FilterPositive(fh, fw);
      c / (fh * fw)
    }
  }

  lemma FilterPositive(a: nat, b: nat)
    requires a > 0 && b > 0
    ensures a * b > 0
  {
  }

  function GetIndex(dim1: int, dim2: int, dim3: int, index0: int, index1: int, index2: int, index3: int): int {
    ((index0 * dim1 + index1) * dim2 + index2) * dim3 + index3
  }

  // --------------------------------------------------------------- indices

  lemma PairInRange(n: nat, m: nat, i: int, j: int)
    requires 0 <= i < n && 0 <= j < m
    ensures 0 <= i * m + j < n * m
  {
    MulMonotone(i + 1, n, m);
    MulMonotone(0, i, m);
    MulDistributes(i, 1, m);
  }

  lemma PairOf(n: nat, m: nat, k: int) returns (i: int, j: int)
    requires 0 <= k < n * m
    ensures 0 <= i < n && 0 <= j < m && k == i * m + j
  {
    i, j := k / m, k % m;
    if i >= n { MulMonotone(n, i, m); }
  }

  lemma PairOrdered(m: nat, i: int, j: int, k: int)
    requires i < k && 0 <= j < m
    ensures i * m + j < k * m
  {
    MulMonotone(i + 1, k, m);
    MulDistributes(i, 1, m);
  }

  lemma ImageIndexInRange(p: Shape, b: int, c: int, row: int, col: int)
    requires 0 <= b < p.batch && 0 <= c < p.ch && 0 <= row < p.ih && 0 <= col < p.iw
    ensures 0 <= GetIndex(p.ch, p.ih, p.iw, b, c, row, col) < p.ImageSize()
  {
    var i := b * p.ch + c;
    PairInRange(p.batch, p.ch, b, c);
    PairInRange(p.batch * p.ch, p.ih, i, row);
    PairInRange(p.batch * p.ch * p.ih, p.iw, i * p.ih + row, col);
  }

  /** Where the value of output row block (c, b), patch (h, w) is stored. */
  function OutIndex(p: Shape, c: int, b: int, h: int, w: int): int
    requires p.Valid()
  {
    GetIndex(p.batch, p.PatchesH(), p.PatchesW(), c, b, h, w)
  }

  predicate InBlock(p: Shape, h: int, w: int)
    requires p.Valid()
  {
    0 <= h < p.PatchesH() && 0 <= w < p.PatchesW()
  }

  lemma PatchesPositive(p: Shape)
    requires p.Valid()
    ensures p.PatchesH() >= 1 && p.PatchesW() >= 1
  {
  }

  lemma OutIndexInRange(p: Shape, c: int, b: int, h: int, w: int)
    requires p.Valid() && 0 <= c < p.ChCol() && 0 <= b < p.batch && InBlock(p, h, w)
    ensures 0 <= OutIndex(p, c, b, h, w) < p.OutputSize()
  {
    PatchesPositive(p);
    var n, m := p.PatchesH(), p.PatchesW();
    PairInRange(p.ChCol(), p.batch, c, b);
    PairInRange(p.ChCol() * p.batch, n, c * p.batch + b, h);
    PairInRange(p.ChCol() * p.batch * n, m, (c * p.batch + b) * n + h, w);
  }

  lemma OutIndexSteps(p: Shape, c: int, b: int, h: int, w: int)
    requires p.Valid()
    ensures OutIndex(p, c, b, h, w) == OutIndex(p, c, b, 0, 0) + h * p.PatchesW() + w
    ensures OutIndex(p, c, b + 1, 0, 0) == OutIndex(p, c, b, 0, 0) + p.PatchesH() * p.PatchesW()
    ensures OutIndex(p, c + 1, 0, 0, 0) == OutIndex(p, c, p.batch, 0, 0)
  {
    var n, m, k := p.PatchesH(), p.PatchesW(), c * p.batch + b;
    MulDistributes(k * n, h, m);
    MulDistributes(k, 1, n);
    MulDistributes((k + 1) * n, -n, m);
    MulDistributes(k * n, n, m);
    MulDistributes(c, 1, p.batch);
  }

  predicate BlockBefore(c: int, b: int, c': int, b': int) { c < c' || (c == c' && b < b') }

  lemma BlocksApart(p: Shape, c: int, b: int, h: int, w: int, c': int, b': int)
    requires p.Valid() && 0 <= b < p.batch && 0 <= b' && InBlock(p, h, w) && BlockBefore(c, b, c', b')
    ensures OutIndex(p, c, b, h, w) < OutIndex(p, c', b', 0, 0)
  {
    PatchesPositive(p);
    var n, m, k, k' := p.PatchesH(), p.PatchesW(), c * p.batch + b, c' * p.batch + b';
    if c < c' { PairOrdered(p.batch, c, b, c'); }
    PairOrdered(n, k, h, k');
    PairOrdered(m, k * n + h, w, k' * n);
  }

  // ------------------------------------------------------------ the matrix

  function Row(p: Shape, c: nat, h: int): int
    requires p.Valid()
  {
    p.HOffset(c) + h * p.strideD2 - p.top
  }

  function Col(p: Shape, c: nat, w: int): int
    requires p.Valid()
  {
    p.WOffset(c) + w * p.strideD1 - p.left
  }

  /** The value for filter position c, image b, patch (h, w). */
  function Value(p: Shape, image: seq<Word>, c: nat, b: nat, h: int, w: int): Word
    requires p.Valid() && |image| == p.ImageSize() && c < p.ChCol() && b < p.batch
  {
    var row, col := Row(p, c, h), Col(p, c, w);
    if row < 0 || col < 0 || row >= p.ih || col >= p.iw then 0
    else
      ChannelInRange(p, c);
      ImageIndexInRange(p, b, p.Channel(c), row, col);
      image[GetIndex(p.ch, p.ih, p.iw, b, p.Channel(c), row, col)]
  }

  lemma ChannelInRange(p: Shape, c: nat)
    requires p.Valid() && c < p.ChCol()
    ensures p.Channel(c) < p.ch
  {
    FilterPositive(p.fh, p.fw);
    var q, n := p.Channel(c), p.fh * p.fw;
    assert p.ChCol() == p.ch * n;
    if q >= p.ch { MulMonotone(p.ch, q, n); }
  }

  ghost predicate BlockDone(p: Shape, image: seq<Word>, out: seq<Word>, c: nat, b: nat)
    requires p.Valid() && |image| == p.ImageSize() && c < p.ChCol() && b < p.batch
  {
    forall h, w :: InBlock(p, h, w) ==>
      0 <= OutIndex(p, c, b, h, w) < |out| && out[OutIndex(p, c, b, h, w)] == Value(p, image, c, b, h, w)
  }

  ghost predicate IsIm2col(p: Shape, image: seq<Word>, out: seq<Word>)
    requires p.Valid() && |image| == p.ImageSize()
  {
    |out| == p.OutputSize() && forall c: nat, b: nat :: c < p.ChCol() && b < p.batch ==> BlockDone(p, image, out, c, b)
  }

  /** Every place of the output belongs to one block and one patch. */
  lemma PlaceOf(p: Shape, k: int) returns (c: int, b: int, h: int, w: int)
    requires p.Valid() && 0 <= k < p.OutputSize()
    ensures 0 <= c < p.ChCol() && 0 <= b < p.batch && InBlock(p, h, w) && k == OutIndex(p, c, b, h, w)
  {
    PatchesPositive(p);
    var i, j;
    MulMonotone(0, p.ChCol(), p.batch);
    MulMonotone(0, p.ChCol() * p.batch, p.PatchesH());
    i, w := PairOf(p.ChCol() * p.batch * p.PatchesH(), p.PatchesW(), k);
    j, h := PairOf(p.ChCol() * p.batch, p.PatchesH(), i);
    c, b := PairOf(p.ChCol(), p.batch, j);
  }

  /** The matrix is determined, so two ways of computing it fill the same array. */
  lemma Im2colUnique(p: Shape, image: seq<Word>, x: seq<Word>, y: seq<Word>)
    requires p.Valid() && |image| == p.ImageSize() && IsIm2col(p, image, x) && IsIm2col(p, image, y)
    ensures x == y
  {
    hide OutIndex, InBlock, Value;
    forall k | 0 <= k < |x|
      ensures x[k] == y[k]
    {
      var c, b, h, w := PlaceOf(p, k);
      assert BlockDone(p, image, x, c, b) && BlockDone(p, image, y, c, b);
    }
  }

  // ------------------------------------------------------------ its meaning

  /** n placements, stride apart, are all that fit: the last one ends inside, one more would not. */
  predicate AllPlacements(n: int, stride: nat, filter: nat, padded: int) {
    n >= 1 && Times(stride, n - 1) + filter <= padded < Times(stride, n) + filter
  }

  function Times(x: int, y: int): int { x * y }

  lemma TimesOrdered(s: nat, a: int, b: int)
    ensures a <= b ==> Times(s, a) <= Times(s, b)
    ensures s > 0 && Times(s, a) < Times(s, b) ==> a < b
  {
    if a <= b { MulMonotone(a, b, s); } else { MulMonotone(b, a, s); }
  }

  lemma QuotientPlacements(stride: nat, filter: nat, padded: int)
    requires stride > 0 && filter <= padded
    ensures AllPlacements((padded - filter) / stride + 1, stride, filter, padded)
  {
    var x := padded - filter;
    var q, r := x / stride, x % stride;
    assert x == stride * q + r;
    MulDistributes(q, 1, stride);
    assert Times(stride, q + 1) == Times(stride, q) + stride;
  }

  /** Only one number of placements is all of them. */
  lemma PlacementsUnique(n: int, m: int, stride: nat, filter: nat, padded: int)
    requires stride > 0 && AllPlacements(n, stride, filter, padded) && AllPlacements(m, stride, filter, padded)
    ensures n == m
  {
    TimesOrdered(stride, n - 1, m);
    TimesOrdered(stride, m - 1, n);
  }

  /** The macros count all placements of the filter on the padded image, and no more. */
  lemma PatchesAreAll(p: Shape)
    requires p.Valid()
    ensures p.strideD1 * (p.PatchesW() - 1) + p.fw <= p.iw + p.left + p.right < p.strideD1 * p.PatchesW() + p.fw
    ensures p.strideD2 * (p.PatchesH() - 1) + p.fh <= p.ih + p.top + p.bottom < p.strideD2 * p.PatchesH() + p.fh
    ensures forall w: nat :: w < p.PatchesW() <==> Times(p.strideD1, w) + p.fw <= p.iw + p.left + p.right
    ensures forall h: nat :: h < p.PatchesH() <==> Times(p.strideD2, h) + p.fh <= p.ih + p.top + p.bottom
  {
    QuotientPlacements(p.strideD1, p.fw, p.iw + (p.right + p.left));
    QuotientPlacements(p.strideD2, p.fh, p.ih + (p.top + p.bottom));
    forall w: nat
      ensures w < p.PatchesW() <==> Times(p.strideD1, w) + p.fw <= p.iw + p.left + p.right
    {
      TimesOrdered(p.strideD1, w, p.PatchesW() - 1);
      TimesOrdered(p.strideD1, p.PatchesW(), w);
    }
    forall h: nat
      ensures h < p.PatchesH() <==> Times(p.strideD2, h) + p.fh <= p.ih + p.top + p.bottom
    {
      TimesOrdered(p.strideD2, h, p.PatchesH() - 1);
      TimesOrdered(p.strideD2, p.PatchesH(), h);
    }
  }

  /** The filter position of channel ci, filter row i and filter column j. */
  lemma ElementOf(p: Shape, ci: nat, i: nat, j: nat)
    requires p.Valid() && ci < p.ch && i < p.fh && j < p.fw
    ensures var c := (ci * p.fh + i) * p.fw + j;
      0 <= c < p.ch * p.fh * p.fw && p.Channel(c) == ci && p.HOffset(c) == i && p.WOffset(c) == j
  {
    var r := ci * p.fh + i;
    var c := r * p.fw + j;
    PairInRange(p.ch, p.fh, ci, i);
    PairInRange(p.ch * p.fh, p.fw, r, j);
    DivModUnique(c, p.fw, r, j);
    DivModUnique(r, p.fh, ci, i);
    PairInRange(p.fh, p.fw, i, j);
    MulDistributes(ci * p.fh, i, p.fw);
    MulAssociates(ci, p.fh, p.fw);
    FilterPositive(p.fh, p.fw);
    DivModUnique(c, p.fh * p.fw, ci, i * p.fw + j);
  }

  /** The matrix in terms of channels, filter rows and columns, images and placements, where n and m are the
      numbers of all placements along the height and the width: the row for (ci, i, j, b) has at place (h, w) what
      image b shows under that filter element when the filter is placed there, and 0 where it sticks out. */
  lemma Im2colMeaning(p: Shape, image: seq<Word>, out: seq<Word>, n: int, m: int,
                      ci: nat, i: nat, j: nat, b: nat, h: nat, w: nat)
    requires p.Valid() && |image| == p.ImageSize() && IsIm2col(p, image, out)
    requires AllPlacements(n, p.strideD2, p.fh, p.ih + p.top + p.bottom)
    requires AllPlacements(m, p.strideD1, p.fw, p.iw + p.left + p.right)
    requires ci < p.ch && i < p.fh && j < p.fw && b < p.batch && h < n && w < m
    ensures |out| == p.ch * p.fh * p.fw * p.batch * n * m
    ensures var place := ((((ci * p.fh + i) * p.fw + j) * p.batch + b) * n + h) * m + w;
      var row, col := i + h * p.strideD2 - p.top, j + w * p.strideD1 - p.left;
      && 0 <= place < |out|
      && if 0 <= row < p.ih && 0 <= col < p.iw
         then var at := ((b * p.ch + ci) * p.ih + row) * p.iw + col; 0 <= at < |image| && out[place] == image[at]
         else out[place] == 0
  {
    QuotientPlacements(p.strideD1, p.fw, p.iw + (p.right + p.left));
    QuotientPlacements(p.strideD2, p.fh, p.ih + (p.top + p.bottom));
    PlacementsUnique(n, p.PatchesH(), p.strideD2, p.fh, p.ih + p.top + p.bottom);
    PlacementsUnique(m, p.PatchesW(), p.strideD1, p.fw, p.iw + p.left + p.right);
    ElementOf(p, ci, i, j);
    var c := (ci * p.fh + i) * p.fw + j;
    assert BlockDone(p, image, out, c, b);
    assert InBlock(p, h, w);
    ValueAt(p, image, c, b, h, w);
  }

  lemma ValueAt(p: Shape, image: seq<Word>, c: nat, b: nat, h: nat, w: nat)
    requires p.Valid() && |image| == p.ImageSize() && c < p.ChCol() && b < p.batch
    ensures var row, col := p.HOffset(c) + h * p.strideD2 - p.top, p.WOffset(c) + w * p.strideD1 - p.left;
      if 0 <= row < p.ih && 0 <= col < p.iw then
        var at := ((b * p.ch + p.Channel(c)) * p.ih + row) * p.iw + col;
        0 <= at < |image| && Value(p, image, c, b, h, w) == image[at]
      else Value(p, image, c, b, h, w) == 0
  {
    var row, col := Row(p, c, h), Col(p, c, w);
    ChannelInRange(p, c);
    if 0 <= row < p.ih && 0 <= col < p.iw { ImageIndexInRange(p, b, p.Channel(c), row, col); }
  }

  // ---------------------------------------------------------- the CPU branch

  /** All patches of one filter position and image. */
  method CpuBlock(p: Shape, image: array<Word>, out: array<Word>, c: nat, b: nat, wOffset: nat, hOffset: nat, imC: nat)
    requires p.Valid() && image.Length == p.ImageSize() && out.Length == p.OutputSize() && image != out
    requires c < p.ChCol() && b < p.batch
    requires wOffset == p.WOffset(c) && hOffset == p.HOffset(c) && imC == p.Channel(c)
    modifies out
    ensures BlockDone(p, image[..], out[..], c, b)
    ensures forall k :: 0 <= k < OutIndex(p, c, b, 0, 0) && k < out.Length ==> out[k] == old(out[k])
  {
    hide OutIndex, GetIndex;
    ghost var base := OutIndex(p, c, b, 0, 0);
    var h := 0;
    while h < p.PatchesH()
      invariant 0 <= h
      invariant forall y, x :: InBlock(p, y, x) && y < h ==>
        0 <= OutIndex(p, c, b, y, x) < out.Length && out[OutIndex(p, c, b, y, x)] == Value(p, image[..], c, b, y, x)
      invariant forall k :: 0 <= k < base && k < out.Length ==> out[k] == old(out[k])
    {
      CpuPatchRow(p, image, out, c, b, h, wOffset, hOffset, imC);
      forall y, x | InBlock(p, y, x) && y < h
        ensures OutIndex(p, c, b, y, x) < OutIndex(p, c, b, h, 0)
      {
        PatchRowsApart(p, c, b, y, x, h);
      }
      BlockStart(p, c, b, h);
      h := h + 1;
    }
  }

  lemma PatchRowsApart(p: Shape, c: int, b: int, y: int, x: int, h: int)
    requires p.Valid() && InBlock(p, y, x) && y < h
    ensures OutIndex(p, c, b, y, x) < OutIndex(p, c, b, h, 0)
  {
    hide OutIndex;
    OutIndexSteps(p, c, b, y, x);
    OutIndexSteps(p, c, b, h, 0);
    PairOrdered(p.PatchesW(), y, x, h);
  }

  lemma BlockStart(p: Shape, c: int, b: int, h: int)
    requires p.Valid() && h >= 0
    ensures OutIndex(p, c, b, 0, 0) <= OutIndex(p, c, b, h, 0)
  {
    hide OutIndex;
    PatchesPositive(p);
    OutIndexSteps(p, c, b, h, 0);
    MulMonotone(0, h, p.PatchesW());
  }

  /** The innermost loop: one row of patches. */
  method CpuPatchRow(p: Shape, image: array<Word>, out: array<Word>, c: nat, b: nat, h: nat, wOffset: nat,
                     hOffset: nat, imC: nat)
    requires p.Valid() && image.Length == p.ImageSize() && out.Length == p.OutputSize() && image != out
    requires c < p.ChCol() && b < p.batch && h < p.PatchesH()
    requires wOffset == p.WOffset(c) && hOffset == p.HOffset(c) && imC == p.Channel(c)
    modifies out
    ensures forall x :: 0 <= x < p.PatchesW() ==>
      0 <= OutIndex(p, c, b, h, x) < out.Length && out[OutIndex(p, c, b, h, x)] == Value(p, image[..], c, b, h, x)
    ensures forall k :: 0 <= k < OutIndex(p, c, b, h, 0) && k < out.Length ==> out[k] == old(out[k])
  {
    hide OutIndex, GetIndex;
    ghost var base := OutIndex(p, c, b, h, 0);
    OutIndexSteps(p, c, b, h, 0);
    var w := 0;
    while w < p.PatchesW()
      invariant 0 <= w
      invariant forall x :: 0 <= x < w && x < p.PatchesW() ==>
        0 <= OutIndex(p, c, b, h, x) == base + x < out.Length
        && out[OutIndex(p, c, b, h, x)] == Value(p, image[..], c, b, h, x)
      invariant forall k :: 0 <= k < base && k < out.Length ==> out[k] == old(out[k])
    {
      var imRow := hOffset + h * p.strideD2 - p.top;
      var imCol := wOffset + w * p.strideD1 - p.left;
      var colIndex := OutIndex(p, c, b, h, w);
      OutIndexSteps(p, c, b, h, w);
      OutIndexInRange(p, c, b, h, w);
      if imRow < 0 || imCol < 0 || imRow >= p.ih || imCol >= p.iw {
        out[colIndex] := 0;
      } else {
        ChannelInRange(p, c);
        ImageIndexInRange(p, b, imC, imRow, imCol);
        out[colIndex] := image[GetIndex(p.ch, p.ih, p.iw, b, imC, imRow, imCol)];
      }
      w := w + 1;
    }
  }

  /** Everything done before block (c, b). */
  ghost predicate DoneBefore(p: Shape, image: seq<Word>, out: seq<Word>, c: nat, b: nat)
    requires p.Valid() && |image| == p.ImageSize()
  {
    forall c': nat, b': nat :: c' < p.ChCol() && b' < p.batch && BlockBefore(c', b', c, b) ==>
      BlockDone(p, image, out, c', b')
  }

  /** A block that leaves everything before it alone adds itself to what is done. */
  lemma OneMoreBlock(p: Shape, image: seq<Word>, before: seq<Word>, out: seq<Word>, c: nat, b: nat)
    requires p.Valid() && |image| == p.ImageSize() && c < p.ChCol() && b < p.batch && |before| == |out|
    requires DoneBefore(p, image, before, c, b) && BlockDone(p, image, out, c, b)
    requires forall k :: 0 <= k < OutIndex(p, c, b, 0, 0) && k < |out| ==> out[k] == before[k]
    ensures DoneBefore(p, image, out, c, b + 1)
  {
    hide OutIndex, InBlock, Value;
    forall c': nat, b': nat | c' < p.ChCol() && b' < p.batch && BlockBefore(c', b', c, b)
      ensures BlockDone(p, image, out, c', b')
    {
      assert BlockDone(p, image, before, c', b');
      forall h, w | InBlock(p, h, w)
        ensures 0 <= OutIndex(p, c', b', h, w) < |out|
        ensures out[OutIndex(p, c', b', h, w)] == Value(p, image, c', b', h, w)
      {
        BlocksApart(p, c', b', h, w, c, b);
      }
    }
  }

  /** The loop nest of test 0. */
  method Im2colCpu(p: Shape, image: array<Word>, out: array<Word>)
    requires p.Valid() && image.Length == p.ImageSize() && out.Length == p.OutputSize() && image != out
    modifies out
    ensures IsIm2col(p, image[..], out[..])
  {
    hide OutIndex, BlockDone, GetIndex;
    FilterPositive(p.fh, p.fw);
    var c := 0;
    while c < p.ChCol()
      invariant 0 <= c && DoneBefore(p, image[..], out[..], c, 0)
    {
      var wOffset, hOffset, imC := c % p.fw, c / p.fw % p.fh, c / (p.fh * p.fw);
      var b := 0;
      while b < p.batch
        invariant 0 <= b && DoneBefore(p, image[..], out[..], c, b)
      {
        ghost var before := out[..];
        CpuBlock(p, image, out, c, b, wOffset, hOffset, imC);
        OneMoreBlock(p, image[..], before, out[..], c, b);
        b := b + 1;
      }
      c := c + 1;
    }
  }

  // --------------------------------------------------------- the zero counts

  /** Zeros before the image, for a filter offset. */
  function ZerosBefore(pad: nat, offset: nat, stride: nat): (n: nat)
    requires stride > 0
  {
    if offset >= pad then 0 else 1 + (pad - offset - 1) / stride
  }

  /** Zeros behind the image; `last' is the first column of the last patch minus the width. */
  function ZerosAfter(last: int, offset: nat, stride: nat): (n: nat)
    requires stride > 0
  {
    if last + offset + 1 <= 0 then 0 else 1 + (last + offset) / stride
  }

  lemma QuotientBound(x: int, k: int, s: nat)
    requires s > 0
    ensures k * s <= x <==> k <= x / s
  {
    if k <= x / s { MulMonotone(k, x / s, s); } else { MulMonotone(x / s + 1, k, s); MulDistributes(x / s, 1, s); }
  }

  lemma ZerosInFront(pad: nat, offset: nat, stride: nat, i: nat)
    requires stride > 0
    ensures offset + i * stride - pad < 0 <==> i < ZerosBefore(pad, offset, stride)
  {
    MulMonotone(0, i, stride);
    if offset < pad { QuotientBound(pad - offset - 1, i, stride); }
  }

  lemma ZerosBehind(last: int, offset: nat, stride: nat, back: nat)
    requires stride > 0
    ensures back * stride <= last + offset <==> back < ZerosAfter(last, offset, stride)
  {
    MulMonotone(0, back, stride);
    if last + offset >= 0 { QuotientBound(last + offset, back, stride); }
  }

  /** Along one dimension, patch i lies before the image exactly if it is one of the first zeros,
      and behind it exactly if it is one of the last. */
  lemma ZeroCounts(pad: nat, size: nat, offset: nat, stride: nat, patches: int, i: int)
    requires stride > 0 && 0 <= i < patches
    ensures var x, last := offset + i * stride - pad, stride * (patches - 1) - pad - size;
      && (x < 0 <==> i < ZerosBefore(pad, offset, stride))
      && (x >= size <==> i >= patches - ZerosAfter(last, offset, stride))
  {
    hide ZerosBefore, ZerosAfter;
    ZerosInFront(pad, offset, stride, i);
    ZerosBehind(stride * (patches - 1) - pad - size, offset, stride, patches - 1 - i);
    MulDistributes(patches - 1, i, stride);
  }

  function Transferred(pad: nat, size: nat, offset: nat, stride: nat, patches: int): int
    requires stride > 0
  {
    patches - ZerosBefore(pad, offset, stride) - ZerosAfter(stride * (patches - 1) - pad - size, offset, stride)
  }

  /** Patch i reads inside the image. */
  predicate Meets(pad: nat, size: nat, offset: nat, stride: nat, i: int) { 0 <= offset + i * stride - pad < size }

  ghost predicate Reaches(pad: nat, size: nat, offset: nat, stride: nat, patches: int) {
    exists i :: 0 <= i < patches && Meets(pad, size, offset, stride, i)
  }

  /** A transfer is not empty exactly when some patch reaches the image at this filter offset. */
  lemma NonemptyIff(pad: nat, size: nat, offset: nat, stride: nat, patches: int)
    requires stride > 0 && patches >= 1
    ensures Transferred(pad, size, offset, stride, patches) >= 1 <==> Reaches(pad, size, offset, stride, patches)
  {
    hide ZerosBefore, ZerosAfter;
    var n := ZerosBefore(pad, offset, stride);
    if Transferred(pad, size, offset, stride, patches) >= 1 {
      ZeroCounts(pad, size, offset, stride, patches, n);
      assert Meets(pad, size, offset, stride, n);
    }
    if i :| 0 <= i < patches && Meets(pad, size, offset, stride, i) {
      ZeroCounts(pad, size, offset, stride, patches, i);
    }
  }

  // ---------------------------------------------------------- the DMA branch

  function SizeW(p: Shape, c: nat): int
    requires p.Valid()
  {
    Transferred(p.left, p.iw, p.WOffset(c), p.strideD1, p.PatchesW())
  }

  function SizeH(p: Shape, c: nat): int
    requires p.Valid()
  {
    Transferred(p.top, p.ih, p.HOffset(c), p.strideD2, p.PatchesH())
  }

  /** Every transfer moves at least one word. */
  predicate NoEmptyTransfer(p: Shape)
    requires p.Valid()
  {
    forall c: nat :: c < p.ChCol() ==> SizeW(p, c) >= 1 && SizeH(p, c) >= 1
  }

  /** The registers of the transfer for filter position c and image b. */
  function BlockConfig(p: Shape, c: nat, b: nat): Config
    requires p.Valid() && SizeW(p, c) >= 1 && SizeH(p, c) >= 1
  {
    var left := ZerosBefore(p.left, p.WOffset(c), p.strideD1);
    var top := ZerosBefore(p.top, p.HOffset(c), p.strideD2);
    Config(
      GetIndex(p.ch, p.ih, p.iw, b, p.Channel(c),
               p.HOffset(c) - p.top + top * p.strideD2, p.WOffset(c) - p.left + left * p.strideD1),
      p.strideD1, p.strideD2 * p.iw - (SizeW(p, c) - 1 + (p.strideD1 - 1) * (SizeW(p, c) - 1)),
      OutIndex(p, c, b, 0, 0), 1, 1,
      SizeW(p, c), SizeH(p, c),
      top, ZerosAfter(p.LastPatchH(), p.HOffset(c), p.strideD2),
      left, ZerosAfter(p.LastPatchW(), p.WOffset(c), p.strideD1),
      false)
  }

  lemma GridOfImage(p: Shape, b: int, c: int, row: int, col: int, i: int, j: int)
    ensures GetIndex(p.ch, p.ih, p.iw, b, c, row, col) + i * (p.strideD2 * p.iw) + j * p.strideD1
         == GetIndex(p.ch, p.ih, p.iw, b, c, row + i * p.strideD2, col + j * p.strideD1)
  {
    var k := (b * p.ch + c) * p.ih + row;
    MulDistributes(k, i * p.strideD2, p.iw);
    assert i * (p.strideD2 * p.iw) == (i * p.strideD2) * p.iw;
  }

  lemma SrcIncrement(p: Shape, n: int)
    ensures (n - 1) * p.strideD1 + (p.strideD2 * p.iw - (n - 1 + (p.strideD1 - 1) * (n - 1))) == p.strideD2 * p.iw
  {
    MulDistributes(p.strideD1, 1, n - 1);
  }

  /** The read pointer visits the image words of the patches inside the image. */
  lemma SourceWalk(p: Shape, c: nat, b: nat, i: int, j: int)
    requires p.Valid() && SizeW(p, c) >= 1 && SizeH(p, c) >= 1
    ensures var cfg := BlockConfig(p, c, b);
      SrcAddr(cfg, i, j) == GetIndex(p.ch, p.ih, p.iw, b, p.Channel(c), Row(p, c, cfg.top + i), Col(p, c, cfg.left + j))
  {
    hide GetIndex, OutIndex, SizeW, SizeH, ZerosBefore, ZerosAfter, Shape.Channel, Shape.WOffset, Shape.HOffset;
    var cfg := BlockConfig(p, c, b);
    SrcIncrement(p, cfg.size1);
    var row, col := p.HOffset(c) - p.top + cfg.top * p.strideD2, p.WOffset(c) - p.left + cfg.left * p.strideD1;
    GridOfImage(p, b, p.Channel(c), row, col, i, j);
    MulDistributes(cfg.top, i, p.strideD2);
    MulDistributes(cfg.left, j, p.strideD1);
    assert Row(p, c, cfg.top + i) == row + i * p.strideD2;
    assert Col(p, c, cfg.left + j) == col + j * p.strideD1;
  }

  /** The transfer has one word per patch, stored where the patch belongs. */
  lemma TargetWalk(p: Shape, c: nat, b: nat, h: int, w: int)
    requires p.Valid() && SizeW(p, c) >= 1 && SizeH(p, c) >= 1
    ensures var cfg := BlockConfig(p, c, b);
      cfg.Rows() == p.PatchesH() && cfg.Cols() == p.PatchesW() && DstAddr(cfg, h, w) == OutIndex(p, c, b, h, w)
  {
    hide GetIndex, OutIndex, ZerosBefore, ZerosAfter, Shape.Channel, Shape.WOffset, Shape.HOffset, Shape.PatchesH,
      Shape.PatchesW;
    OutIndexSteps(p, c, b, h, w);
    assert BlockConfig(p, c, b).Rows() == p.PatchesH() && BlockConfig(p, c, b).Cols() == p.PatchesW();
  }

  /** The padding covers exactly the patches outside the image. */
  lemma PaddingIsOutside(p: Shape, c: nat, b: nat, h: int, w: int)
    requires p.Valid() && SizeW(p, c) >= 1 && SizeH(p, c) >= 1 && InBlock(p, h, w)
    ensures Inside(BlockConfig(p, c, b), h, w) <==> 0 <= Row(p, c, h) < p.ih && 0 <= Col(p, c, w) < p.iw
  {
    hide GetIndex, OutIndex, ZerosBefore, ZerosAfter, Shape.Channel, Shape.WOffset, Shape.HOffset, Shape.PatchesH,
      Shape.PatchesW;
    ZeroCounts(p.left, p.iw, p.WOffset(c), p.strideD1, p.PatchesW(), w);
    ZeroCounts(p.top, p.ih, p.HOffset(c), p.strideD2, p.PatchesH(), h);
  }

  lemma TransferFits(p: Shape, c: nat, b: nat)
    requires p.Valid() && SizeW(p, c) >= 1 && SizeH(p, c) >= 1 && c < p.ChCol() && b < p.batch
    ensures Reads(BlockConfig(p, c, b), p.ImageSize()) && Writes(BlockConfig(p, c, b), p.OutputSize())
  {
    hide GetIndex, OutIndex, SrcAddr, DstAddr, SizeW, SizeH, ZerosBefore, ZerosAfter, Row, Col,
      Shape.Channel, Shape.PatchesH, Shape.PatchesW;
    var cfg := BlockConfig(p, c, b);
    PatchesPositive(p);
    TargetWalk(p, c, b, 0, 0);
    ChannelInRange(p, c);
    forall i, j | 0 <= i < cfg.size2 && 0 <= j < cfg.size1
      ensures 0 <= SrcAddr(cfg, i, j) < p.ImageSize()
    {
      SourceWalk(p, c, b, i, j);
      PaddingIsOutside(p, c, b, cfg.top + i, cfg.left + j);
      ImageIndexInRange(p, b, p.Channel(c), Row(p, c, cfg.top + i), Col(p, c, cfg.left + j));
    }
    OutIndexInRange(p, c, b, 0, 0);
    TargetWalk(p, c, b, p.PatchesH() - 1, p.PatchesW() - 1);
    OutIndexInRange(p, c, b, p.PatchesH() - 1, p.PatchesW() - 1);
  }

  lemma OutputIsValue(p: Shape, image: seq<Word>, c: nat, b: nat, h: int, w: int)
    requires p.Valid() && SizeW(p, c) >= 1 && SizeH(p, c) >= 1 && c < p.ChCol() && b < p.batch
    requires |image| == p.ImageSize() && InBlock(p, h, w)
    ensures Reads(BlockConfig(p, c, b), |image|)
    ensures Output(BlockConfig(p, c, b), image, h, w) == Value(p, image, c, b, h, w)
  {
    hide GetIndex, OutIndex, SrcAddr, DstAddr, SizeW, SizeH, ZerosBefore, ZerosAfter, BlockConfig, Row, Col,
      Shape.Channel;
    TransferFits(p, c, b);
    PaddingIsOutside(p, c, b, h, w);
    var cfg := BlockConfig(p, c, b);
    SourceWalk(p, c, b, h - cfg.top, w - cfg.left);
  }

  /** Every transfer's parameters fit their registers. */
  predicate FitsAll(p: Shape)
    requires p.Valid() && NoEmptyTransfer(p)
  {
    forall c: nat :: c < p.ChCol() ==> FitsRegisters(BlockConfig(p, c, 0))
  }

  /** The image makes no difference to what the registers must hold. */
  lemma FitsEveryImage(p: Shape, c: nat, b: nat)
    requires p.Valid() && SizeW(p, c) >= 1 && SizeH(p, c) >= 1
    ensures FitsRegisters(BlockConfig(p, c, b)) <==> FitsRegisters(BlockConfig(p, c, 0))
  {
    hide GetIndex, OutIndex, SizeW, SizeH, ZerosBefore, ZerosAfter, Shape.Channel, Shape.WOffset, Shape.HOffset;
  }

  /** The driver takes every transfer: a row of patches is shorter than the image rows it skips. */
  lemma BlockAccepted(p: Shape, c: nat, b: nat)
    requires p.Valid() && SizeW(p, c) >= 1 && SizeH(p, c) >= 1 && c < p.ChCol() && b < p.batch
    ensures BlockConfig(p, c, b).srcInc2 >= 1
    ensures FitsRegisters(BlockConfig(p, c, b)) ==> Accepted(BlockConfig(p, c, b))
  {
    hide GetIndex, OutIndex, SrcAddr, DstAddr, ZerosBefore, ZerosAfter, Row, Col, SizeW, SizeH,
      Shape.Channel, Shape.PatchesH, Shape.PatchesW;
    var cfg := BlockConfig(p, c, b);
    RowOfPatches(p, c, b);
    MulDistributes(p.strideD1, 1, cfg.size1 - 1);
    MulMonotone(1, p.strideD2, p.iw);
  }

  /** The patches of a transferred row start inside one image row. */
  lemma RowOfPatches(p: Shape, c: nat, b: nat)
    requires p.Valid() && SizeW(p, c) >= 1 && SizeH(p, c) >= 1 && c < p.ChCol() && b < p.batch
    ensures p.strideD1 * (SizeW(p, c) - 1) < p.iw
  {
    hide GetIndex, OutIndex, SrcAddr, DstAddr, ZerosBefore, ZerosAfter, Shape.Channel, Shape.WOffset, Shape.PatchesW;
    var cfg := BlockConfig(p, c, b);
    var n, x := cfg.size1, p.WOffset(c) - p.left + cfg.left * p.strideD1;
    ZeroCounts(p.left, p.iw, p.WOffset(c), p.strideD1, p.PatchesW(), cfg.left);
    ZeroCounts(p.left, p.iw, p.WOffset(c), p.strideD1, p.PatchesW(), cfg.left + n - 1);
    MulDistributes(cfg.left, n - 1, p.strideD1);
  }

  method RunTransfer(p: Shape, image: array<Word>, out: array<Word>, c: nat, b: nat, config: Config)
    requires p.Valid() && image.Length == p.ImageSize() && out.Length == p.OutputSize() && image != out
    requires c < p.ChCol() && b < p.batch && SizeW(p, c) >= 1 && SizeH(p, c) >= 1
    requires config == BlockConfig(p, c, b) && FitsRegisters(config)
    modifies out
    ensures BlockDone(p, image[..], out[..], c, b)
    ensures forall k :: 0 <= k < OutIndex(p, c, b, 0, 0) && k < out.Length ==> out[k] == old(out[k])
  {
    hide GetIndex, OutIndex, SrcAddr, DstAddr, Reads, Writes, Output, IsTarget, InGrid, Value, Programmed, Accepted,
      FitsRegisters, Shape.PatchesH, Shape.PatchesW;
    TransferFits(p, c, b);
    BlockAccepted(p, c, b);
    ProgrammedIff(config);
    var _ := Launch(image, out, config);
    forall h, w | InBlock(p, h, w)
      ensures 0 <= OutIndex(p, c, b, h, w) < out.Length
      ensures out[OutIndex(p, c, b, h, w)] == Value(p, image[..], c, b, h, w)
    {
      PatchIsCell(p, c, b, h, w);
      OutputIsValue(p, image[..], c, b, h, w);
    }
    forall k | 0 <= k < OutIndex(p, c, b, 0, 0)
      ensures !IsTarget(config, k)
    {
      NotATarget(p, c, b, k);
    }
  }

  lemma PatchIsCell(p: Shape, c: nat, b: nat, h: int, w: int)
    requires p.Valid() && SizeW(p, c) >= 1 && SizeH(p, c) >= 1 && InBlock(p, h, w)
    ensures InGrid(BlockConfig(p, c, b), h, w) && DstAddr(BlockConfig(p, c, b), h, w) == OutIndex(p, c, b, h, w)
  {
    hide BlockConfig, OutIndex, DstAddr, Shape.PatchesH, Shape.PatchesW;
    TargetWalk(p, c, b, h, w);
  }

  lemma NotATarget(p: Shape, c: nat, b: nat, k: int)
    requires p.Valid() && SizeW(p, c) >= 1 && SizeH(p, c) >= 1 && k < OutIndex(p, c, b, 0, 0)
    ensures !IsTarget(BlockConfig(p, c, b), k)
  {
    hide BlockConfig, OutIndex, DstAddr, Shape.PatchesH, Shape.PatchesW;
    var cfg := BlockConfig(p, c, b);
    PatchesPositive(p);
    forall i, j | InGrid(cfg, i, j)
      ensures DstAddr(cfg, i, j) > k
    {
      TargetWalk(p, c, b, i, j);
      OutIndexSteps(p, c, b, i, j);
      MulMonotone(0, i, p.PatchesW());
    }
  }

  /** One transfer. */
  method DmaBlock(p: Shape, image: array<Word>, out: array<Word>, c: nat, b: nat,
                  wOffset: nat, hOffset: nat, imC: nat, outputPtr: int)
    requires p.Valid() && image.Length == p.ImageSize() && out.Length == p.OutputSize() && image != out
    requires c < p.ChCol() && b < p.batch && SizeW(p, c) >= 1 && SizeH(p, c) >= 1
    requires wOffset == p.WOffset(c) && hOffset == p.HOffset(c) && imC == p.Channel(c)
    requires outputPtr == OutIndex(p, c, b, 0, 0) && FitsRegisters(BlockConfig(p, c, b))
    modifies out
    ensures BlockDone(p, image[..], out[..], c, b)
    ensures forall k :: 0 <= k < OutIndex(p, c, b, 0, 0) && k < out.Length ==> out[k] == old(out[k])
  {
    hide FitsRegisters;
    var imRow, imCol := hOffset - p.top, wOffset - p.left;
    var zerosLeft := if wOffset >= p.left then 0 else 1 + (p.left - wOffset - 1) / p.strideD1;
    var zerosTop := if hOffset >= p.top then 0 else 1 + (p.top - hOffset - 1) / p.strideD2;
    var zerosRight := if p.LastPatchW() + wOffset + 1 <= 0 then 0 else 1 + (p.LastPatchW() + wOffset) / p.strideD1;
    var zerosBottom := if p.LastPatchH() + hOffset + 1 <= 0 then 0 else 1 + (p.LastPatchH() + hOffset) / p.strideD2;
    var sizeTransfer := p.PatchesW() - zerosLeft - zerosRight;
    var sizeTransferD2 := p.PatchesH() - zerosTop - zerosBottom;
    var index := GetIndex(p.ch, p.ih, p.iw, b, imC, imRow + zerosTop * p.strideD2, imCol + zerosLeft * p.strideD1);
    var srcInc2 := p.strideD2 * p.iw - (sizeTransfer - 1 + (p.strideD1 - 1) * (sizeTransfer - 1));
    var config := Config(index, p.strideD1, srcInc2, outputPtr, 1, 1, sizeTransfer, sizeTransferD2,
                         zerosTop, zerosBottom, zerosLeft, zerosRight, false);
    assert config == BlockConfig(p, c, b);
    RunTransfer(p, image, out, c, b, config);
  }

  /** The offsets and the channel as incremental counters. */
  lemma CountersStep(p: Shape, c: nat)
    requires p.Valid()
    ensures p.WOffset(c + 1) == (if p.WOffset(c) == p.fw - 1 then 0 else p.WOffset(c) + 1)
    ensures p.HOffset(c + 1)
         == (if p.WOffset(c) != p.fw - 1 then p.HOffset(c)
             else if p.HOffset(c) == p.fh - 1 then 0 else p.HOffset(c) + 1)
    ensures p.fh * p.fw > 0
    ensures p.Channel(c + 1) == (if c % (p.fh * p.fw) == p.fh * p.fw - 1 then p.Channel(c) + 1 else p.Channel(c))
    ensures (c + 1) % (p.fh * p.fw) == (if c % (p.fh * p.fw) == p.fh * p.fw - 1 then 0 else c % (p.fh * p.fw) + 1)
  {
    FilterPositive(p.fh, p.fw);
    CountUp(c, p.fw);
    CountUp(c / p.fw, p.fh);
    CountUp(c, p.fh * p.fw);
  }

  lemma CountersStart(p: Shape)
    requires p.Valid()
    ensures p.fh * p.fw > 0 && p.WOffset(0) == 0 && p.HOffset(0) == 0 && p.Channel(0) == 0 && 0 % (p.fh * p.fw) == 0
    ensures OutIndex(p, 0, 0, 0, 0) == 0
  {
    FilterPositive(p.fh, p.fw);
    DivModUnique(0, p.fw, 0, 0);
    DivModUnique(0, p.fh, 0, 0);
    DivModUnique(0, p.fh * p.fw, 0, 0);
  }

  /** The loop of test 1: a transfer per filter position and image, with the offsets, the channel
      and the output pointer kept up incrementally. */
  method Im2colDma(p: Shape, image: array<Word>, out: array<Word>)
    requires p.Valid() && image.Length == p.ImageSize() && out.Length == p.OutputSize() && image != out
    requires NoEmptyTransfer(p) && FitsAll(p)
    modifies out
    ensures IsIm2col(p, image[..], out[..])
  {
    hide OutIndex, BlockDone, GetIndex, SizeW, SizeH, BlockConfig, FitsRegisters,
      Shape.PatchesH, Shape.PatchesW, Shape.WOffset, Shape.HOffset, Shape.Channel;
    var wOffset, hOffset, hOffsetCounter, imC, imCCounter, outputPtr := 0, 0, 0, 0, 0, 0;
    CountersStart(p);
    var c := 0;
    while c < p.ChCol()
      invariant 0 <= c && DoneBefore(p, image[..], out[..], c, 0)
      invariant wOffset == hOffsetCounter == p.WOffset(c) && hOffset == p.HOffset(c)
      invariant imC == p.Channel(c) && imCCounter == c % (p.fh * p.fw)
      invariant outputPtr == OutIndex(p, c, 0, 0, 0)
    {
      var b := 0;
      while b < p.batch
        invariant 0 <= b <= p.batch && DoneBefore(p, image[..], out[..], c, b) && outputPtr == OutIndex(p, c, b, 0, 0)
      {
        ghost var before := out[..];
        FitsEveryImage(p, c, b);
        DmaBlock(p, image, out, c, b, wOffset, hOffset, imC, outputPtr);
        OneMoreBlock(p, image[..], before, out[..], c, b);
        OutIndexSteps(p, c, b, 0, 0);
        outputPtr := outputPtr + p.PatchesH() * p.PatchesW();
        b := b + 1;
      }
      OutIndexSteps(p, c, 0, 0, 0);
      CountersStep(p, c);
      wOffset := if wOffset == p.fw - 1 then 0 else wOffset + 1;
      if hOffsetCounter == p.fw - 1 {
        hOffsetCounter := 0;
        hOffset := if hOffset == p.fh - 1 then 0 else hOffset + 1;
      } else {
        hOffsetCounter := hOffsetCounter + 1;
      }
      if imCCounter == p.fh * p.fw - 1 {
        imCCounter, imC := 0, imC + 1;
      } else {
        imCCounter := imCCounter + 1;
      }
      c := c + 1;
    }
  }

  ghost predicate ColumnsReach(p: Shape)
    requires p.Valid()
  {
    forall x: nat :: x < p.fw ==> Reaches(p.left, p.iw, x, p.strideD1, p.PatchesW())
  }

  ghost predicate RowsReach(p: Shape)
    requires p.Valid()
  {
    forall y: nat :: y < p.fh ==> Reaches(p.top, p.ih, y, p.strideD2, p.PatchesH())
  }

  /** The transfers are all nonempty exactly when every filter column and every filter row meets
      the image in some patch. */
  lemma NoEmptyTransferIff(p: Shape)
    requires p.Valid() && p.ch > 0
    ensures NoEmptyTransfer(p) <==> ColumnsReach(p) && RowsReach(p)
  {
    hide Transferred, Reaches;
    PatchesPositive(p);
    forall x: nat | x < p.fw
      ensures NoEmptyTransfer(p) ==> Reaches(p.left, p.iw, x, p.strideD1, p.PatchesW())
    {
      var c := PositionOf(p, 0, x);
      NonemptyIff(p.left, p.iw, x, p.strideD1, p.PatchesW());
      assert NoEmptyTransfer(p) ==> SizeW(p, c) >= 1;
    }
    forall y: nat | y < p.fh
      ensures NoEmptyTransfer(p) ==> Reaches(p.top, p.ih, y, p.strideD2, p.PatchesH())
    {
      var c := PositionOf(p, y, 0);
      NonemptyIff(p.top, p.ih, y, p.strideD2, p.PatchesH());
      assert NoEmptyTransfer(p) ==> SizeH(p, c) >= 1;
    }
    forall c: nat | c < p.ChCol()
      ensures ColumnsReach(p) && RowsReach(p) ==> SizeW(p, c) >= 1 && SizeH(p, c) >= 1
    {
      NonemptyIff(p.left, p.iw, p.WOffset(c), p.strideD1, p.PatchesW());
      NonemptyIff(p.top, p.ih, p.HOffset(c), p.strideD2, p.PatchesH());
    }
  }

  lemma PositionOf(p: Shape, y: nat, x: nat) returns (c: nat)
    requires p.Valid() && p.ch > 0 && y < p.fh && x < p.fw
    ensures c < p.ChCol() && p.WOffset(c) == x && p.HOffset(c) == y
  {
    MulMonotone(0, y, p.fw);
    c := y * p.fw + x;
    PairInRange(p.fh, p.fw, y, x);
    MulMonotone(1, p.ch, p.fh * p.fw);
    assert p.ChCol() == p.ch * (p.fh * p.fw);
    DivModUnique(c, p.fw, y, x);
    DivModUnique(y, p.fh, 0, y);
  }

  /** There are no more zeros in front than padding, and no more behind. */
  lemma ZerosAtMostPadding(pad: nat, after: nat, size: nat, filter: nat, offset: nat, stride: nat, patches: int)
    requires stride > 0 && offset < filter <= size + pad + after
    requires patches == (size + pad + after - filter) / stride + 1
    ensures ZerosBefore(pad, offset, stride) <= pad
    ensures ZerosAfter(stride * (patches - 1) - pad - size, offset, stride) <= after
  {
    var last := stride * (patches - 1) - pad - size;
    assert last + offset + 1 <= after;
    if offset < pad { AtMost(pad - offset - 1, stride); }
    if last + offset >= 0 { AtMost(last + offset, stride); }
  }

  lemma AtMost(x: nat, s: nat)
    requires s > 0
    ensures x / s <= x
  {
    MulMonotone(1, s, x / s);
  }

  /** Shapes whose transfers all fit: strides below eight words, padding below 64, fewer than 2^16
      patches each way, and image rows that a stride of theirs keeps below 2^20 words. */
  lemma ShapeFitsAll(p: Shape)
    requires p.Valid() && NoEmptyTransfer(p) && p.strideD1 < 8 && p.strideD2 * p.iw < 0x10_0000
    requires p.top < 0x40 && p.bottom < 0x40 && p.left < 0x40 && p.right < 0x40
    requires p.PatchesW() < 0x1_0000 && p.PatchesH() < 0x1_0000
    ensures FitsAll(p)
  {
    hide GetIndex, OutIndex, ZerosBefore, ZerosAfter, Shape.Channel;
    forall c: nat | c < p.ChCol()
      ensures FitsRegisters(BlockConfig(p, c, 0))
    {
      BlockFits(p, c);
    }
  }

  lemma BlockFits(p: Shape, c: nat)
    requires p.Valid() && SizeW(p, c) >= 1 && SizeH(p, c) >= 1 && c < p.ChCol()
    requires p.strideD1 < 8 && p.strideD2 * p.iw < 0x10_0000
    requires p.top < 0x40 && p.bottom < 0x40 && p.left < 0x40 && p.right < 0x40
    requires p.PatchesW() < 0x1_0000 && p.PatchesH() < 0x1_0000
    ensures FitsRegisters(BlockConfig(p, c, 0))
  {
    hide GetIndex, OutIndex, ZerosBefore, ZerosAfter, Shape.Channel;
    ZerosAtMostPadding(p.left, p.right, p.iw, p.fw, p.WOffset(c), p.strideD1, p.PatchesW());
    ZerosAtMostPadding(p.top, p.bottom, p.ih, p.fh, p.HOffset(c), p.strideD2, p.PatchesH());
    var n := SizeW(p, c) - 1;
    MulDistributes(p.strideD1, 1, n);
    MulMonotone(p.strideD1, 7, n);
    MulMonotone(0, p.strideD1, n);
    MulMonotone(0, p.strideD2, p.iw);
  }

  /** The two branches fill the same array, if all transfers are nonempty and fit the registers. */
  method Im2colBoth(p: Shape, image: array<Word>, cpu: array<Word>, dma: array<Word>)
    requires p.Valid() && image.Length == p.ImageSize() && cpu.Length == dma.Length == p.OutputSize()
    requires image != cpu && image != dma && cpu != dma && NoEmptyTransfer(p) && FitsAll(p)
    modifies cpu, dma
    ensures cpu[..] == dma[..] && IsIm2col(p, image[..], cpu[..])
  {
    Im2colCpu(p, image, cpu);
    Im2colDma(p, image, dma);
    Im2colUnique(p, image[..], cpu[..], dma[..]);
  }
}
