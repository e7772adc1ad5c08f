/// The tiled matrix product (example_matmul/main.c).
///
/// Matrices are flat arrays with a common row stride; a block is given by the
/// index of its first element.  Sums are 32-bit and wrap.

module Matmul {
  import opened Arithmetic

  type Int32 = x: int | -0x8000_0000 <= x < 0x8000_0000

  const BLOCK_SIZE := 4

  function At(s: seq<Int32>, i: int): int { if 0 <= i < |s| then s[i] else 0 }

  /** Row starting at index x of a, times column starting at index y of b. */
  function Dot(a: seq<Int32>, b: seq<Int32>, stride: nat, x: int, y: int, n: nat): int {
    if n == 0 then 0 else Dot(a, b, stride, x, y, n - 1) + At(a, x + (n - 1)) * At(b, y + (n - 1) * stride)
  }

  lemma {:induction false} DotSplits(a: seq<Int32>, b: seq<Int32>, stride: nat, x: int, y: int, m: nat, n: nat)
    ensures Dot(a, b, stride, x, y, m + n) == Dot(a, b, stride, x, y, m) + Dot(a, b, stride, x + m, y + m * stride, n)
    decreases n
  {
    if n > 0 {
      DotSplits(a, b, stride, x, y, m, n - 1);
      MulDistributes(m, n - 1, stride);
    }
  }

  // ----------------------------------------------------------------- blocks

  /** Index k lies in the n x n block that starts at c. */
  predicate InBlock(c: int, n: nat, stride: nat, k: int)
    requires stride > 0
  {
    k >= c && (k - c) / stride < n && (k - c) % stride < n
  }

  /** What the product of two blocks adds at index k of the result. */
  function Amount(a: seq<Int32>, b: seq<Int32>, stride: nat, x: int, y: int, c: int, n: nat, k: int): int
    requires stride > 0
  {
    if InBlock(c, n, stride, k) then Dot(a, b, stride, x + (k - c) / stride * stride, y + (k - c) % stride, n) else 0
  }

  function Product(a: seq<Int32>, b: seq<Int32>, stride: nat, x: int, y: int, c: int, n: nat): int -> int
    requires stride > 0
  {
    k => Amount(a, b, stride, x, y, c, n, k)
  }

  function Sum(f: int -> int, g: int -> int): int -> int { k => f(k) + g(k) }

  /** Everywhere, f has been added to what was there before, on 32 bits. */
  ghost predicate Added(before: seq<Int32>, after: seq<Int32>, f: int -> int) {
    |before| == |after| && forall k :: 0 <= k < |after| ==> after[k] == Wrap32(before[k] + f(k))
  }

  lemma AddedTwice(r: seq<Int32>, s: seq<Int32>, t: seq<Int32>, f: int -> int, g: int -> int)
    requires Added(r, s, f) && Added(s, t, g)
    ensures Added(r, t, Sum(f, g))
  {
    hide Wrap32;
    forall k | 0 <= k < |t|
      ensures t[k] == Wrap32(r[k] + Sum(f, g)(k))
    {
      WrapAdds(r[k] + f(k), g(k));
    }
  }

  lemma ShiftDown(e: int, p: nat, q: nat, stride: nat, d: int)
    requires stride > 0 && d == e - p * stride - q && d >= 0 && d % stride + q < stride
    ensures e >= 0 && e / stride == p + d / stride && e % stride == q + d % stride
  {
    MulDistributes(p, d / stride, stride);
    MulMonotone(0, p, stride);
    DivModUnique(e, stride, p + d / stride, q + d % stride);
  }

  lemma ShiftUp(e: int, p: nat, q: nat, stride: nat, d: int)
    requires stride > 0 && d == e - p * stride - q && e >= 0 && e / stride >= p && e % stride >= q
    ensures d >= 0 && d / stride == e / stride - p && d % stride == e % stride - q
  {
    MulDistributes(e / stride, p, stride);
    MulMonotone(p, e / stride, stride);
    DivModUnique(d, stride, e / stride - p, e % stride - q);
  }

  /** A sub-block that starts p rows down and q columns to the right, seen in the coordinates of the
      whole; `down' is p rows in words. */
  lemma SubBlock(c: int, p: nat, down: nat, q: nat, h: nat, stride: nat, k: int)
    requires stride >= q + h > 0 && down == p * stride
    ensures InBlock(c + down + q, h, stride, k)
       <==> k >= c && p <= (k - c) / stride < p + h && q <= (k - c) % stride < q + h
    ensures InBlock(c + down + q, h, stride, k) ==>
      var d := k - (c + down + q);
      d / stride == (k - c) / stride - p && d % stride == (k - c) % stride - q
  {
    var d := k - (c + down + q);
    if InBlock(c + down + q, h, stride, k) { ShiftDown(k - c, p, q, stride, d); }
    if k >= c && p <= (k - c) / stride && q <= (k - c) % stride { ShiftUp(k - c, p, q, stride, d); }
  }

  /** What a product of half blocks adds in row i and column j of the whole block: rows from p, columns
      from q, factors starting at x and y. */
  function PartAt(a: seq<Int32>, b: seq<Int32>, stride: nat, x: int, y: int,
                  i: int, j: int, p: nat, q: nat, h: nat): int
  {
    if p <= i < p + h && q <= j < q + h then Dot(a, b, stride, x, y, h) else 0
  }

  /** What one of the eight products of half blocks adds: rows from p, columns from q, inner index
      from r. */
  lemma SubProduct(a: seq<Int32>, b: seq<Int32>, stride: nat, x: int, y: int, c: int,
                   p: nat, down: nat, q: nat, r: nat, inner: nat, h: nat, k: int)
    requires stride >= q + h > 0 && down == p * stride && inner == r * stride
    ensures Amount(a, b, stride, x + down + r, y + inner + q, c + down + q, h, k)
         == Part(a, b, stride, x, y, c, p, q, r, inner, h, k)
  {
    hide Dot;
    SubBlock(c, p, down, q, h, stride, k);
    MulDistributes((k - c) / stride, p, stride);
  }

  function Part(a: seq<Int32>, b: seq<Int32>, stride: nat, x: int, y: int, c: int,
                p: nat, q: nat, r: nat, inner: nat, h: nat, k: int): int
    requires stride > 0
  {
    if k < c then 0
    else
      var i, j := (k - c) / stride, (k - c) % stride;
      PartAt(a, b, stride, x + i * stride + r, y + j + inner, i, j, p, q, h)
  }

  /** The eight products of half blocks make up the product of the blocks; `down' is half a block's
      rows in words. */
  lemma EightProducts(a: seq<Int32>, b: seq<Int32>, stride: nat, x: int, y: int, c: int, h: nat, down: nat, k: int)
    requires stride >= 2 * h > 0 && down == h * stride
    ensures Amount(a, b, stride, x, y, c, 2 * h, k)
         == Amount(a, b, stride, x, y, c, h, k)
          + Amount(a, b, stride, x + h, y + down, c, h, k)
          + Amount(a, b, stride, x, y + h, c + h, h, k)
          + Amount(a, b, stride, x + h, y + down + h, c + h, h, k)
          + Amount(a, b, stride, x + down, y, c + down, h, k)
          + Amount(a, b, stride, x + down + h, y + down, c + down, h, k)
          + Amount(a, b, stride, x + down, y + h, c + down + h, h, k)
          + Amount(a, b, stride, x + down + h, y + down + h, c + down + h, h, k)
  {
    hide Amount, Part;
    SubProduct(a, b, stride, x, y, c, 0, 0, 0, 0, 0, h, k);
    SubProduct(a, b, stride, x, y, c, 0, 0, 0, h, down, h, k);
    SubProduct(a, b, stride, x, y, c, 0, 0, h, 0, 0, h, k);
    SubProduct(a, b, stride, x, y, c, 0, 0, h, h, down, h, k);
    SubProduct(a, b, stride, x, y, c, h, down, 0, 0, 0, h, k);
    SubProduct(a, b, stride, x, y, c, h, down, 0, h, down, h, k);
    SubProduct(a, b, stride, x, y, c, h, down, h, 0, 0, h, k);
    SubProduct(a, b, stride, x, y, c, h, down, h, h, down, h, k);
    PartsOfWhole(a, b, stride, x, y, c, h, down, k);
  }

  lemma PartsOfWhole(a: seq<Int32>, b: seq<Int32>, stride: nat, x: int, y: int, c: int, h: nat, down: nat, k: int)
    requires stride >= 2 * h > 0 && down == h * stride
    ensures Amount(a, b, stride, x, y, c, 2 * h, k)
         == Part(a, b, stride, x, y, c, 0, 0, 0, 0, h, k) + Part(a, b, stride, x, y, c, 0, 0, h, down, h, k)
          + Part(a, b, stride, x, y, c, 0, h, 0, 0, h, k) + Part(a, b, stride, x, y, c, 0, h, h, down, h, k)
          + Part(a, b, stride, x, y, c, h, 0, 0, 0, h, k) + Part(a, b, stride, x, y, c, h, 0, h, down, h, k)
          + Part(a, b, stride, x, y, c, h, h, 0, 0, h, k) + Part(a, b, stride, x, y, c, h, h, h, down, h, k)
  {
    hide Dot, PartAt;
    if k >= c {
      var i, j := (k - c) / stride, (k - c) % stride;
      PartsOfCell(a, b, stride, x + i * stride, y + j, i, j, h, down);
      DotSplits(a, b, stride, x + i * stride, y + j, h, h);
    }
  }

  /** Row i, column j: of the eight parts, the two that share its quarter of the block. */
  lemma PartsOfCell(a: seq<Int32>, b: seq<Int32>, stride: nat, x: int, y: int, i: int, j: int, h: nat, down: nat)
    requires i >= 0 && j >= 0
    ensures (if i < 2 * h && j < 2 * h then Dot(a, b, stride, x, y, h) + Dot(a, b, stride, x + h, y + down, h) else 0)
         == PartAt(a, b, stride, x, y, i, j, 0, 0, h) + PartAt(a, b, stride, x + h, y + down, i, j, 0, 0, h)
          + PartAt(a, b, stride, x, y, i, j, 0, h, h) + PartAt(a, b, stride, x + h, y + down, i, j, 0, h, h)
          + PartAt(a, b, stride, x, y, i, j, h, 0, h) + PartAt(a, b, stride, x + h, y + down, i, j, h, 0, h)
          + PartAt(a, b, stride, x, y, i, j, h, h, h) + PartAt(a, b, stride, x + h, y + down, i, j, h, h, h)
  {
    hide Dot;
  }

  // ----------------------------------------------------------- the methods

  predicate Fits(x: int, n: nat, stride: nat, length: int) { x >= 0 && n > 0 && x + (n - 1) * stride + n <= length }

  lemma CellInRange(x: int, n: nat, stride: nat, length: int, i: int, j: int)
    requires Fits(x, n, stride, length) && 0 <= i < n && 0 <= j < n
    ensures 0 <= x + i * stride + j < length
  {
    MulMonotone(i, n - 1, stride);
    MulMonotone(0, i, stride);
  }

  lemma HalfFits(x: int, h: nat, stride: nat, length: int)
    requires Fits(x, 2 * h, stride, length) && h > 0
    ensures Fits(x, h, stride, length) && Fits(x + h, h, stride, length)
    ensures Fits(x + h * stride, h, stride, length) && Fits(x + h * stride + h, h, stride, length)
  {
    MulDistributes(h, h - 1, stride);
    MulMonotone(0, h, stride);
  }

  lemma DotStep(a: seq<Int32>, b: seq<Int32>, stride: nat, x: int, y: int, n: nat, k: nat)
    requires 0 <= x && x + n <= |a| && 0 <= y && y + (n - 1) * stride < |b| && k < n
    ensures 0 <= y + k * stride < |b|
    ensures Dot(a, b, stride, x, y, k + 1)
         == Dot(a, b, stride, x, y, k) + (a[x + k] as int) * (b[y + k * stride] as int)
  {
    MulMonotone(k, n - 1, stride);
    MulMonotone(0, k, stride);
  }

  /** One entry of the product. */
  method DotProduct(a: array<Int32>, b: array<Int32>, stride: nat, x: int, y: int, n: nat) returns (acc: Int32)
    requires 0 <= x && x + n <= a.Length && 0 <= y && n > 0 && y + (n - 1) * stride < b.Length
    ensures acc == Wrap32(Dot(a[..], b[..], stride, x, y, n))
  {
    hide Wrap32, Dot;
    ghost var s, t := a[..], b[..];
    acc := 0;
    EmptyDot(s, t, stride, x, y);
    var k := 0;
    while k < n
      invariant 0 <= k <= n && acc == Wrap32(Dot(s, t, stride, x, y, k))
    {
      DotStep(s, t, stride, x, y, n, k);
      var product := (a[x + k] as int) * (b[y + k * stride] as int);
      WrapAdds(Dot(s, t, stride, x, y, k), product);
      WrapRange(acc + product);
      acc := Wrap32(acc + product);
      k := k + 1;
    }
  }

  lemma EmptyDot(a: seq<Int32>, b: seq<Int32>, stride: nat, x: int, y: int)
    ensures Wrap32(Dot(a, b, stride, x, y, 0)) == 0
  {
  }

  lemma WrapRange(x: int)
    ensures -0x8000_0000 <= Wrap32(x) < 0x8000_0000
  {
  }

  /** The entries of the block before row i, column j. */
  predicate Done(c: int, n: nat, stride: nat, i: int, j: int, k: int)
    requires stride > 0
  {
    InBlock(c, n, stride, k) && ((k - c) / stride < i || ((k - c) / stride == i && (k - c) % stride < j))
  }

  lemma CellOf(c: int, n: nat, stride: nat, i: int, j: int, k: int)
    requires 0 <= i < n <= stride && 0 <= j < n
    ensures k == c + i * stride + j <==> InBlock(c, n, stride, k) && (k - c) / stride == i && (k - c) % stride == j
  {
    if k == c + i * stride + j {
      MulMonotone(0, i, stride);
      DivModUnique(k - c, stride, i, j);
    }
  }

  lemma RowEnds(c: int, n: nat, stride: nat, i: int, k: int)
    requires stride > 0
    ensures Done(c, n, stride, i, n, k) == Done(c, n, stride, i + 1, 0, k)
    ensures Done(c, n, stride, n, 0, k) == InBlock(c, n, stride, k)
    ensures !Done(c, n, stride, 0, 0, k)
  {
  }

  /** The array in the middle of the block product. */
  ghost predicate Partial(before: seq<Int32>, now: seq<Int32>, f: int -> int, c: int, n: nat, stride: nat, i: int,
                          j: int)
    requires stride > 0
  {
    |now| == |before| && forall k :: 0 <= k < |now| ==>
      now[k] == if Done(c, n, stride, i, j, k) then Wrap32(before[k] + f(k)) else before[k]
  }

  lemma OneMoreCell(before: seq<Int32>, now: seq<Int32>, next: seq<Int32>, f: int -> int, c: int, n: nat, stride: nat,
                    i: int, j: int)
    requires 0 <= i < n <= stride && 0 <= j < n && 0 <= c + i * stride + j < |now|
    requires Partial(before, now, f, c, n, stride, i, j)
    requires |next| == |now| && next == now[c + i * stride + j := next[c + i * stride + j]]
    requires next[c + i * stride + j] == Wrap32(before[c + i * stride + j] + f(c + i * stride + j))
    ensures Partial(before, next, f, c, n, stride, i, j + 1)
  {
    hide Wrap32, InBlock;
    var at := c + i * stride + j;
    forall k | 0 <= k < |next|
      ensures next[k] == if Done(c, n, stride, i, j + 1, k) then Wrap32(before[k] + f(k)) else before[k]
    {
      CellOf(c, n, stride, i, j, k);
      assert next[k] == if k == at then next[at] else now[k];
    }
  }

  /** The loop has not reached its current cell yet. */
  lemma NotYet(c: int, n: nat, stride: nat, i: int, j: int)
    requires 0 <= i < n <= stride && 0 <= j < n
    ensures !Done(c, n, stride, i, j, c + i * stride + j)
  {
    CellOf(c, n, stride, i, j, c + i * stride + j);
  }

  lemma CellAmount(a: seq<Int32>, b: seq<Int32>, stride: nat, x: int, y: int, c: int, n: nat, i: int, j: int)
    requires 0 <= i < n <= stride && 0 <= j < n
    ensures Product(a, b, stride, x, y, c, n)(c + i * stride + j) == Dot(a, b, stride, x + i * stride, y + j, n)
  {
    CellOf(c, n, stride, i, j, c + i * stride + j);
  }

  lemma RowAndColumnFit(x: int, n: nat, stride: nat, length: int, i: int)
    requires Fits(x, n, stride, length) && 0 <= i < n
    ensures 0 <= x + i * stride && x + i * stride + n <= length
    ensures x + i + (n - 1) * stride < length
  {
    CellInRange(x, n, stride, length, i, n - 1);
    CellInRange(x, n, stride, length, i, 0);
    CellInRange(x, n, stride, length, n - 1, i);
  }

  /** The triple loop on one block. */
  method MatrixMulBlocksize(a: array<Int32>, b: array<Int32>, r: array<Int32>, x: int, y: int, c: int, n: nat,
                            stride: nat)
    requires r != a && r != b && 0 < n <= stride
    requires Fits(x, n, stride, a.Length) && Fits(y, n, stride, b.Length) && Fits(c, n, stride, r.Length)
    modifies r
    ensures Added(old(r[..]), r[..], Product(a[..], b[..], stride, x, y, c, n))
  {
    hide Wrap32, Dot, Partial, Product, Fits;
    ghost var before, f := r[..], Product(a[..], b[..], stride, x, y, c, n);
    LoopStarts(before, f, c, n, stride);
    var i := 0;
    while i < n
      invariant 0 <= i <= n && Partial(before, r[..], f, c, n, stride, i, 0)
    {
      var j := 0;
      while j < n
        invariant 0 <= j <= n && Partial(before, r[..], f, c, n, stride, i, j)
      {
        RowAndColumnFit(x, n, stride, a.Length, i);
        RowAndColumnFit(y, n, stride, b.Length, j);
        CellInRange(c, n, stride, r.Length, i, j);
        FitsFrom(y, n, stride, b.Length);
        var acc := DotProduct(a, b, stride, x + i * stride, y + j, n);
        ghost var now := r[..];
        var at := c + i * stride + j;
        BeforeCell(before, now, f, c, n, stride, i, j);
        CellAmount(a[..], b[..], stride, x, y, c, n, i, j);
        var entry: int := r[at];
        WrapAdds(entry, f(at));
        WrapRange(entry + acc);
        r[at] := Wrap32(entry + acc);
        OneMoreCell(before, now, r[..], f, c, n, stride, i, j);
        j := j + 1;
      }
      NextRow(before, r[..], f, c, n, stride, i);
      i := i + 1;
    }
    LoopEnds(before, r[..], a[..], b[..], stride, x, y, c, n);
  }

  lemma FitsFrom(x: int, n: nat, stride: nat, length: int)
    requires Fits(x, n, stride, length)
    ensures x >= 0
  {
  }

  lemma LoopStarts(before: seq<Int32>, f: int -> int, c: int, n: nat, stride: nat)
    requires stride > 0
    ensures Partial(before, before, f, c, n, stride, 0, 0)
  {
  }

  lemma BeforeCell(before: seq<Int32>, now: seq<Int32>, f: int -> int, c: int, n: nat, stride: nat, i: int, j: int)
    requires 0 <= i < n <= stride && 0 <= j < n && 0 <= c + i * stride + j < |now|
    requires Partial(before, now, f, c, n, stride, i, j)
    ensures |now| == |before| && now[c + i * stride + j] == before[c + i * stride + j]
  {
    NotYet(c, n, stride, i, j);
  }

  lemma NextRow(before: seq<Int32>, now: seq<Int32>, f: int -> int, c: int, n: nat, stride: nat, i: int)
    requires stride > 0 && Partial(before, now, f, c, n, stride, i, n)
    ensures Partial(before, now, f, c, n, stride, i + 1, 0)
  {
    hide Done, Wrap32;
    forall k { RowEnds(c, n, stride, i, k); }
  }

  lemma LoopEnds(before: seq<Int32>, now: seq<Int32>, a: seq<Int32>, b: seq<Int32>, stride: nat, x: int, y: int,
                 c: int, n: nat)
    requires stride > 0 && Partial(before, now, Product(a, b, stride, x, y, c, n), c, n, stride, n, 0)
    ensures Added(before, now, Product(a, b, stride, x, y, c, n))
  {
    hide Done, Wrap32, Dot, InBlock;
    forall k | 0 <= k < |now|
      ensures now[k] == Wrap32(before[k] + Product(a, b, stride, x, y, c, n)(k))
    {
      RowEnds(c, n, stride, 0, k);
      WrapAdds(before[k], 0);
    }
  }

  /** Eight additions, one after the other. */
  lemma EightAdditions(s: seq<seq<Int32>>, a: seq<Int32>, b: seq<Int32>, stride: nat, x: int, y: int, c: int, h: nat,
                       down: nat)
    requires stride >= 2 * h > 0 && down == h * stride && |s| == 9
    requires Added(s[0], s[1], Product(a, b, stride, x, y, c, h))
    requires Added(s[1], s[2], Product(a, b, stride, x + h, y + down, c, h))
    requires Added(s[2], s[3], Product(a, b, stride, x, y + h, c + h, h))
    requires Added(s[3], s[4], Product(a, b, stride, x + h, y + down + h, c + h, h))
    requires Added(s[4], s[5], Product(a, b, stride, x + down, y, c + down, h))
    requires Added(s[5], s[6], Product(a, b, stride, x + down + h, y + down, c + down, h))
    requires Added(s[6], s[7], Product(a, b, stride, x + down, y + h, c + down + h, h))
    requires Added(s[7], s[8], Product(a, b, stride, x + down + h, y + down + h, c + down + h, h))
    ensures Added(s[0], s[8], Product(a, b, stride, x, y, c, 2 * h))
  {
    hide Added, Product, Sum;
    var p1, p2 := Product(a, b, stride, x, y, c, h), Product(a, b, stride, x + h, y + down, c, h);
    var p3, p4 := Product(a, b, stride, x, y + h, c + h, h), Product(a, b, stride, x + h, y + down + h, c + h, h);
    var p5, p6 := Product(a, b, stride, x + down, y, c + down, h),
      Product(a, b, stride, x + down + h, y + down, c + down, h);
    var p7, p8 := Product(a, b, stride, x + down, y + h, c + down + h, h),
      Product(a, b, stride, x + down + h, y + down + h, c + down + h, h);
    var f2 := Sum(p1, p2);
    var f3 := Sum(f2, p3);
    var f4 := Sum(f3, p4);
    var f5 := Sum(f4, p5);
    var f6 := Sum(f5, p6);
    var f7 := Sum(f6, p7);
    AddedTwice(s[0], s[1], s[2], p1, p2);
    AddedTwice(s[0], s[2], s[3], f2, p3);
    AddedTwice(s[0], s[3], s[4], f3, p4);
    AddedTwice(s[0], s[4], s[5], f4, p5);
    AddedTwice(s[0], s[5], s[6], f5, p6);
    AddedTwice(s[0], s[6], s[7], f6, p7);
    AddedTwice(s[0], s[7], s[8], f7, p8);
    forall k ensures Sum(f7, p8)(k) == Product(a, b, stride, x, y, c, 2 * h)(k) {
      SumOfEight(a, b, stride, x, y, c, h, down, k);
    }
    SameAddition(s[0], s[8], Sum(f7, p8), Product(a, b, stride, x, y, c, 2 * h));
  }

  lemma SumOfEight(a: seq<Int32>, b: seq<Int32>, stride: nat, x: int, y: int, c: int, h: nat, down: nat, k: int)
    requires stride >= 2 * h > 0 && down == h * stride
    ensures Sum(Sum(Sum(Sum(Sum(Sum(Sum(
        Product(a, b, stride, x, y, c, h), Product(a, b, stride, x + h, y + down, c, h)),
        Product(a, b, stride, x, y + h, c + h, h)), Product(a, b, stride, x + h, y + down + h, c + h, h)),
        Product(a, b, stride, x + down, y, c + down, h)), Product(a, b, stride, x + down + h, y + down, c + down, h)),
        Product(a, b, stride, x + down, y + h, c + down + h, h)),
        Product(a, b, stride, x + down + h, y + down + h, c + down + h, h))(k)
      == Product(a, b, stride, x, y, c, 2 * h)(k)
  {
    hide Amount;
    EightProducts(a, b, stride, x, y, c, h, down, k);
  }

  lemma SameAddition(s: seq<Int32>, t: seq<Int32>, f: int -> int, g: int -> int)
    requires Added(s, t, f) && forall k :: f(k) == g(k)
    ensures Added(s, t, g)
  {
    hide Wrap32;
  }

  lemma Halving(n: nat, level: nat)
    requires n == BLOCK_SIZE * Pow2(level)
    ensures n == BLOCK_SIZE || (level > 0 && n == 2 * (n / 2) && n / 2 == BLOCK_SIZE * Pow2(level - 1))
  {
    hide Pow2;
    Pow2Step(level);
  }

  /** The recursion: eight products of half blocks, down to the block size. */
  method MatrixMulTiled(a: array<Int32>, b: array<Int32>, r: array<Int32>, x: int, y: int, c: int, n: nat, stride: nat,
                        ghost level: nat)
    requires r != a && r != b && n <= stride && n == BLOCK_SIZE * Pow2(level)
    requires Fits(x, n, stride, a.Length) && Fits(y, n, stride, b.Length) && Fits(c, n, stride, r.Length)
    modifies r
    ensures Added(old(r[..]), r[..], Product(a[..], b[..], stride, x, y, c, n))
    decreases level
  {
    hide Fits, Added, Product, Pow2;
    Halving(n, level);
    if n == BLOCK_SIZE {
      MatrixMulBlocksize(a, b, r, x, y, c, n, stride);
    } else {
      var h := n / 2;
      HalfFits(x, h, stride, a.Length);
      HalfFits(y, h, stride, b.Length);
      HalfFits(c, h, stride, r.Length);
      MulMonotone(0, h, stride);
      var down: nat := h * stride;
      ghost var s0 := r[..];
      MatrixMulTiled(a, b, r, x, y, c, h, stride, level - 1);
      ghost var s1 := r[..];
      MatrixMulTiled(a, b, r, x + h, y + down, c, h, stride, level - 1);
      ghost var s2 := r[..];
      MatrixMulTiled(a, b, r, x, y + h, c + h, h, stride, level - 1);
      ghost var s3 := r[..];
      MatrixMulTiled(a, b, r, x + h, y + down + h, c + h, h, stride, level - 1);
      ghost var s4 := r[..];
      MatrixMulTiled(a, b, r, x + down, y, c + down, h, stride, level - 1);
      ghost var s5 := r[..];
      MatrixMulTiled(a, b, r, x + down + h, y + down, c + down, h, stride, level - 1);
      ghost var s6 := r[..];
      MatrixMulTiled(a, b, r, x + down, y + h, c + down + h, h, stride, level - 1);
      ghost var s7 := r[..];
      MatrixMulTiled(a, b, r, x + down + h, y + down + h, c + down + h, h, stride, level - 1);
      ghost var s8 := r[..];
      EightAdditions([s0, s1, s2, s3, s4, s5, s6, s7, s8], a[..], b[..], stride, x, y, c, h, down);
    }
  }

  /** The sum over k of row i times column j. */
  function Entry(a: seq<Int32>, b: seq<Int32>, stride: nat, i: nat, j: nat, n: nat): int {
    if n == 0 then 0 else Entry(a, b, stride, i, j, n - 1) + At(a, i * stride + (n - 1)) * At(b, (n - 1) * stride + j)
  }

  lemma {:induction false} DotIsEntry(a: seq<Int32>, b: seq<Int32>, stride: nat, i: nat, j: nat, n: nat)
    ensures Dot(a, b, stride, i * stride, j, n) == Entry(a, b, stride, i, j, n)
    decreases n
  {
    if n > 0 { DotIsEntry(a, b, stride, i, j, n - 1); }
  }

  function Cell(stride: nat, i: nat, j: nat): int { i * stride + j }

  /** The n x n block at the start of the array is the unit matrix. */
  predicate IsUnit(s: seq<Int32>, stride: nat, n: nat) {
    forall i: nat, j: nat :: i < n && j < n ==> At(s, Cell(stride, i, j)) == if i == j then 1 else 0
  }

  /** The unit matrix is neutral on the right. */
  lemma {:induction false} UnitOnRight(a: seq<Int32>, b: seq<Int32>, stride: nat, i: nat, j: nat, n: nat, m: nat)
    requires IsUnit(b, stride, n) && j < n && m <= n
    ensures Entry(a, b, stride, i, j, m) == if j < m then At(a, i * stride + j) else 0
    decreases m
  {
    if m > 0 {
      UnitOnRight(a, b, stride, i, j, n, m - 1);
      assert At(b, Cell(stride, m - 1, j)) == if m - 1 == j then 1 else 0;
    }
  }

  /** And on the left. */
  lemma {:induction false} UnitOnLeft(a: seq<Int32>, b: seq<Int32>, stride: nat, i: nat, j: nat, n: nat, m: nat)
    requires IsUnit(a, stride, n) && i < n && m <= n
    ensures Entry(a, b, stride, i, j, m) == if i < m then At(b, i * stride + j) else 0
    decreases m
  {
    if m > 0 {
      UnitOnLeft(a, b, stride, i, j, n, m - 1);
      assert At(a, Cell(stride, i, m - 1)) == if i == m - 1 then 1 else 0;
    }
  }

  /** What an addition of the product means, cell by cell: inside the n x n block the matrix product
      has been added, everything else is as before. */
  lemma AddedCells(before: seq<Int32>, after: seq<Int32>, a: seq<Int32>, b: seq<Int32>, stride: nat, n: nat)
    requires 0 < n <= stride && Fits(0, n, stride, |before|) && Added(before, after, Product(a, b, stride, 0, 0, 0, n))
    ensures forall i: nat, j: nat :: i < n && j < n ==>
      0 <= Cell(stride, i, j) < |after|
      && after[Cell(stride, i, j)] == Wrap32(before[Cell(stride, i, j)] + Entry(a, b, stride, i, j, n))
    ensures forall k :: 0 <= k < |after| && !(k / stride < n && k % stride < n) ==> after[k] == before[k]
  {
    hide Wrap32, Product, Fits, Dot, Entry, At, Cell;
    forall i: nat, j: nat | i < n && j < n
      ensures 0 <= Cell(stride, i, j) < |after|
      ensures after[Cell(stride, i, j)] == Wrap32(before[Cell(stride, i, j)] + Entry(a, b, stride, i, j, n))
    {
      CellEntry(a, b, stride, n, |before|, i, j);
    }
    forall k | 0 <= k < |after| && !(k / stride < n && k % stride < n)
      ensures after[k] == before[k]
    {
      OutsideAmount(a, b, stride, n, k);
      WrapAdds(before[k], 0);
    }
  }

  lemma CellEntry(a: seq<Int32>, b: seq<Int32>, stride: nat, n: nat, length: int, i: nat, j: nat)
    requires i < n <= stride && j < n && Fits(0, n, stride, length)
    ensures 0 <= Cell(stride, i, j) < length
    ensures Product(a, b, stride, 0, 0, 0, n)(Cell(stride, i, j)) == Entry(a, b, stride, i, j, n)
  {
    hide Product, Dot, Entry;
    CellInRange(0, n, stride, length, i, j);
    CellAmount(a, b, stride, 0, 0, 0, n, i, j);
    DotIsEntry(a, b, stride, i, j, n);
  }

  lemma OutsideAmount(a: seq<Int32>, b: seq<Int32>, stride: nat, n: nat, k: int)
    requires stride > 0 && 0 <= k && !(k / stride < n && k % stride < n)
    ensures Product(a, b, stride, 0, 0, 0, n)(k) == 0
  {
  }

  /** Both ways of multiplying leave the same result. */
  method MultiplyBothWays(a: array<Int32>, b: array<Int32>, direct: array<Int32>, tiled: array<Int32>, n: nat,
                          stride: nat, ghost level: nat)
    requires direct != tiled && direct != a && direct != b && tiled != a && tiled != b
    requires n <= stride && n == 4 * Pow2(level) && direct[..] == tiled[..]
    requires Fits(0, n, stride, a.Length) && Fits(0, n, stride, b.Length) && Fits(0, n, stride, tiled.Length)
    modifies direct, tiled
    ensures direct[..] == tiled[..] && Added(old(tiled[..]), tiled[..], Product(a[..], b[..], stride, 0, 0, 0, n))
  {
    hide Product;
    assert direct.Length == |direct[..]| == tiled.Length;
    MatrixMulBlocksize(a, b, direct, 0, 0, 0, n, stride);
    MatrixMulTiled(a, b, tiled, 0, 0, 0, n, stride, level);
  }
}
