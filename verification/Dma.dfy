/// One two-dimensional transfer of a DMA channel, and the registers that describe it.
///
/// The read unit walks a pointer over the source, the processing unit puts zeros
/// around the words read, and the write unit walks a pointer over the destination.
/// `Transfer' takes one word per step and keeps the units' own counters and
/// pointers; its contract gives the addresses in closed form.

module Dma {
  import opened Arithmetic

  /** The parameters of a transfer; increments are counted in words. */
  datatype Config = Config(
    srcPtr: int, srcInc1: int, srcInc2: int,
    dstPtr: int, dstInc1: int, dstInc2: int,
    size1: nat, size2: nat,
    top: nat, bottom: nat, left: nat, right: nat,
    transposed: bool)
  {
    function Cols(): nat { left + size1 + right }

    function Rows(): nat { top + size2 + bottom }
  }

  /** Row i, column j of a grid. */
  function Grid(base: int, row: int, col: int, i: int, j: int): int { base + i * row + j * col }

  /** A row's first word follows the last word of the row before, one second-dimension increment
      later; transposed, rows and columns change places. */
  function SrcAddr(c: Config, i: int, j: int): int {
    if c.transposed then Grid(c.srcPtr, c.srcInc1, c.srcInc2, i, j)
    else Grid(c.srcPtr, (c.size1 - 1) * c.srcInc1 + c.srcInc2, c.srcInc1, i, j)
  }

  function DstAddr(c: Config, i: int, j: int): int {
    Grid(c.dstPtr, (c.Cols() - 1) * c.dstInc1 + c.dstInc2, c.dstInc1, i, j)
  }

  predicate Inside(c: Config, i: int, j: int) {
    c.top <= i < c.top + c.size2 && c.left <= j < c.left + c.size1
  }

  predicate Reads(c: Config, n: int) {
    forall i, j :: 0 <= i < c.size2 && 0 <= j < c.size1 ==> 0 <= SrcAddr(c, i, j) < n
  }

  /** A destination pointer that only moves up, within the array. */
  predicate Writes(c: Config, n: int) {
    c.dstInc1 >= 1 && c.dstInc2 >= 1 && c.dstPtr >= 0 && DstAddr(c, c.Rows() - 1, c.Cols() - 1) < n
  }

  function Output(c: Config, src: seq<Word>, i: int, j: int): Word
    requires Reads(c, |src|)
  {
    if Inside(c, i, j) then src[SrcAddr(c, i - c.top, j - c.left)] else 0
  }

  predicate InGrid(c: Config, i: int, j: int) { 0 <= i < c.Rows() && 0 <= j < c.Cols() }

  ghost predicate IsTarget(c: Config, x: int) {
    exists i, j :: InGrid(c, i, j) && DstAddr(c, i, j) == x
  }

  // ---------------------------------------------------------- the registers

  /** A first increment is written in bytes to a register of six bits, and read back as a two's
      complement number. */
  function Inc1(words: int): int {
    var q := words * 4 % 0x40;
    (if q < 0x20 then q else q - 0x40) / 4
  }

  /** A second increment has 23 bits. */
  function Inc2(words: int): int {
    var q := words * 4 % 0x80_0000;
    (if q < 0x40_0000 then q else q - 0x80_0000) / 4
  }

  /** What the units get: sizes have 16 bits, pads six. */
  function Programmed(c: Config): Config {
    Config(
      c.srcPtr, Inc1(c.srcInc1), Inc2(c.srcInc2),
      c.dstPtr, Inc1(c.dstInc1), Inc2(c.dstInc2),
      c.size1 % 0x1_0000, c.size2 % 0x1_0000,
      c.top % 0x40, c.bottom % 0x40, c.left % 0x40, c.right % 0x40,
      c.transposed)
  }

  /** The register contents in bytes: first increments modulo 2^6 and second ones modulo 2^23, both signed;
      sizes modulo 2^16 and pads modulo 2^6. */
  lemma RegisterContents(words: int)
    ensures -0x20 <= 4 * Inc1(words) < 0x20 && (4 * words - 4 * Inc1(words)) % 0x40 == 0
    ensures -0x40_0000 <= 4 * Inc2(words) < 0x40_0000 && (4 * words - 4 * Inc2(words)) % 0x80_0000 == 0
  {
    Signed1(words, words / 0x10, words % 0x10);
    Signed2(words, words / 0x20_0000, words % 0x20_0000);
  }

  lemma Signed1(words: int, t: int, r: int)
    requires words == 0x10 * t + r && 0 <= r < 0x10
    ensures Inc1(words) == (if r < 8 then r else r - 0x10) && (4 * words - 4 * Inc1(words)) % 0x40 == 0
  {
    DivModUnique(words * 4, 0x40, t, 4 * r);
    DivModUnique(4 * words - 4 * r, 0x40, t, 0);
    DivModUnique(4 * words - 4 * r + 0x40, 0x40, t + 1, 0);
  }

  lemma Signed2(words: int, t: int, r: int)
    requires words == 0x20_0000 * t + r && 0 <= r < 0x20_0000
    ensures Inc2(words) == (if r < 0x10_0000 then r else r - 0x20_0000)
    ensures (4 * words - 4 * Inc2(words)) % 0x80_0000 == 0
  {
    DivModUnique(words * 4, 0x80_0000, t, 4 * r);
    DivModUnique(4 * words - 4 * r, 0x80_0000, t, 0);
    DivModUnique(4 * words - 4 * r + 0x80_0000, 0x80_0000, t + 1, 0);
  }

  predicate FitsRegisters(c: Config) {
    && -8 <= c.srcInc1 < 8 && -8 <= c.dstInc1 < 8
    && -0x10_0000 <= c.srcInc2 < 0x10_0000 && -0x10_0000 <= c.dstInc2 < 0x10_0000
    && c.size1 < 0x1_0000 && c.size2 < 0x1_0000
    && c.top < 0x40 && c.bottom < 0x40 && c.left < 0x40 && c.right < 0x40
  }

  lemma IncrementsKept(words: int)
    ensures Inc1(words) == words <==> -8 <= words < 8
    ensures Inc2(words) == words <==> -0x10_0000 <= words < 0x10_0000
  {
  }

  /** The units walk as they were asked to if and only if every parameter fits its register. */
  lemma ProgrammedIff(c: Config)
    ensures Programmed(c) == c <==> FitsRegisters(c)
  {
    hide Inc1, Inc2;
    IncrementsKept(c.srcInc1);
    IncrementsKept(c.dstInc1);
    IncrementsKept(c.srcInc2);
    IncrementsKept(c.dstInc2);
  }

  lemma LongIncrement(words: int)
    requires 8 <= words < 16
    ensures Inc1(words) == words - 16
  {
  }

  /** The register was dimensioned for strides up to 15 words; from 8 on both pointers run backwards. */
  lemma LongStridesRunBack(c: Config, i: int, j: int)
    requires 8 <= c.srcInc1 < 16 && 8 <= c.dstInc1 < 16 && !c.transposed
    ensures DstAddr(Programmed(c), i, j + 1) == DstAddr(Programmed(c), i, j) + c.dstInc1 - 16
    ensures SrcAddr(Programmed(c), i, j + 1) == SrcAddr(Programmed(c), i, j) + c.srcInc1 - 16
  {
    hide SrcAddr, DstAddr, Inc1, Inc2;
    LongIncrement(c.srcInc1);
    LongIncrement(c.dstInc1);
    DstSteps(Programmed(c), i, j);
    SrcSteps(Programmed(c), i, j);
  }

  /** The driver's integrity check of a transfer in two dimensions: second increments of zero are refused. */
  predicate Accepted(c: Config) { c.srcInc2 % 0x1_0000_0000 != 0 && c.dstInc2 % 0x1_0000_0000 != 0 }

  // ------------------------------------------------------------- the walks

  lemma GridSteps(base: int, row: int, col: int, i: int, j: int)
    ensures Grid(base, row, col, i, j + 1) == Grid(base, row, col, i, j) + col
    ensures Grid(base, row, col, i + 1, 0) == Grid(base, row, col, i, 0) + row
    ensures Grid(base, row, col, i, j) == Grid(base, row, col, i, 0) + j * col
    ensures Grid(base, row, col, 0, 0) == base
  {
    MulDistributes(j, 1, col);
    MulDistributes(i, 1, row);
  }

  lemma SrcSteps(c: Config, i: int, j: int)
    ensures SrcAddr(c, 0, 0) == c.srcPtr
    ensures SrcAddr(c, i, j + 1) == SrcAddr(c, i, j) + if c.transposed then c.srcInc2 else c.srcInc1
    ensures !c.transposed ==> SrcAddr(c, i + 1, 0) == SrcAddr(c, i, c.size1 - 1) + c.srcInc2
    ensures c.transposed ==> SrcAddr(c, i + 1, 0) == SrcAddr(c, i, 0) + c.srcInc1
  {
    hide Grid;
    if c.transposed {
      GridSteps(c.srcPtr, c.srcInc1, c.srcInc2, i, j);
    } else {
      var row := (c.size1 - 1) * c.srcInc1 + c.srcInc2;
      GridSteps(c.srcPtr, row, c.srcInc1, i, j);
      GridSteps(c.srcPtr, row, c.srcInc1, i, c.size1 - 1);
    }
  }

  lemma DstSteps(c: Config, i: int, j: int)
    ensures DstAddr(c, 0, 0) == c.dstPtr
    ensures DstAddr(c, i, j + 1) == DstAddr(c, i, j) + c.dstInc1
    ensures DstAddr(c, i + 1, 0) == DstAddr(c, i, c.Cols() - 1) + c.dstInc2
  {
    hide Grid;
    var row := (c.Cols() - 1) * c.dstInc1 + c.dstInc2;
    GridSteps(c.dstPtr, row, c.dstInc1, i, j);
    GridSteps(c.dstPtr, row, c.dstInc1, i, c.Cols() - 1);
  }

  predicate Before(i: int, j: int, k: int, l: int) { i < k || (i == k && j < l) }

  /** The write pointer moves up, so no target is written twice. */
  lemma {:induction false} TargetsIncrease(c: Config, i: int, j: int, k: int, l: int)
    requires c.dstInc1 >= 1 && c.dstInc2 >= 1 && InGrid(c, i, j) && InGrid(c, k, l) && Before(i, j, k, l)
    ensures DstAddr(c, i, j) < DstAddr(c, k, l)
    decreases k - i, l
  {
    hide DstAddr;
    if l > 0 && Before(i, j, k, l - 1) {
      TargetsIncrease(c, i, j, k, l - 1);
      DstSteps(c, k, l - 1);
    } else if l > 0 {
      DstSteps(c, k, l - 1);
    } else {
      DstSteps(c, k - 1, 0);
      if Before(i, j, k - 1, c.Cols() - 1) { TargetsIncrease(c, i, j, k - 1, c.Cols() - 1); }
    }
  }

  lemma TargetInRange(c: Config, n: int, i: int, j: int)
    requires Writes(c, n) && InGrid(c, i, j)
    ensures 0 <= DstAddr(c, i, j) < n
  {
    hide DstAddr;
    var k, l := c.Rows() - 1, c.Cols() - 1;
    if Before(i, j, k, l) { TargetsIncrease(c, i, j, k, l); }
    if Before(0, 0, i, j) { TargetsIncrease(c, 0, 0, i, j); }
    DstSteps(c, 0, 0);
  }

  // ----------------------------------------------------------- the transfer

  /** How many source rows are finished, and how many words of the current one are read, when the
      write unit is at row i, column j. */
  function RowsRead(c: Config, i: int, j: int): int {
    if i < c.top then 0
    else if i >= c.top + c.size2 then c.size2
    else if j < c.left + c.size1 then i - c.top
    else i - c.top + 1
  }

  function ColsRead(c: Config, i: int, j: int): int { if Inside(c, i, j) then j - c.left else 0 }

  /** The position after row i, column j. */
  function Next(c: Config, i: int, j: int): (int, int) { if j + 1 == c.Cols() then (i + 1, 0) else (i, j + 1) }

  lemma ReadSteps(c: Config, i: int, j: int)
    requires InGrid(c, i, j) && c.size1 > 0
    ensures var (k, l) := Next(c, i, j); var (r, q) := (RowsRead(c, i, j), ColsRead(c, i, j));
      && 0 <= q < c.size1
      && (Inside(c, i, j) ==> r == i - c.top < c.size2 && q == j - c.left)
      && RowsRead(c, k, l) == (if Inside(c, i, j) && q + 1 == c.size1 then r + 1 else r)
      && ColsRead(c, k, l) == (if !Inside(c, i, j) then q else if q + 1 == c.size1 then 0 else q + 1)
  {
  }

  lemma EarlierTargets(c: Config, i: int, j: int)
    requires c.dstInc1 >= 1 && c.dstInc2 >= 1 && InGrid(c, i, j)
    ensures forall a, b :: InGrid(c, a, b) && Before(a, b, i, j) ==> DstAddr(c, a, b) < DstAddr(c, i, j)
  {
    hide DstAddr;
    forall a, b | InGrid(c, a, b) && Before(a, b, i, j)
      ensures DstAddr(c, a, b) < DstAddr(c, i, j)
    {
      TargetsIncrease(c, a, b, i, j);
    }
  }

  lemma IncrementsPositive(c: Config, n: int)
    requires Writes(c, n)
    ensures c.dstInc1 >= 1 && c.dstInc2 >= 1
  {
  }

  lemma OutputWord(c: Config, src: seq<Word>, i: int, j: int)
    requires Reads(c, |src|)
    ensures Inside(c, i, j) ==>
      0 <= SrcAddr(c, i - c.top, j - c.left) < |src| && Output(c, src, i, j) == src[SrcAddr(c, i - c.top, j - c.left)]
    ensures !Inside(c, i, j) ==> Output(c, src, i, j) == 0
  {
    hide SrcAddr;
  }

  /** The three units, one word per step. */
  method Transfer(src: array<Word>, dst: array<Word>, c: Config)
    requires c.size1 > 0 && c.size2 > 0 && src != dst
    requires Reads(c, src.Length) && Writes(c, dst.Length)
    modifies dst
    ensures forall i, j :: InGrid(c, i, j) ==>
      0 <= DstAddr(c, i, j) < dst.Length && dst[DstAddr(c, i, j)] == Output(c, src[..], i, j)
    ensures forall x :: 0 <= x < dst.Length && !IsTarget(c, x) ==> dst[x] == old(dst[x])
  {
    hide SrcAddr, DstAddr, RowsRead, ColsRead, IsTarget, Output, Reads, Writes, Inside;
    IncrementsPositive(c, dst.Length);
    var readPtr, trspPtr, writePtr := c.srcPtr, c.srcPtr + c.srcInc1, c.dstPtr;
    var srcCnt1, srcCnt2 := c.size1, c.size2;
    var cnt1, cnt2 := c.Cols(), c.Rows();
    ghost var i, j := 0, 0;
    NothingRead(c);
    SrcSteps(c, 0, 0);
    DstSteps(c, 0, 0);
    while cnt2 != 0
      invariant 0 <= cnt2 <= c.Rows() && 0 < cnt1 <= c.Cols() && i == c.Rows() - cnt2 && j == c.Cols() - cnt1
      invariant cnt2 == 0 ==> j == 0
      invariant srcCnt2 == c.size2 - RowsRead(c, i, j) && srcCnt1 == c.size1 - ColsRead(c, i, j)
      invariant writePtr == DstAddr(c, i, j)
      invariant readPtr == SrcAddr(c, RowsRead(c, i, j), ColsRead(c, i, j))
      invariant c.transposed ==> trspPtr == SrcAddr(c, RowsRead(c, i, j) + 1, 0)
      invariant forall a, b :: InGrid(c, a, b) && Before(a, b, i, j) ==>
        0 <= DstAddr(c, a, b) < dst.Length && dst[DstAddr(c, a, b)] == Output(c, src[..], a, b)
      invariant forall x :: 0 <= x < dst.Length && !IsTarget(c, x) ==> dst[x] == old(dst[x])
      decreases cnt2, cnt1
    {
      TargetInRange(c, dst.Length, i, j);
      OutputWord(c, src[..], i, j);
      IsATarget(c, i, j);
      EarlierTargets(c, i, j);
      ReadSteps(c, i, j);
      SrcSteps(c, RowsRead(c, i, j), ColsRead(c, i, j));
      SrcSteps(c, RowsRead(c, i, j) + 1, 0);
      DstSteps(c, i, j);
      if Inside(c, c.Rows() - cnt2, c.Cols() - cnt1) {
        dst[writePtr] := src[readPtr];
        if srcCnt1 == 1 {
          readPtr, trspPtr := if c.transposed then trspPtr else readPtr + c.srcInc2, trspPtr + c.srcInc1;
          srcCnt1, srcCnt2 := c.size1, srcCnt2 - 1;
        } else {
          readPtr := readPtr + if c.transposed then c.srcInc2 else c.srcInc1;
          srcCnt1 := srcCnt1 - 1;
        }
      } else {
        dst[writePtr] := 0;
      }
      if cnt1 == 1 {
        writePtr := writePtr + c.dstInc2;
        cnt1, cnt2 := c.Cols(), cnt2 - 1;
        i, j := i + 1, 0;
      } else {
        writePtr := writePtr + c.dstInc1;
        cnt1 := cnt1 - 1;
        j := j + 1;
      }
    }
  }

  lemma NothingRead(c: Config)
    requires c.size1 > 0
    ensures RowsRead(c, 0, 0) == 0 && ColsRead(c, 0, 0) == 0
  {
  }

  lemma IsATarget(c: Config, i: int, j: int)
    requires InGrid(c, i, j)
    ensures IsTarget(c, DstAddr(c, i, j))
  {
  }

  /** Validates a transfer, loads its registers and runs it; a refused transfer does nothing. */
  method Launch(src: array<Word>, dst: array<Word>, c: Config) returns (done: bool)
    requires src != dst
    requires Accepted(c) ==> var r := Programmed(c);
      r.size1 > 0 && r.size2 > 0 && Reads(r, src.Length) && Writes(r, dst.Length)
    modifies dst
    ensures done == Accepted(c)
    ensures !done ==> dst[..] == old(dst[..])
    ensures done ==> var r := Programmed(c);
      && (forall i, j :: InGrid(r, i, j) ==>
            0 <= DstAddr(r, i, j) < dst.Length && dst[DstAddr(r, i, j)] == Output(r, src[..], i, j))
      && (forall x :: 0 <= x < dst.Length && !IsTarget(r, x) ==> dst[x] == old(dst[x]))
  {
    hide SrcAddr, DstAddr, Inc1, Inc2, IsTarget, Reads, Writes, InGrid, Output;
    done := c.srcInc2 % 0x1_0000_0000 != 0 && c.dstInc2 % 0x1_0000_0000 != 0;
    if done { Transfer(src, dst, Programmed(c)); }
  }
}
