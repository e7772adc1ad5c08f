/// Interval accounting of the memory report (mem_usage.py): the merge of
/// overlapping regions, and the utilisation of a bank summed piece by piece.

module MemUsage {
  import opened Arithmetic

  /** A nonempty region of the image; flash-only data is not shown in RAM banks. */
  datatype Region = Region(start: int, size: nat, symbol: char, flashOnly: bool)
  {
    function End(): int { start + size }
  }

  datatype Interval = Interval(start: int, end: int)

  predicate Valid(regions: seq<Region>) { forall i :: 0 <= i < |regions| ==> regions[i].size > 0 }

  // ------------------------------------------------------ addresses covered

  function Cells(start: int, end: int): (c: set<int>)
    ensures forall x :: x in c <==> start <= x < end
    decreases end - start
  {
    if start >= end then {} else Cells(start, end - 1) + {end - 1}
  }

  /** The addresses covered by at least one region. */
  function Covered(regions: seq<Region>): set<int> {
    if regions == [] then {}
    else Covered(regions[..|regions| - 1]) + Cells(regions[|regions| - 1].start, regions[|regions| - 1].End())
  }

  lemma {:induction false} CellsCount(start: int, end: int)
    requires start <= end
    ensures |Cells(start, end)| == end - start
    decreases end - start
  {
    if start < end {
      CellsCount(start, end - 1);
      assert end - 1 !in Cells(start, end - 1);
    }
  }

  lemma {:induction false} CoveredMeaning(regions: seq<Region>, x: int)
    ensures x in Covered(regions) <==> exists i :: 0 <= i < |regions| && regions[i].start <= x < regions[i].End()
    decreases |regions|
  {
    if regions != [] {
      var r := regions[..|regions| - 1];
      CoveredMeaning(r, x);
      if x in Covered(r) {
        var i :| 0 <= i < |r| && r[i].start <= x < r[i].End();
        assert regions[i] == r[i];
      }
      if i :| 0 <= i < |regions| && regions[i].start <= x < regions[i].End() {
        if i < |r| { assert r[i] == regions[i]; }
      }
    }
  }

  // --------------------------------------------------------------- sorting

  predicate Sorted(s: seq<Region>) { forall i, j :: 0 <= i <= j < |s| ==> s[i].start <= s[j].start }

  function Inserted(s: seq<Region>, r: Region): (t: seq<Region>)
    ensures |t| == |s| + 1
  {
    if s == [] || s[|s| - 1].start <= r.start then s + [r] else Inserted(s[..|s| - 1], r) + [s[|s| - 1]]
  }

  /** The regions by start address, equal ones in their old order. */
  function SortedByStart(s: seq<Region>): (t: seq<Region>)
    ensures |t| == |s|
  {
    if s == [] then [] else Inserted(SortedByStart(s[..|s| - 1]), s[|s| - 1])
  }

  lemma SortedAppend(s: seq<Region>, r: Region)
    requires Sorted(s) && (s != [] ==> s[|s| - 1].start <= r.start)
    ensures Sorted(s + [r]) && multiset(s + [r]) == multiset(s) + multiset{r}
  {
  }

  lemma SortedInit(s: seq<Region>)
    requires Sorted(s) && s != []
    ensures var init, last := s[..|s| - 1], s[|s| - 1];
      && Sorted(init) && (init != [] ==> init[|init| - 1].start <= last.start)
      && multiset(s) == multiset(init) + multiset{last}
  {
    assert s == s[..|s| - 1] + [s[|s| - 1]];
  }

  lemma {:induction false} InsertedFacts(s: seq<Region>, r: Region)
    requires Sorted(s)
    ensures Sorted(Inserted(s, r)) && multiset(Inserted(s, r)) == multiset(s) + multiset{r}
    ensures Inserted(s, r)[|s|].start == if s == [] || s[|s| - 1].start <= r.start then r.start else s[|s| - 1].start
    decreases |s|
  {
    hide Sorted;
    if s == [] || s[|s| - 1].start <= r.start {
      SortedAppend(s, r);
    } else {
      var init, last := s[..|s| - 1], s[|s| - 1];
      SortedInit(s);
      InsertedFacts(init, r);
      SortedAppend(Inserted(init, r), last);
    }
  }

  lemma {:induction false} SortedFacts(s: seq<Region>)
    ensures Sorted(SortedByStart(s)) && multiset(SortedByStart(s)) == multiset(s)
    decreases |s|
  {
    hide Sorted, Inserted;
    if s != [] {
      SortedFacts(s[..|s| - 1]);
      InsertedFacts(SortedByStart(s[..|s| - 1]), s[|s| - 1]);
      assert s == s[..|s| - 1] + [s[|s| - 1]];
    } else {
      NothingSorted();
    }
  }

  lemma NothingSorted()
    ensures Sorted([])
  {
  }

  lemma SameMembers(s: seq<Region>, t: seq<Region>)
    requires multiset(s) == multiset(t)
    ensures Covered(s) == Covered(t) && (Valid(s) ==> Valid(t))
  {
    forall x ensures x in Covered(s) <==> x in Covered(t) {
      CoveredMeaning(s, x);
      CoveredMeaning(t, x);
      CoveredBySame(s, t, x);
      CoveredBySame(t, s, x);
    }
    forall i | 0 <= i < |t| && Valid(s) ensures t[i].size > 0 { assert t[i] in multiset(s); }
  }

  lemma CoveredBySame(s: seq<Region>, t: seq<Region>, x: int)
    requires multiset(s) == multiset(t)
    ensures (exists i :: 0 <= i < |s| && s[i].start <= x < s[i].End()) ==>
        (exists i :: 0 <= i < |t| && t[i].start <= x < t[i].End())
  {
    if i :| 0 <= i < |s| && s[i].start <= x < s[i].End() {
      assert s[i] in multiset(t);
      var j :| 0 <= j < |t| && t[j] == s[i];
    }
  }

  // ---------------------------------------------------------------- merging

  function Total(m: seq<Interval>): int {
    if m == [] then 0 else Total(m[..|m| - 1]) + (m[|m| - 1].end - m[|m| - 1].start)
  }

  function Union(m: seq<Interval>): set<int> {
    if m == [] then {} else Union(m[..|m| - 1]) + Cells(m[|m| - 1].start, m[|m| - 1].end)
  }

  /** Intervals in order, with gaps between them. */
  predicate Separated(m: seq<Interval>) {
    && (forall i :: 0 <= i < |m| ==> m[i].start < m[i].end)
    && (forall i, j :: 0 <= i < j < |m| ==> m[i].end < m[j].start)
  }

  lemma {:induction false} UnionBelow(m: seq<Interval>, bound: int)
    requires forall i :: 0 <= i < |m| ==> m[i].end <= bound
    ensures forall x :: x in Union(m) ==> x < bound
    decreases |m|
  {
    if m != [] { UnionBelow(m[..|m| - 1], bound); }
  }

  /** The lengths of separated intervals add up to the number of addresses in them. */
  lemma {:induction false} TotalIsCount(m: seq<Interval>)
    requires Separated(m)
    ensures Total(m) == |Union(m)|
    decreases |m|
  {
    if m != [] {
      var r, last := m[..|m| - 1], m[|m| - 1];
      TotalIsCount(r);
      UnionBelow(r, last.start);
      CellsCount(last.start, last.end);
      assert Union(r) !! Cells(last.start, last.end);
    }
  }

  lemma ExtendLast(m: seq<Interval>, end: int)
    requires m != []
    ensures var n := m[..|m| - 1] + [Interval(m[|m| - 1].start, end)];
      Union(n) == Union(m[..|m| - 1]) + Cells(m[|m| - 1].start, end)
  {
    var n := m[..|m| - 1] + [Interval(m[|m| - 1].start, end)];
    assert n[..|n| - 1] == m[..|m| - 1];
  }

  lemma AppendInterval(m: seq<Interval>, i: Interval)
    ensures Union(m + [i]) == Union(m) + Cells(i.start, i.end)
  {
    assert (m + [i])[..|m|] == m;
  }

  lemma SeparatedAppend(m: seq<Interval>, i: Interval)
    requires Separated(m) && i.start < i.end && (m != [] ==> m[|m| - 1].end < i.start)
    ensures Separated(m + [i])
  {
    var n := m + [i];
    forall j | 0 <= j < |m| ensures m[j].end < i.start { assert j < |m| - 1 ==> m[j].end < m[|m| - 1].start; }
  }

  lemma SeparatedExtend(m: seq<Interval>, end: int)
    requires Separated(m) && m != [] && m[|m| - 1].end <= end
    ensures Separated(m[..|m| - 1] + [Interval(m[|m| - 1].start, end)])
  {
  }

  /** One region more in the sweep. */
  method MergeOne(m: seq<Interval>, r: Region, ghost done: set<int>) returns (n: seq<Interval>)
    requires Separated(m) && r.size > 0 && Union(m) == done
    requires m != [] ==> m[|m| - 1].start <= r.start
    ensures Separated(n) && Union(n) == done + Cells(r.start, r.End())
    ensures n != [] && n[|n| - 1].start <= r.start
  {
    hide Separated;
    if m == [] || r.start > m[|m| - 1].end {
      n := m + [Interval(r.start, r.End())];
      SeparatedAppend(m, Interval(r.start, r.End()));
      AppendInterval(m, Interval(r.start, r.End()));
    } else {
      var last := m[|m| - 1];
      var end := if last.end < r.End() then r.End() else last.end;
      n := m[..|m| - 1] + [Interval(last.start, end)];
      SeparatedExtend(m, end);
      ExtendLast(m, end);
      LastNonempty(m);
      assert Cells(last.start, end) == Cells(last.start, last.end) + Cells(r.start, r.End());
    }
  }

  lemma LastNonempty(m: seq<Interval>)
    requires Separated(m) && m != []
    ensures m[|m| - 1].start < m[|m| - 1].end
  {
  }

  /** The sweep: the number of distinct addresses the regions occupy. */
  method Required(regions: seq<Region>) returns (required: nat)
    requires Valid(regions)
    ensures required == |Covered(regions)|
  {
    hide Covered, Union;
    var sorted := SortedByStart(regions);
    SortedFacts(regions);
    SameMembers(regions, sorted);
    var merged: seq<Interval> := [];
    NothingCovered();
    var i := 0;
    while i < |sorted|
      invariant 0 <= i <= |sorted| && Separated(merged) && Union(merged) == Covered(sorted[..i])
      invariant merged != [] ==> i > 0 && merged[|merged| - 1].start <= sorted[i - 1].start
    {
      CoveredStep(sorted, i);
      merged := MergeOne(merged, sorted[i], Covered(sorted[..i]));
      i := i + 1;
    }
    assert sorted[..|sorted|] == sorted;
    TotalIsCount(merged);
    required := Total(merged);
  }

  lemma NothingCovered()
    ensures Union([]) == {} && forall s: seq<Region> :: s == [] ==> Covered(s) == {}
  {
  }

  lemma CoveredStep(s: seq<Region>, i: nat)
    requires i < |s|
    ensures Covered(s[..i + 1]) == Covered(s[..i]) + Cells(s[i].start, s[i].End())
  {
    assert s[..i + 1][..i] == s[..i];
  }

  function Used(regions: seq<Region>): int {
    if regions == [] then 0 else Used(regions[..|regions| - 1]) + regions[|regions| - 1].size
  }

  predicate Overlap(a: Region, b: Region) { a.start < b.End() && b.start < a.End() }

  ghost predicate Disjoint(regions: seq<Region>) {
    forall i, j :: 0 <= i < j < |regions| ==> !Overlap(regions[i], regions[j])
  }

  lemma CardinalityOfUnion(a: set<int>, b: set<int>)
    ensures |a + b| <= |a| + |b|
    ensures |a + b| == |a| + |b| <==> a !! b
  {
    assert a + b == a + (b - a);
    assert b == (b - a) + (b * a);
    assert |a + b| == |a| + |b - a|;
    assert |b| == |b - a| + |b * a|;
    if |b * a| == 0 { assert b * a == {}; }
  }

  lemma LastRegion(regions: seq<Region>)
    requires regions != []
    ensures var r, last := regions[..|regions| - 1], regions[|regions| - 1];
      && regions == r + [last]
      && Covered(regions) == Covered(r) + Cells(last.start, last.End()) && Used(regions) == Used(r) + last.size
      && (Valid(regions) ==> Valid(r) && last.size > 0)
  {
  }

  /** The space occupied is at most the space used, and equal exactly when no two regions overlap. */
  lemma {:induction false} CoveredAtMostUsed(regions: seq<Region>)
    requires Valid(regions)
    ensures |Covered(regions)| <= Used(regions)
    ensures |Covered(regions)| == Used(regions) <==> Disjoint(regions)
    decreases |regions|
  {
    if regions == [] {
    } else {
      hide Cells, Overlap, Covered, Used, Disjoint, Valid;
      var r, last := regions[..|regions| - 1], regions[|regions| - 1];
      LastRegion(regions);
      CoveredAtMostUsed(r);
      CellsCount(last.start, last.End());
      CardinalityOfUnion(Covered(r), Cells(last.start, last.End()));
      LastDisjoint(r, last);
      DisjointLast(r, last);
    }
  }

  lemma DisjointLast(r: seq<Region>, last: Region)
    ensures Disjoint(r + [last]) <==> Disjoint(r) && (forall i :: 0 <= i < |r| ==> !Overlap(r[i], last))
  {
    var s := r + [last];
    if Disjoint(s) {
      forall i, j | 0 <= i < j < |r| ensures !Overlap(r[i], r[j]) { assert !Overlap(s[i], s[j]); }
      forall i | 0 <= i < |r| ensures !Overlap(r[i], last) { assert !Overlap(s[i], s[|r|]); }
    }
  }

  lemma SharedCell(r: seq<Region>, i: nat, last: Region)
    requires Valid(r) && last.size > 0 && i < |r| && Overlap(r[i], last)
    ensures !(Covered(r) !! Cells(last.start, last.End()))
  {
    var x := if r[i].start < last.start then last.start else r[i].start;
    CoveredMeaning(r, x);
    assert x in Covered(r) && x in Cells(last.start, last.End());
  }

  lemma LastDisjoint(r: seq<Region>, last: Region)
    requires Valid(r) && last.size > 0
    ensures Covered(r) !! Cells(last.start, last.End()) <==> (forall i :: 0 <= i < |r| ==> !Overlap(r[i], last))
  {
    hide Covered, Cells, Valid, Overlap;
    var c := Cells(last.start, last.End());
    forall i | 0 <= i < |r|
      ensures Covered(r) !! c ==> !Overlap(r[i], last)
    {
      if Overlap(r[i], last) { SharedCell(r, i, last); }
    }
    forall x | x in Covered(r) && x in c
      ensures exists i :: 0 <= i < |r| && Overlap(r[i], last)
    {
      var i := OverlapAt(r, last, x);
    }
  }

  lemma OverlapAt(r: seq<Region>, last: Region, x: int) returns (i: nat)
    requires x in Covered(r) && x in Cells(last.start, last.End())
    ensures i < |r| && Overlap(r[i], last)
  {
    CoveredMeaning(r, x);
    i :| 0 <= i < |r| && r[i].start <= x < r[i].End();
  }

  // ------------------------------------------------------------------ banks

  /** A bank of its own, or one of a group that shares an interleaved address space. */
  datatype Bank =
    | Continuous(origin: int, size: nat)
    | Interleaved(size: nat, groupOrigin: int, groupEnd: int, banks: nat)

  datatype Option<T> = None | Some(value: T)

  predicate BankValid(b: Bank) { b.Interleaved? ==> b.banks > 0 && b.groupEnd == b.groupOrigin + b.size * b.banks }

  function Base(b: Bank): int { if b.Continuous? then b.origin else b.groupOrigin }

  /** The part of a bank's drawing that a region occupies. */
  function Project(b: Bank, r: Region): (p: Option<Interval>)
    requires BankValid(b)
  {
    if b.Continuous? then
      if r.start < b.origin + b.size && b.origin < r.End()
      then Some(Interval(Max(r.start, b.origin), Min(r.End(), b.origin + b.size)))
      else None
    else
      var start, end := Max(r.start, b.groupOrigin), Min(r.End(), b.groupEnd);
      if start >= end then None
      else
        var viewStart := b.groupOrigin + (start - b.groupOrigin) / b.banks;
        var viewEnd := b.groupOrigin + (end - b.groupOrigin + b.banks - 1) / b.banks;
        var limit := b.groupOrigin + b.size;
        if viewStart >= limit then None else Some(Interval(viewStart, Min(viewEnd, limit)))
  }

  /** Address a of the image is drawn in row x of the bank. */
  predicate DrawnAt(b: Bank, a: int, x: int)
    requires BankValid(b)
  {
    if b.Continuous? then b.origin <= a < b.origin + b.size && x == a
    else b.groupOrigin <= a < b.groupEnd && x == b.groupOrigin + (a - b.groupOrigin) / b.banks
  }

  lemma RowOfGroup(x: int, n: nat, q: int)
    requires n > 0
    ensures x / n == q <==> q * n <= x < q * n + n
  {
    if q * n <= x < q * n + n { DivModUnique(x, n, q, x - q * n); }
  }

  /** The projection is exact: a row belongs to it if and only if the region has an address that is
      drawn there. */
  lemma ProjectionRows(b: Bank, r: Region, x: int)
    requires BankValid(b) && r.size > 0
    ensures (Project(b, r).Some? && Project(b, r).value.start <= x < Project(b, r).value.end)
       <==> exists a :: r.start <= a < r.End() && DrawnAt(b, a, x)
  {
    if b.Continuous? {
      if r.start <= x < r.End() && b.origin <= x < b.origin + b.size { assert DrawnAt(b, x, x); }
    } else {
      InterleavedRows(b, r, x);
    }
  }

  lemma InterleavedRows(b: Bank, r: Region, x: int)
    requires BankValid(b) && b.Interleaved? && r.size > 0
    ensures (Project(b, r).Some? && Project(b, r).value.start <= x < Project(b, r).value.end)
       <==> exists a :: r.start <= a < r.End() && DrawnAt(b, a, x)
  {
    var o, n := b.groupOrigin, b.banks;
    var start, end := Max(r.start, o), Min(r.End(), b.groupEnd);
    var q := x - o;
    if Project(b, r).Some? && Project(b, r).value.start <= x < Project(b, r).value.end {
      var a := Max(start, o + q * n);
      CeilingBound(end - o, n, q);
      FloorBound(start - o, n, q);
      RowOfGroup(a - o, n, q);
      assert DrawnAt(b, a, x);
    }
    if a :| r.start <= a < r.End() && DrawnAt(b, a, x) {
      RowOfGroup(a - o, n, q);
      CeilingBound(end - o, n, q);
      FloorBound(start - o, n, q);
      RowBelowSize(a - o, n, b.size, q);
    }
  }

  lemma FloorBound(x: int, n: nat, q: int)
    requires n > 0
    ensures x / n <= q <==> x < q * n + n
  {
    if x / n <= q { MulMonotone(x / n, q, n); } else { MulMonotone(q + 1, x / n, n); MulDistributes(q, 1, n); }
  }

  lemma CeilingBound(x: int, n: nat, q: int)
    requires n > 0
    ensures q < (x + n - 1) / n <==> q * n < x
  {
    FloorBound(x + n - 1, n, q);
  }

  lemma RowBelowSize(x: int, n: nat, size: nat, q: int)
    requires n > 0 && q * n <= x < size * n
    ensures q < size
  {
    if q >= size { MulMonotone(size, q, n); }
  }

  // ------------------------------------------------------------ utilisation

  const GRANULARITY: nat := 1024

  /** The size of the common part of two intervals. */
  function Common(a: Interval, b: Interval): int { Max(0, Min(a.end, b.end) - Max(a.start, b.start)) }

  /** What a region contributes within part of the drawing. */
  function Share(b: Bank, r: Region, part: Interval): int
    requires BankValid(b)
  {
    var p := Project(b, r);
    if r.flashOnly || p.None? then 0 else Common(part, p.value)
  }

  function Shares(b: Bank, regions: seq<Region>, part: Interval): int
    requires BankValid(b)
  {
    if regions == [] then 0 else Shares(b, regions[..|regions| - 1], part) + Share(b, regions[|regions| - 1], part)
  }

  function Piece(b: Bank, piece: int): Interval {
    Interval(Base(b) + GRANULARITY * piece, Base(b) + GRANULARITY * piece + GRANULARITY)
  }

  function FirstPieces(b: Bank, n: int): Interval { Interval(Base(b), Base(b) + GRANULARITY * n) }

  lemma ProjectionInBank(b: Bank, r: Region)
    requires BankValid(b) && r.size > 0 && Project(b, r).Some?
    ensures var p := Project(b, r).value; Base(b) <= p.start < p.end <= Base(b) + b.size || b.size == 0
  {
    if b.Interleaved? {
      var start, end := Max(r.start, b.groupOrigin), Min(r.End(), b.groupEnd);
      var q := (start - b.groupOrigin) / b.banks;
      FloorBound(start - b.groupOrigin, b.banks, q);
      RowOfGroup(start - b.groupOrigin, b.banks, q);
      CeilingBound(end - b.groupOrigin, b.banks, q);
      if q < 0 { MulMonotone(q + 1, 0, b.banks); MulDistributes(q, 1, b.banks); }
    }
  }

  /** Neighbouring parts share out a region's contribution. */
  lemma {:induction false} SharesAdd(b: Bank, regions: seq<Region>, n: nat)
    requires BankValid(b) && Valid(regions)
    ensures Shares(b, regions, FirstPieces(b, n + 1))
         == Shares(b, regions, FirstPieces(b, n)) + Shares(b, regions, Piece(b, n))
    decreases |regions|
  {
    if regions != [] {
      SharesAdd(b, regions[..|regions| - 1], n);
      var r := regions[|regions| - 1];
      if Project(b, r).Some? { ProjectionInBank(b, r); }
    }
  }

  lemma {:induction false} NoPieces(b: Bank, regions: seq<Region>)
    requires BankValid(b) && Valid(regions)
    ensures Shares(b, regions, FirstPieces(b, 0)) == 0
    decreases |regions|
  {
    if regions != [] {
      NoPieces(b, regions[..|regions| - 1]);
      var r := regions[|regions| - 1];
      if Project(b, r).Some? { ProjectionInBank(b, r); }
    }
  }

  /** The mark of a piece: the symbol of the last region that is drawn in it. */
  function Mark(b: Bank, regions: seq<Region>, piece: int): char
    requires BankValid(b)
  {
    if regions == [] then '-'
    else
      var r := regions[|regions| - 1];
      if Share(b, r, Piece(b, piece)) > 0 then r.symbol else Mark(b, regions[..|regions| - 1], piece)
  }

  /** The two loops over pieces and regions. */
  method BankUsage(b: Bank, regions: seq<Region>) returns (use: seq<char>, utilization: int)
    requires BankValid(b) && Valid(regions)
    ensures |use| == b.size / 1024
    ensures forall piece :: 0 <= piece < |use| ==> use[piece] == Mark(b, regions, piece)
    ensures utilization == Shares(b, regions, FirstPieces(b, b.size / GRANULARITY))
  {
    hide Project, Mark, Common, BankValid, FirstPieces;
    var pieces := b.size / GRANULARITY;
    use, utilization := seq(pieces, _ => '-'), 0;
    NoPieces(b, regions);
    var piece := 0;
    while piece < pieces
      invariant 0 <= piece <= pieces == |use|
      invariant forall q :: 0 <= q < piece ==> use[q] == Mark(b, regions, q)
      invariant forall q :: piece <= q < pieces ==> use[q] == '-'
      invariant utilization == Shares(b, regions, FirstPieces(b, piece))
    {
      var address := Base(b) + GRANULARITY * piece;
      var part := Interval(address, address + GRANULARITY);
      SharesAdd(b, regions, piece);
      NoRegions(b, piece);
      var i := 0;
      while i < |regions|
        invariant 0 <= i <= |regions| && |use| == pieces
        invariant forall q :: 0 <= q < piece ==> use[q] == Mark(b, regions, q)
        invariant forall q :: piece < q < pieces ==> use[q] == '-'
        invariant use[piece] == Mark(b, regions[..i], piece)
        invariant utilization == Shares(b, regions, FirstPieces(b, piece)) + Shares(b, regions[..i], Piece(b, piece))
      {
        var region := regions[i];
        RegionStep(b, regions, i, piece);
        if !region.flashOnly {
          var bankRegion := Project(b, region);
          if bankRegion.Some? {
            var overlap := Common(part, bankRegion.value);
            if overlap > 0 {
              use := use[piece := region.symbol];
              utilization := utilization + overlap;
            } else {
              CommonNatural(part, bankRegion.value);
            }
          }
        }
        i := i + 1;
      }
      assert regions[..|regions|] == regions;
      piece := piece + 1;
    }
  }

  lemma CommonNatural(a: Interval, b: Interval)
    ensures Common(a, b) >= 0
  {
  }

  lemma NoRegions(b: Bank, piece: int)
    requires BankValid(b)
    ensures forall s: seq<Region> :: s == [] ==> Mark(b, s, piece) == '-' && Shares(b, s, Piece(b, piece)) == 0
  {
  }

  lemma RegionStep(b: Bank, regions: seq<Region>, i: nat, piece: int)
    requires BankValid(b) && i < |regions|
    ensures Shares(b, regions[..i + 1], Piece(b, piece))
         == Shares(b, regions[..i], Piece(b, piece)) + Share(b, regions[i], Piece(b, piece))
    ensures Mark(b, regions[..i + 1], piece)
         == if Share(b, regions[i], Piece(b, piece)) > 0 then regions[i].symbol else Mark(b, regions[..i], piece)
  {
    assert regions[..i + 1][..i] == regions[..i];
  }

  // ------------------------------------------------- what the numbers mean

  function ProjectedLength(b: Bank, r: Region): int
    requires BankValid(b)
  {
    var p := Project(b, r);
    if r.flashOnly || p.None? then 0 else p.value.end - p.value.start
  }

  function ProjectedLengths(b: Bank, regions: seq<Region>): int
    requires BankValid(b)
  {
    if regions == [] then 0
    else ProjectedLengths(b, regions[..|regions| - 1]) + ProjectedLength(b, regions[|regions| - 1])
  }

  /** The pieces do not reach past the region's projection. */
  predicate DrawnWhole(b: Bank, r: Region)
    requires BankValid(b)
  {
    r.flashOnly || Project(b, r).None? || Project(b, r).value.end <= Base(b) + GRANULARITY * (b.size / GRANULARITY)
  }

  /** The utilisation never exceeds the projected lengths, and equals their sum exactly when no
      projection ends behind the last whole piece. */
  lemma {:induction false} UtilisationIff(b: Bank, regions: seq<Region>)
    requires BankValid(b) && Valid(regions)
    ensures Shares(b, regions, FirstPieces(b, b.size / GRANULARITY)) <= ProjectedLengths(b, regions)
    ensures Shares(b, regions, FirstPieces(b, b.size / GRANULARITY)) == ProjectedLengths(b, regions)
       <==> (forall i :: 0 <= i < |regions| ==> DrawnWhole(b, regions[i]))
    decreases |regions|
  {
    if regions != [] {
      var rest, r := regions[..|regions| - 1], regions[|regions| - 1];
      UtilisationIff(b, rest);
      ShareOfWhole(b, r);
      assert regions == rest + [r];
      assert (forall i :: 0 <= i < |regions| ==> DrawnWhole(b, regions[i]))
        <==> (forall i :: 0 <= i < |rest| ==> DrawnWhole(b, rest[i])) && DrawnWhole(b, r);
    }
  }

  lemma ShareOfWhole(b: Bank, r: Region)
    requires BankValid(b) && r.size > 0
    ensures var part := FirstPieces(b, b.size / GRANULARITY);
      Share(b, r, part) <= ProjectedLength(b, r) && (Share(b, r, part) == ProjectedLength(b, r) <==> DrawnWhole(b, r))
  {
    if Project(b, r).Some? { ProjectionInBank(b, r); }
  }

  /** Banks of whole kilobytes: the utilisation is the sum of the projected lengths. */
  lemma WholeKilobytes(b: Bank, regions: seq<Region>)
    requires BankValid(b) && Valid(regions) && b.size % 1024 == 0
    ensures Shares(b, regions, FirstPieces(b, b.size / GRANULARITY)) == ProjectedLengths(b, regions)
  {
    UtilisationIff(b, regions);
    forall i | 0 <= i < |regions|
      ensures DrawnWhole(b, regions[i])
    {
      if Project(b, regions[i]).Some? { ProjectionInBank(b, regions[i]); }
    }
  }

  /** A generated bank has a power of two of kilobytes, so its utilisation always is that sum. */
  lemma GeneratedBanks(b: Bank, regions: seq<Region>, k: nat)
    requires BankValid(b) && Valid(regions) && b.size == Pow2(k) * 1024
    ensures Shares(b, regions, FirstPieces(b, b.size / GRANULARITY)) == ProjectedLengths(b, regions)
  {
    DivModUnique(b.size, GRANULARITY, Pow2(k), 0);
    WholeKilobytes(b, regions);
  }

  /** Some row of the piece is a row of the region. */
  ghost predicate DrawnIn(b: Bank, r: Region, piece: int)
    requires BankValid(b)
  {
    && !r.flashOnly
    && exists a, x :: r.start <= a < r.End() && DrawnAt(b, a, x) && Piece(b, piece).start <= x < Piece(b, piece).end
  }

  lemma ShareMeaning(b: Bank, r: Region, piece: int)
    requires BankValid(b) && r.size > 0
    ensures Share(b, r, Piece(b, piece)) > 0 <==> DrawnIn(b, r, piece)
  {
    hide DrawnAt, Project;
    var part, p := Piece(b, piece), Project(b, r);
    if Share(b, r, part) > 0 {
      var x := Max(part.start, p.value.start);
      ProjectionRows(b, r, x);
    }
    if DrawnIn(b, r, piece) {
      var a, x :| r.start <= a < r.End() && DrawnAt(b, a, x) && part.start <= x < part.end;
      ProjectionRows(b, r, x);
    }
  }

  /** A piece is marked with the symbol of the last region that is drawn in it. */
  lemma {:induction false} MarkIsLast(b: Bank, regions: seq<Region>, piece: int, i: nat)
    requires BankValid(b) && Valid(regions) && i < |regions| && DrawnIn(b, regions[i], piece)
    requires forall j :: i < j < |regions| ==> !DrawnIn(b, regions[j], piece)
    ensures Mark(b, regions, piece) == regions[i].symbol
    decreases |regions|
  {
    hide DrawnIn, Share;
    var rest, r := regions[..|regions| - 1], regions[|regions| - 1];
    ShareMeaning(b, r, piece);
    if i < |rest| {
      assert regions == rest + [r];
      MarkIsLast(b, rest, piece, i);
    }
  }

  /** A piece stays unmarked exactly when no region has an address that is drawn in it. */
  lemma {:induction false} MarkMeaning(b: Bank, regions: seq<Region>, piece: int)
    requires BankValid(b) && Valid(regions) && forall i :: 0 <= i < |regions| ==> regions[i].symbol != '-'
    ensures Mark(b, regions, piece) == '-' <==> (forall i :: 0 <= i < |regions| ==> !DrawnIn(b, regions[i], piece))
    decreases |regions|
  {
    hide DrawnIn, Share;
    if regions != [] {
      var rest, r := regions[..|regions| - 1], regions[|regions| - 1];
      MarkMeaning(b, rest, piece);
      ShareMeaning(b, r, piece);
      assert regions == rest + [r];
    }
  }
}
