/// Building the list (core_list_init, core_list_insert_new).
///
/// The memory block is a sequence of header slots and a sequence of data slots;
/// the source's `memblock' and `datablock' pointers are the next free indices.

module ListInit {
  import opened Arithmetic
  import opened ListCells
  import opened ListSort
  import opened ListBench

  const PER_ITEM := 20

  const ADDRESS_BYTES := 4

  /** The number of slots laid out in a block, in the 32-bit unsigned arithmetic of the source. */
  function SlotCount(blksize: nat): nat {
    (blksize / PER_ITEM - 2) % 0x1_0000_0000
  }

  /** A header is two pointers and a data cell two 16-bit words: both slot arrays fit the block. */
  lemma SlotsFit(blksize: nat)
    requires 2 * PER_ITEM <= blksize < 0x1_0000_0000
    ensures 20 * (SlotCount(blksize) + 2) <= blksize < 20 * (SlotCount(blksize) + 3)
    ensures SlotCount(blksize) * (2 * ADDRESS_BYTES) + SlotCount(blksize) * 4 <= blksize
  {
  }

  /** Bitwise exclusive or of the low n bits. */
  function BitXor(a: nat, b: nat, n: nat): nat {
    if n == 0 then 0 else (a % 2 + b % 2) % 2 + 2 * BitXor(a / 2, b / 2, n - 1)
  }

  /** Bitwise or of the low n bits. */
  function BitOr(a: nat, b: nat, n: nat): nat {
    if n == 0 then 0 else (if a % 2 + b % 2 == 0 then 0 else 1) + 2 * BitOr(a / 2, b / 2, n - 1)
  }

  /** (ee_u16)(i ^ seed) */
  function Pattern(i: nat, seed: Short): nat {
    BitXor(i, seed % 0x1_0000, 16)
  }

  /** The data word of the i-th inserted item: the same byte twice. */
  function InitData(i: nat, seed: Short): (d: Half)
    ensures Low(d) == High(d)
  {
    var datpat, alg := Pattern(i, seed) % 0x10, i % 8;
    SameByteTwice(datpat * 8 + alg);
    (datpat * 8 + alg) * 0x100 + (datpat * 8 + alg)
  }

  lemma SameByteTwice(dat: nat)
    requires dat < 0x100
    ensures High(dat * 0x100 + dat) == dat && Low(dat * 0x100 + dat) == dat
  {
  }

  /** The index given to the item at position i: the first fifth in order, the rest mixed. */
  function InitIndex(i: nat, seed: Short, size: nat): (idx: Short)
    ensures size / 5 <= 0x7fff ==> 0 <= idx < 0x7fff
  {
    if i < size / 5 then Wrap16(i)
    else BitOr((i + 1) % 8 * 0x100, Pattern(i, seed), 16) % 0x4000
  }

  lemma {:induction false} ZeroBits(n: nat)
    ensures BitXor(0, 0, n) == 0 && BitOr(0, 0, n) == 0
  {
    if n > 0 { ZeroBits(n - 1); }
  }

  lemma BitStep(a: nat, b: nat, n: nat)
    requires n > 0
    ensures BitXor(a, b, n) == (a % 2 + b % 2) % 2 + 2 * BitXor(a / 2, b / 2, n - 1)
    ensures BitOr(a, b, n) == (if a % 2 + b % 2 == 0 then 0 else 1) + 2 * BitOr(a / 2, b / 2, n - 1)
  {
  }

  // ------------------------------------------------- words and indices by bits

  lemma BitBelow(x: nat, k: nat)
    ensures BitOf(x, Pow2(0)) == (x % 2 == 1)
    ensures k > 0 ==> BitOf(x, Pow2(k)) == BitOf(x / 2, Pow2(k - 1))
  {
    if k > 0 { QuotientTwice(x, 2, Pow2(k - 1)); }
  }

  /** Bit k of the results of the two operations. */
  lemma {:induction false} BitOfBoth(a: nat, b: nat, n: nat, k: nat)
    requires k < n
    ensures BitOf(BitXor(a, b, n), Pow2(k)) == (BitOf(a, Pow2(k)) != BitOf(b, Pow2(k)))
    ensures BitOf(BitOr(a, b, n), Pow2(k)) == (BitOf(a, Pow2(k)) || BitOf(b, Pow2(k)))
    decreases k
  {
    hide BitXor, BitOr, BitOf, Pow2;
    BitStep(a, b, n);
    BitBelow(a, k);
    BitBelow(b, k);
    BitBelow(BitXor(a, b, n), k);
    BitBelow(BitOr(a, b, n), k);
    if k > 0 { BitOfBoth(a / 2, b / 2, n - 1, k - 1); }
  }

  /** The pattern of position i is the exclusive or of position and seed. */
  lemma PatternBits(i: nat, seed: Short, k: nat)
    requires k < 16
    ensures BitOf(Pattern(i, seed), Pow2(k)) == (BitOf(i, Pow2(k)) != BitOf(seed % 0x1_0000, Pow2(k)))
  {
    BitOfBoth(i, seed % 0x1_0000, 16, k);
  }

  /** The word of item i selects the algorithm by i, and has the pattern's low four bits as data; it is not
      cached, and both bytes are the same. */
  lemma ItemWordFields(i: nat, seed: Short)
    ensures InitData(i, seed) % 8 == i % 8 && Parameter(InitData(i, seed)) == 0x11 * (Pattern(i, seed) % 0x10)
    ensures !IsCached(InitData(i, seed)) && High(InitData(i, seed)) == Low(InitData(i, seed))
  {
    hide Pattern;
    SplitByte(Pattern(i, seed) % 0x10, i % 8);
  }

  lemma SplitByte(pat: nat, alg: nat)
    requires pat < 0x10 && alg < 8
    ensures var d := (pat * 8 + alg) * 0x100 + (pat * 8 + alg); d % 8 == alg && d / 8 % 0x10 == pat && d / 0x80 % 2 == 0
  {
    var dat := pat * 8 + alg;
    var d := dat * 0x100 + dat;
    DivModUnique(d, 8, dat * 0x20 + pat, alg);
    DivModUnique(dat * 0x20 + pat, 0x10, dat * 2, pat);
    DivModUnique(d, 0x80, dat * 2, dat);
  }

  lemma {:induction false} LowBitsOf(x: nat, n: nat, k: nat)
    requires k < n
    ensures BitOf(x % Pow2(n), Pow2(k)) == BitOf(x, Pow2(k))
    decreases k
  {
    hide BitOf, Pow2;
    Pow2Step(n);
    ParityAndHalf(x, Pow2(n - 1));
    BitBelow(x, k);
    BitBelow(x % Pow2(n), k);
    if k > 0 { LowBitsOf(x / 2, n - 1, k - 1); }
  }

  lemma {:induction false} ShiftedBits(x: nat, m: nat, k: nat)
    ensures BitOf(x * Pow2(m), Pow2(k)) == (k >= m && BitOf(x, Pow2(k - m)))
    decreases m
  {
    hide BitOf, Pow2;
    Pow2Step(m);
    if m > 0 {
      MulAssociates(x, Pow2(m - 1), 2);
      BitBelow(x * Pow2(m), k);
      if k > 0 { ShiftedBits(x, m - 1, k - 1); }
    }
  }

  /** An index in the mixed part: the pattern's low fourteen bits, with three bits of the next position or-ed in
      from bit 8 on. */
  lemma MixedIndexBits(i: nat, seed: Short, size: nat, k: nat)
    requires i >= size / 5 && k < 14
    ensures 0 <= InitIndex(i, seed, size) < 0x4000
    ensures BitOf(InitIndex(i, seed, size), Pow2(k))
         == (BitOf(Pattern(i, seed), Pow2(k)) || (8 <= k < 11 && BitOf(i + 1, Pow2(k - 8))))
  {
    hide BitOf, Pow2, Pattern, BitOr;
    Pow2Values();
    var a, b := (i + 1) % 8 * 0x100, Pattern(i, seed);
    LowBitsOf(BitOr(a, b, 16), 14, k);
    BitOfBoth(a, b, 16, k);
    ShiftedBits((i + 1) % 8, 8, k);
    if k >= 8 {
      if k < 11 { LowBitsOf(i + 1, 3, k - 8); } else { NoHighBits((i + 1) % 8, k - 8); }
    }
  }

  lemma NoHighBits(x: nat, k: nat)
    requires x < 8 && 3 <= k < 14
    ensures !BitOf(x, Pow2(k))
  {
    Pow2Monotone(3, k);
    assert Pow2(3) == 8;
    DivModUnique(x, Pow2(k), 0, x);
  }

  // ---------------------------------------------------------- the memory

  /** Distinct slots; slot k of the headers will point at slot k of the data. */
  ghost predicate Slots(heads: seq<ListHead>, datas: seq<ListData>) {
    && NoDup(heads) && |heads| == |datas|
    && forall i, j :: 0 <= i < j < |datas| ==> datas[i] != datas[j]
  }

  /** After m slots are used: the head, then the items, latest first. */
  ghost function Laid(heads: seq<ListHead>, m: nat): (r: Nodes)
    requires 1 <= m <= |heads|
    ensures |r| == m && r[0] == heads[0]
    ensures forall k :: 1 <= k < m ==> r[k] == heads[m - k]
  {
    [heads[0]] + Reversed(heads[1..m])
  }

  ghost predicate Built(heads: seq<ListHead>, datas: seq<ListData>, m: nat)
    requires 1 <= m <= |heads| == |datas|
    reads heads`next, heads`info
  {
    IsList(heads[0], Laid(heads, m)) && forall k :: 0 <= k < m ==> heads[k].info == datas[k]
  }

  lemma LaidNext(heads: seq<ListHead>, m: nat)
    requires 1 <= m < |heads|
    ensures Laid(heads, m + 1) == [heads[0], heads[m]] + Laid(heads, m)[1..]
  {
    var r, t := Laid(heads, m + 1), [heads[0], heads[m]] + Laid(heads, m)[1..];
    assert forall k :: 0 <= k < |r| ==> r[k] == t[k];
  }

  /** Inserts a new item after the head, if a header slot and a data slot are left. */
  method InsertNew(heads: seq<ListHead>, datas: seq<ListData>, idx: Short, data16: Half, m: nat)
    returns (newitem: ListHead?, m': nat)
    requires Slots(heads, datas) && 1 <= m < |heads| && Built(heads, datas, m)
    modifies heads`next, heads`info, {datas[m]}`idx, {datas[m]}`data16
    ensures if m + 1 >= |heads| then newitem == null && m' == m else newitem == heads[m] && m' == m + 1
    ensures Built(heads, datas, m')
    ensures m' == m + 1 ==> datas[m].idx == idx && datas[m].data16 == data16
    ensures m' == m ==> unchanged(datas[m])
  {
    m' := m;
    newitem := null;
    if m + 1 >= |heads| {
      return;
    }
    ghost var t, u := Laid(heads, m), Laid(heads, m + 1);
    LaidNext(heads, m);
    assert m > 1 ==> t[0].next == t[1];
    newitem := heads[m];
    m' := m + 1;
    newitem.next := heads[0].next;
    heads[0].next := newitem;
    newitem.info := datas[m];
    newitem.info.data16 := data16;
    newitem.info.idx := idx;
    forall k | 0 <= k < |u|
      ensures u[k].next == if k + 1 < |u| then u[k + 1] else null
    {
      if k >= 2 { assert u[k] == t[k - 1]; }
    }
  }

  /** The data word of slot k: head, tail, then the items in order of insertion. */
  function WordAt(k: nat, seed: Short): (d: Half)
    ensures Low(d) == High(d)
  {
    SameByteTwice(0x80);
    SameByteTwice(0xff);
    if k == 0 then 0x8080 else if k == 1 then 0xffff else InitData(k - 2, seed)
  }

  ghost predicate Words(datas: seq<ListData>, seed: Short, m: nat)
    requires m <= |datas|
    reads datas`data16
  {
    forall k :: 0 <= k < m ==> datas[k].data16 == WordAt(k, seed)
  }

  lemma JustHead(heads: seq<ListHead>, datas: seq<ListData>)
    requires |heads| == |datas| > 0 && heads[0].next == null && heads[0].info == datas[0]
    ensures Built(heads, datas, 1)
  {
  }

  lemma EndWords(seed: Short)
    ensures WordAt(0, seed) == 0x8080 && WordAt(1, seed) == 0xffff
  {
  }

  lemma ItemWord(i: nat, seed: Short)
    ensures WordAt(i + 2, seed) == InitData(i, seed)
  {
  }

  /** Lays out the head, the tail and the items: all slots but the last are used. */
  method Insert(heads: seq<ListHead>, datas: seq<ListData>, seed: Short)
    requires Slots(heads, datas) && |heads| >= 3
    modifies heads`next, heads`info, datas`idx, datas`data16
    ensures Built(heads, datas, |heads| - 1) && Words(datas, seed, |heads| - 1)
    ensures datas[0].idx == 0 && datas[1].idx == 0x7fff
  {
    hide Laid, Chained, InitData, WordAt, Built, NoDup;
    EndWords(seed);
    var size := |heads|;
    var list := heads[0];
    list.next := null;
    list.info := datas[0];
    list.info.idx := 0;
    list.info.data16 := 0x8080;
    JustHead(heads, datas);
    var item, m := InsertNew(heads, datas, 0x7fff, 0xffff, 1);
    var i := 0;
    while i < size
      invariant 0 <= i <= size && m == Min(i + 2, size - 1)
      invariant Built(heads, datas, m) && Words(datas, seed, m)
      invariant datas[0].idx == 0 && datas[1].idx == 0x7fff
    {
      ItemWord(i, seed);
      item, m := InsertNew(heads, datas, 0x7fff, InitData(i, seed), m);
      i := i + 1;
    }
  }

  /** The nodes of the built list have the indices of the formula, between the head's 0 and
      the tail's 0x7fff. */
  ghost predicate Indexed(s: Nodes, seed: Short, size: nat, n: nat)
    requires 2 <= |s| && n <= |s| - 1
    reads s`info, (set x | x in s :: x.info)`idx
  {
    && s[0].info.idx == 0 && s[|s| - 1].info.idx == 0x7fff
    && forall k :: 1 <= k < n ==> s[k].info.idx == InitIndex(k, seed, size)
  }

  /** Node k holds data cell ds[k], and no two share one. */
  ghost predicate Holds(s: Nodes, ds: seq<ListData>)
    reads s`info
  {
    && |ds| == |s|
    && (forall k :: 0 <= k < |s| ==> s[k].info == ds[k])
    && forall i, j :: 0 <= i < j < |ds| ==> ds[i] != ds[j]
  }

  method IndexItems(list: ListHead, seed: Short, size: nat, ghost s: Nodes, ghost ds: seq<ListData>)
    requires IsList(list, s) && |s| >= 2 && Holds(s, ds)
    requires ds[0].idx == 0 && ds[|s| - 1].idx == 0x7fff
    modifies ds`idx
    ensures Indexed(s, seed, size, |s| - 1)
  {
    assert s[0].next == s[1];
    var finder := list.next;
    var i := 1;
    while finder.next != null
      invariant 1 <= i < |s| && finder == s[i]
      invariant ds[0].idx == 0 && ds[|s| - 1].idx == 0x7fff
      invariant forall k :: 1 <= k < i ==> ds[k].idx == InitIndex(k, seed, size)
      invariant finder.next == if i + 1 < |s| then s[i + 1] else null
      decreases |s| - i
    {
      finder.info.idx := InitIndex(i, seed, size);
      finder := finder.next;
      i := i + 1;
    }
  }

  ghost function LaidDatas(datas: seq<ListData>): (ds: seq<ListData>)
    requires |datas| >= 3
    ensures |ds| == |datas| - 1 && ds[0] == datas[0]
    ensures forall k :: 1 <= k < |ds| ==> ds[k] == datas[|datas| - 1 - k]
  {
    seq(|datas| - 1, k requires 0 <= k < |datas| - 1 => if k == 0 then datas[0] else datas[|datas| - 1 - k])
  }

  lemma LaidHolds(heads: seq<ListHead>, datas: seq<ListData>)
    requires Slots(heads, datas) && |heads| >= 3 && Built(heads, datas, |heads| - 1)
    ensures Holds(Laid(heads, |heads| - 1), LaidDatas(datas))
  {
  }

  lemma LaidNodes(heads: seq<ListHead>)
    requires NoDup(heads) && |heads| >= 3
    ensures NoDup(Laid(heads, |heads| - 1)) && multiset(Laid(heads, |heads| - 1)) == multiset(heads[..|heads| - 1])
  {
    var m := |heads| - 1;
    var s := Laid(heads, m);
    ReversedPerm(heads[1..m]);
    assert heads[..m] == [heads[0]] + heads[1..m];
    forall i, j | 0 <= i < j < |s|
      ensures s[i] != s[j]
    {
    }
  }

  lemma TiedPair(s: Nodes, out: Nodes, i: nat, j: nat, a: nat, b: nat)
    requires StablySorted(CmpIdx, s, out) && i < j < |out| && a < |s| && b < |s|
    requires out[i] == s[a] && out[j] == s[b] && Rank(CmpIdx, out[i]) == Rank(CmpIdx, out[j])
    ensures a < b
  {
  }

  lemma SortedPair(s: Nodes, out: Nodes, i: nat, j: nat)
    requires StablySorted(CmpIdx, s, out) && i <= j < |out|
    ensures Rank(CmpIdx, out[i]) <= Rank(CmpIdx, out[j])
  {
  }

  /** In a stable sort of nonnegative indices a first node of index 0 stays first. */
  lemma HeadStays(s: Nodes, out: Nodes)
    requires s != [] && multiset(out) == multiset(s) && StablySorted(CmpIdx, s, out)
    requires s[0].info.idx == 0 && forall k :: 0 <= k < |s| ==> Rank(CmpIdx, s[k]) >= 0
    ensures out != [] && out[0] == s[0]
  {
    hide StablySorted;
    var a := WhereIn(s, out, 0);
    var b := WhereIn(out, s, 0);
    SortedPair(s, out, 0, a);
    if a > 0 {
      TiedPair(s, out, 0, a, b, 0);
    }
  }

  lemma WhereIn(s: Nodes, out: Nodes, i: nat) returns (k: nat)
    requires multiset(out) == multiset(s) && i < |s|
    ensures k < |out| && out[k] == s[i]
  {
    assert s[i] in multiset(out);
    k :| k < |out| && out[k] == s[i];
  }

  /** The node of greatest index ends up last. */
  lemma TailStays(s: Nodes, out: Nodes)
    requires s != [] && multiset(out) == multiset(s) && StablySorted(CmpIdx, s, out)
    requires forall k :: 0 <= k < |s| - 1 ==> Rank(CmpIdx, s[k]) < Rank(CmpIdx, s[|s| - 1])
    ensures out != [] && out[|out| - 1] == s[|s| - 1]
  {
    hide StablySorted;
    var a := WhereIn(s, out, |s| - 1);
    var b := WhereIn(out, s, |out| - 1);
    SortedPair(s, out, a, |out| - 1);
  }

  lemma EndsStay(s: Nodes, out: Nodes, seed: Short, size: nat)
    requires |s| >= 2 && multiset(out) == multiset(s) && StablySorted(CmpIdx, s, out)
    requires Indexed(s, seed, size, |s| - 1) && size / 5 <= 0x7fff
    ensures out != [] && out[0] == s[0] && out[|out| - 1] == s[|s| - 1]
  {
    hide StablySorted, InitIndex;
    HeadStays(s, out);
    TailStays(s, out);
  }

  ghost function Cells(datas: seq<ListData>): set<ListData> {
    set d | d in datas
  }

  lemma LaidFacts(heads: seq<ListHead>, datas: seq<ListData>, s: Nodes)
    requires Slots(heads, datas) && |heads| >= 3 && Built(heads, datas, |heads| - 1)
    requires s == Laid(heads, |heads| - 1)
    ensures NoDup(s) && IsList(heads[0], s) && Holds(s, LaidDatas(datas)) && InfosIn(NodeSet(s), Cells(datas))
    ensures multiset(s) == multiset(heads[..|heads| - 1])
    ensures forall k :: 0 <= k < |heads| - 1 ==> heads[k] in s && heads[k].info == datas[k]
    ensures NodeSet(s) <= set h | h in heads
  {
    LaidNodes(heads);
    LaidHolds(heads, datas);
    forall k | 0 <= k < |heads| - 1
      ensures heads[k] in s
    {
      assert heads[k] in heads[..|heads| - 1];
      assert heads[k] in multiset(s);
    }
  }

  /** Sorting by index keeps words whose low byte is a copy of the high byte. */
  lemma SortKeepsWord(before: Half, after: Half)
    requires Low(before) == High(before) && after == Rebuilt(before)
    ensures after == before
  {
    RebuiltIsIdentity(before);
  }

  /** The index of slot k: the tail's is the largest, and the items are numbered from the latest
      on. */
  function IndexAt(k: nat, seed: Short, size: nat): Short
    requires k < size
  {
    if k == 0 then 0 else if k == 1 then 0x7fff else InitIndex(size - 1 - k, seed, size)
  }

  ghost predicate Numbered(datas: seq<ListData>, seed: Short)
    reads datas`idx
  {
    forall k :: 0 <= k < |datas| - 1 ==> datas[k].idx == IndexAt(k, seed, |datas|)
  }

  lemma AllNumbered(heads: seq<ListHead>, datas: seq<ListData>, seed: Short)
    requires |heads| == |datas| >= 3 && forall k :: 0 <= k < |heads| - 1 ==> heads[k].info == datas[k]
    requires Indexed(Laid(heads, |heads| - 1), seed, |heads|, |heads| - 2)
    ensures Numbered(datas, seed)
  {
    hide InitIndex;
    var s := Laid(heads, |heads| - 1);
    forall k | 0 <= k < |datas| - 1
      ensures datas[k].idx == IndexAt(k, seed, |datas|)
    {
      assert k > 0 ==> s[|heads| - 1 - k] == heads[k];
    }
  }

  method InsertAndIndex(heads: seq<ListHead>, datas: seq<ListData>, seed: Short, ghost s: Nodes)
    requires Slots(heads, datas) && |heads| >= 3 && s == Laid(heads, |heads| - 1)
    modifies heads`next, heads`info, datas`idx, datas`data16
    ensures Built(heads, datas, |heads| - 1) && Words(datas, seed, |heads| - 1)
    ensures Indexed(s, seed, |heads|, |s| - 1)
  {
    hide NoDup, Chained, Laid, LaidDatas, InfosIn, Holds, InitIndex, Words;
    Insert(heads, datas, seed);
    LaidFacts(heads, datas, s);
    IndexItems(heads[0], seed, |heads|, s, LaidDatas(datas));
  }

  /** The final sort: the words and numbers of the slots stay. */
  method SortSlots(heads: seq<ListHead>, datas: seq<ListData>, seed: Short, ghost s: Nodes)
    returns (list: ListHead, ghost out: Nodes)
    requires Slots(heads, datas) && |heads| >= 3 && s == Laid(heads, |heads| - 1)
    requires Built(heads, datas, |heads| - 1) && Words(datas, seed, |heads| - 1)
    modifies heads`next, datas`data16
    ensures IsList(list, out) && NoDup(out) && multiset(out) == multiset(heads[..|heads| - 1]) == multiset(s)
    ensures IndexSorted(out) && StablySorted(CmpIdx, s, out)
    ensures Words(datas, seed, |heads| - 1)
  {
    hide NoDup, Chained, StablySorted, IndexSorted, Laid, LaidDatas, InfosIn, Rebuilt, Low, High, Holds, WordAt;
    LaidFacts(heads, datas, s);
    list, out := IndexSort(heads[0], s, s, Cells(datas));
    forall k | 0 <= k < |heads| - 1
      ensures datas[k].data16 == WordAt(k, seed)
    {
      assert heads[k] in s;
      SortKeepsWord(old(heads[k].info.data16), heads[k].info.data16);
    }
  }

  /** No two of the slots in use get the same index. */
  predicate IndicesDistinct(seed: Short, size: nat) {
    forall j, k :: 0 <= j < k < size - 1 ==> IndexAt(j, seed, size) != IndexAt(k, seed, size)
  }

  /** No slot in use but the head's gets index 0. */
  predicate HeadAlone(seed: Short, size: nat) {
    forall k :: 0 < k < size - 1 ==> IndexAt(k, seed, size) != 0
  }

  lemma SlotOf(heads: seq<ListHead>, out: Nodes, i: nat) returns (k: nat)
    requires heads != [] && multiset(out) == multiset(heads[..|heads| - 1]) && i < |out|
    ensures k < |heads| - 1 && out[i] == heads[k]
  {
    k := WhereIn(out, heads[..|heads| - 1], i);
  }

  /** A list sorted by index is in strict order if and only if no slot repeats an index. */
  lemma IncreasingIffDistinct(heads: seq<ListHead>, datas: seq<ListData>, seed: Short, out: Nodes)
    requires |heads| == |datas| >= 3 && NoDup(heads) && NoDup(out) && multiset(out) == multiset(heads[..|heads| - 1])
    requires forall k :: 0 <= k < |heads| - 1 ==> heads[k].info == datas[k]
    requires Numbered(datas, seed) && IndexSorted(out)
    ensures IndexIncreasing(out) <==> IndicesDistinct(seed, |heads|)
  {
    hide IndexAt;
    var used := heads[..|heads| - 1];
    if IndicesDistinct(seed, |heads|) {
      forall i, j | 0 <= i < j < |out|
        ensures out[i].info.idx < out[j].info.idx
      {
        var a := SlotOf(heads, out, i);
        var b := SlotOf(heads, out, j);
        assert a < b || b < a;
      }
    } else {
      var j, k :| 0 <= j < k < |heads| - 1 && IndexAt(j, seed, |heads|) == IndexAt(k, seed, |heads|);
      var a := WhereIn(used, out, j);
      var b := WhereIn(used, out, k);
      assert out[a] == heads[j] && out[b] == heads[k];
      assert a < b || b < a;
    }
  }

  /** The head's index is the least if and only if no other slot has index 0. */
  lemma LeastIffAlone(heads: seq<ListHead>, datas: seq<ListData>, seed: Short, out: Nodes)
    requires |heads| == |datas| >= 3 && |heads| / 5 <= 0x7fff && NoDup(heads) && NoDup(out)
    requires multiset(out) == multiset(heads[..|heads| - 1]) && out != [] && out[0] == heads[0]
    requires forall k :: 0 <= k < |heads| - 1 ==> heads[k].info == datas[k]
    requires Numbered(datas, seed)
    ensures HeadLeast(out) <==> HeadAlone(seed, |heads|)
  {
    hide InitIndex;
    var used := heads[..|heads| - 1];
    if HeadAlone(seed, |heads|) {
      forall j | 0 < j < |out|
        ensures out[0].info.idx < out[j].info.idx
      {
        var k := SlotOf(heads, out, j);
      }
    } else {
      var k :| 0 < k < |heads| - 1 && IndexAt(k, seed, |heads|) == 0;
      var b := WhereIn(used, out, k);
      assert out[b] == heads[k];
    }
  }

  /** Builds the list in a block that holds |heads| >= 3 slots: all but the last slot are used, each
      node with its own data cell, and the list comes out sorted by index, strictly so if and only
      if the numbering repeats no index. */
  method InitList(heads: seq<ListHead>, datas: seq<ListData>, seed: Short)
    returns (list: ListHead, ghost out: Nodes)
    requires Slots(heads, datas) && |heads| >= 3
    modifies heads`next, heads`info, datas`idx, datas`data16
    ensures IsList(list, out) && NoDup(out) && multiset(out) == multiset(heads[..|heads| - 1])
    ensures forall k :: 0 <= k < |heads| - 1 ==> heads[k].info == datas[k]
    ensures Words(datas, seed, |heads| - 1) && Numbered(datas, seed)
    ensures IndexSorted(out) && (IndexIncreasing(out) <==> IndicesDistinct(seed, |heads|))
    ensures |heads| / 5 <= 0x7fff ==>
      list == heads[0] && out[|out| - 1] == heads[1] && (HeadLeast(out) <==> HeadAlone(seed, |heads|))
  {
    hide NoDup, Chained, StablySorted, IndexSorted, IndexIncreasing, HeadLeast, Laid, LaidDatas, Numbered, Words,
      Indexed, InitIndex, IndexAt, IndicesDistinct, HeadAlone;
    ghost var s := Laid(heads, |heads| - 1);
    InsertAndIndex(heads, datas, seed, s);
    AllNumbered(heads, datas, seed);
    list, out := SortSlots(heads, datas, seed, s);
    IncreasingIffDistinct(heads, datas, seed, out);
    if |heads| / 5 <= 0x7fff {
      LaidEnds(heads);
      EndsStay(s, out, seed, |heads|);
      LeastIffAlone(heads, datas, seed, out);
    }
  }

  lemma LaidEnds(heads: seq<ListHead>)
    requires |heads| >= 3
    ensures var s := Laid(heads, |heads| - 1); s[0] == heads[0] && s[|s| - 1] == heads[1]
  {
  }
}
