/// The benchmark on the lists that core_list_init builds, and its repetition (`iterate').

module ListIterate {
  import opened Arithmetic
  import opened ListCells
  import opened ListSort
  import opened ListBench
  import opened ListInit
  import opened ListNumbers
  import Crc

  // ----------------------------------------------------- on the built list

  lemma SearchMisses(heads: seq<ListHead>, datas: seq<ListData>, seed: Short, finderIdx: Short, s: Nodes)
    requires |heads| == |datas| >= 3 && multiset(s) == multiset(heads[..|heads| - 1])
    requires forall k :: 0 <= k < |heads| - 1 ==> heads[k].info == datas[k]
    requires Words(datas, seed, |heads| - 1) && NoZeroByte(seed, |heads|) && finderIdx < 0
    ensures FoundAt(s, finderIdx, 0, |s|)
  {
    hide WordAt;
    forall i | 0 <= i < |s|
      ensures !Matches(s[i], finderIdx, 0)
    {
      var k := SlotOf(heads, s, i);
    }
  }

  lemma CellsOfSlots(heads: seq<ListHead>, datas: seq<ListData>, s: Nodes)
    requires |heads| == |datas| >= 3 && multiset(s) == multiset(heads[..|heads| - 1])
    requires forall k :: 0 <= k < |heads| - 1 ==> heads[k].info == datas[k]
    ensures InfosIn(NodeSet(s), Cells(datas)) && NodeSet(s) <= (set h | h in heads) && |s| == |heads| - 1
    ensures forall k :: 0 <= k < |heads| - 1 ==> heads[k] in s
  {
    SameNodes(s, heads[..|heads| - 1]);
    forall k | 0 <= k < |heads| - 1
      ensures heads[k] in s
    {
      assert heads[k] in heads[..|heads| - 1];
    }
  }

  /** The state that core_list_init leaves: slots, words, numbers and the list itself. */
  ghost predicate Ready(heads: seq<ListHead>, datas: seq<ListData>, seed: Short, s: Nodes)
    requires |heads| == |datas| >= 4
    reads heads`next, heads`info, s`next, datas`data16, datas`idx
  {
    && IsList(heads[0], s) && NoDup(s) && multiset(s) == multiset(heads[..|heads| - 1])
    && (forall k :: 0 <= k < |heads| - 1 ==> heads[k].info == datas[k])
    && Words(datas, seed, |heads| - 1) && Numbered(datas, seed)
  }

  /** The benchmark on a list in that state: links to the data, words and numbers stay. */
  method BenchBuilt(heads: seq<ListHead>, datas: seq<ListData>, seed: Short, findNum: Short, finderIdx: Short,
                    res: CoreResults, ghost s: Nodes)
    returns (list: ListHead, hash: bv16, ghost out: Nodes)
    requires Slots(heads, datas) && |heads| >= 4 && Ready(heads, datas, seed, s)
    modifies heads`next, heads`info, datas`data16, res
    ensures IsList(list, out) && NoDup(out) && multiset(out) == multiset(s)
    ensures forall k :: 0 <= k < |heads| - 1 ==> heads[k].info == datas[k]
    ensures Words(datas, seed, |heads| - 1) && Numbered(datas, seed) && IndexSorted(out)
    ensures old(IndexIncreasing(s)) ==> out == s
    ensures old(HeadLeast(s)) ==> list == heads[0]
    ensures findNum == 1 && finderIdx < 0 && NoZeroByte(seed, |heads|) ==>
      (out == s <==> old(IndexIncreasing(s))) && (list == heads[0] <==> old(HeadLeast(s)))
  {
    hide NoDup, Chained, StablySorted, IndexSorted, IndexIncreasing, HeadLeast, OrderKept, HeadKept, Numbered, InfosIn,
      NoZeroByte, FoundAt, FirstHalf, SecondHalf, Items, WordAt, Rebuilt, KeptBy, HeadKeptBy, SearchOrder, Mapped,
      Recorded, Computed, HitCount, BitCount, WordsOf, Infos, InfoSet;
    CellsOfSlots(heads, datas, s);
    if finderIdx < 0 && NoZeroByte(seed, |heads|) { SearchMisses(heads, datas, seed, finderIdx, s); }
    ghost var u, trace;
    list, hash, out, u, trace := BenchList(heads[0], findNum, finderIdx, res, s, Cells(datas));
    forall k | 0 <= k < |heads| - 1
      ensures heads[k].info == datas[k] && datas[k].data16 == WordAt(k, seed)
    {
      assert heads[k] in s;
      SortKeepsWord(old(datas[k].data16), datas[k].data16);
    }
  }

  /** One call of the benchmark on a freshly built list.  Distinct indices bring every list back,
      whatever is searched.  A single search that misses brings it back if and only if they are
      distinct, and its head if and only if no other item shares the head's index. */
  method InitAndBench(heads: seq<ListHead>, datas: seq<ListData>, seed: Short, findNum: Short, finderIdx: Short,
                      res: CoreResults)
    returns (list: ListHead, hash: bv16, ghost built: Nodes, ghost out: Nodes)
    requires Slots(heads, datas) && 4 <= |heads| < 5 * 0x8000
    modifies heads`next, heads`info, datas`idx, datas`data16, res
    ensures IsList(list, out) && NoDup(out) && multiset(out) == multiset(built) == multiset(heads[..|heads| - 1])
    ensures forall k :: 0 <= k < |heads| - 1 ==> heads[k].info == datas[k]
    ensures Words(datas, seed, |heads| - 1) && Numbered(datas, seed)
    ensures built[0] == heads[0]
    ensures IndicesDistinct(seed, |heads|) ==> out == built
    ensures HeadAlone(seed, |heads|) ==> list == heads[0]
    ensures findNum == 1 && finderIdx < 0 && NoZeroByte(seed, |heads|) ==>
      && (out == built <==> IndicesDistinct(seed, |heads|))
      && (list == heads[0] <==> HeadAlone(seed, |heads|))
  {
    hide NoDup, Chained, StablySorted, IndexSorted, IndexIncreasing, HeadLeast, Numbered, Words, IndicesDistinct,
      HeadAlone, NoZeroByte;
    list, built := InitList(heads, datas, seed);
    CellsOfSlots(heads, datas, built);
    list, hash, out := BenchBuilt(heads, datas, seed, findNum, finderIdx, res, built);
  }

  /** An iteration on the list of seed 2, 666 bytes and a third seed of 1: the second call, whose search
      for a zero byte misses, hands the list on in another order than it was given. */
  method NotRestored(heads: seq<ListHead>, datas: seq<ListData>, res: CoreResults)
    returns (ghost built: Nodes, ghost first: Nodes, ghost second: Nodes)
    requires Slots(heads, datas) && |heads| == SlotCount(666)
    modifies heads`next, heads`info, datas`idx, datas`data16, res
    ensures multiset(built) == multiset(first) == multiset(second) && first != second
    ensures built[0] == first[0] == second[0] == heads[0] && IsList(heads[0], second)
  {
    hide NoDup, Chained, StablySorted, IndexSorted, IndexIncreasing, HeadLeast, Numbered, Words, IndicesDistinct,
      HeadAlone, NoZeroByte;
    SeedTwoRepeats();
    SeedTwoHead();
    SeedMisses(2, |heads|);
    var list, hash;
    list, built := InitList(heads, datas, 2);
    CellsOfSlots(heads, datas, built);
    list, hash, first := BenchBuilt(heads, datas, 2, 1, 1, res, built);
    IncreasingIffDistinct(heads, datas, 2, first);
    LeastIffAlone(heads, datas, 2, first);
    list, hash, second := BenchBuilt(heads, datas, 2, 1, -1, res, first);
  }

  /** The same iteration for seed 7: by its end the node that the record points to is not the head. */
  method HeadLost(heads: seq<ListHead>, datas: seq<ListData>, res: CoreResults)
    returns (list: ListHead, ghost built: Nodes, ghost out: Nodes)
    requires Slots(heads, datas) && |heads| == SlotCount(666)
    modifies heads`next, heads`info, datas`idx, datas`data16, res
    ensures IsList(list, out) && multiset(out) == multiset(built) && built[0] == heads[0] && list != heads[0]
  {
    hide NoDup, Chained, StablySorted, IndexSorted, IndexIncreasing, HeadLeast, Numbered, Words, IndicesDistinct,
      HeadAlone, NoZeroByte;
    SeedSevenSharesZero();
    SeedMisses(7, |heads|);
    var hash;
    list, built := InitList(heads, datas, 7);
    CellsOfSlots(heads, datas, built);
    list, hash, out := BenchBuilt(heads, datas, 7, 1, 1, res, built);
    if list == heads[0] {
      ghost var first := out;
      LeastIffAlone(heads, datas, 7, first);
      list, hash, out := BenchBuilt(heads, datas, 7, 1, -1, res, first);
    }
  }

  // -------------------------------------------------------------- repetition

  /** One call of the benchmark: its finder index, the words of the list's cells, the cells in the order in
      which they are sorted by data, what it went through, its result, and the record at its beginning, at
      its end, and after the result was folded in. */
  datatype Call = Call(finderIdx: Short, was: map<ListData, Half>, cells: seq<ListData>, trace: Trace, hash: bv16,
                       begin: Record, left: Record, after: Record)

  /** The call ran on a list of these items, with this word at the head in the end. */
  ghost predicate RanFrom(items: seq<Item>, findNum: Short, c: Call, last: Half) {
    && |items| >= 3 && FirstHalf(items, findNum, c.finderIdx, c.trace)
    && SecondHalf(|items|, c.trace, last, c.hash)
  }

  /** The call ran on a list of these items and found the same word at the head in the end. */
  ghost predicate RanOn(items: seq<Item>, findNum: Short, c: Call) {
    |items| >= 3 && RanFrom(items, findNum, c, items[0].data)
  }

  /** The result is folded into the CRC that the call has left. */
  ghost predicate HashFolded(c: Call) {
    && Crc.BitsOf(c.after.crc, 16) == Crc.Feed(Crc.BitsOf(c.hash, 16), Crc.BitsOf(c.left.crc, 16))
    && c.after == c.left.(crc := c.after.crc)
  }

  /** What a call does to the record: it computes the uncached words for its sort by data, if there is one, each
      once and folded in, and then its result is folded in. */
  ghost predicate Accounted(answers: Answers, c: Call) {
    && Recorded(answers, c.begin, c.trace.runs, c.left)
    && Computed(c.was, c.cells, c.trace.sorted, c.finderIdx, c.trace.runs)
    && HashFolded(c)
  }

  /** Every word is its own backup. */
  ghost predicate SelfBacked(s: Nodes)
    reads s`info, (set x | x in s :: x.info)`data16
  {
    forall x :: x in s ==> Low(x.info.data16) == High(x.info.data16)
  }

  lemma WordsBacked(s: Nodes)
    ensures SelfBacked(s) <==> forall x :: x in s ==> Low(x.info.data16) == High(x.info.data16)
  {
  }

  lemma SameItems(s: Nodes, items: seq<Item>)
    requires |items| == |s| && forall i :: 0 <= i < |s| ==> items[i] == Item(s[i].info.data16, s[i].info.idx)
    ensures Items(s) == items
  {
  }

  lemma StillLeast(s: Nodes, out: Nodes)
    requires s != [] && NoDup(s) && multiset(s) == multiset(out) && HeadLeast(s) && NoDup(out)
    requires out != [] && out[0] == s[0]
    ensures HeadLeast(out)
  {
    SameNodes(s, out);
    forall j | 0 < j < |out|
      ensures out[0].info.idx < out[j].info.idx
    {
      assert out[j] in s;
    }
  }

  /** One call on the record's list, and its result folded into the record's CRC. */
  method BenchAndFold(list: ListHead, findNum: Short, finderIdx: Short, res: CoreResults, ghost s: Nodes,
                      ghost datas: set<ListData>)
    returns (head: ListHead, ghost c: Call, ghost full: Nodes)
    requires IsList(list, s) && NoDup(s) && |s| >= 3 && InfosIn(NodeSet(s), datas)
    modifies NodeSet(s)`next, NodeSet(s)`info, datas`data16, res
    ensures IsList(head, full) && NoDup(full) && multiset(full) == multiset(s)
    ensures forall n :: n in s ==> n.info == old(n.info) && n.info.data16 == Rebuilt(old(n.info.data16))
    ensures forall n :: n in s ==> n.info.idx == old(n.info.idx)
    ensures old(IndexIncreasing(s)) ==> full == s
    ensures old(HeadLeast(s)) ==> head == list
    ensures finderIdx <= 0 ==> (head == list <==> HeadComesBack(old(Items(s)), finderIdx, findNum))
    ensures c.finderIdx == finderIdx && c.was == old(WordsOf(InfoSet(s))) && Accounted(res.answers, c)
    ensures c.begin == old(RecordOf(res)) && RecordOf(res) == c.after
    ensures RanFrom(old(Items(s)), findNum, c, head.info.data16)
  {
    hide NoDup, Chained, StablySorted, IndexSorted, IndexIncreasing, HeadLeast, OrderKept, HeadKept, InfosIn, FoundAt,
      FirstHalf, SecondHalf, Rebuilt, Crc.BitsOf, Crc.Feed, Items, Low, High, SearchOrder, KeptBy, HeadKeptBy, Mapped,
      Recorded, Computed, HitCount, BitCount, WordsOf, Infos, InfoSet;
    ghost var u, trace;
    var hash;
    ghost var was, begin := WordsOf(InfoSet(s)), RecordOf(res);
    head, hash, full, u, trace := BenchList(list, findNum, finderIdx, res, s, datas);
    ghost var left := RecordOf(res);
    res.crc := Crc.CrcU16(hash, res.crc);
    c := Call(finderIdx, was, Infos(u), trace, hash, begin, left, RecordOf(res));
  }

  /** A call that does not sort by data brings its head back. */
  ghost predicate HeadComesBack(items: seq<Item>, finderIdx: Short, findNum: Short) {
    |items| >= 2 && HeadKeptBy(items, SearchOrder(items, finderIdx, Rounds(findNum)))
  }

  /** The part of a list that a pointer into it sees. */
  lemma RestOfList(head: ListHead, full: Nodes, list: ListHead) returns (p: nat)
    requires IsList(head, full) && NoDup(full) && list in full
    ensures p < |full| && full[p] == list && (p == 0 <==> head == list)
    ensures IsList(list, full[p..]) && NoDup(full[p..])
  {
    p :| 0 <= p < |full| && full[p] == list;
    var rest := full[p..];
    forall i | 0 <= i < |rest| - 1
      ensures rest[i].next == rest[i + 1]
    {
      assert full[p + i].next == full[p + i + 1];
    }
  }

  /** What a call leaves behind the record's pointer, which may be inside the list now: it is all of it
      if and only if the head has come back.  Rebuilding keeps words that are their own backup. */
  method OneCall(list: ListHead, findNum: Short, finderIdx: Short, res: CoreResults, ghost s: Nodes,
                 ghost datas: set<ListData>)
    returns (ghost c: Call, ghost out: Nodes)
    requires IsList(list, s) && NoDup(s) && |s| >= 3 && InfosIn(NodeSet(s), datas)
    modifies NodeSet(s)`next, NodeSet(s)`info, datas`data16, res
    ensures IsList(list, out) && NoDup(out) && |out| <= |s| && forall x :: x in out ==> x in s
    ensures forall n :: n in s ==> n.info == old(n.info) && n.info.idx == old(n.info.idx)
    ensures finderIdx <= 0 ==> (|out| == |s| <==> HeadComesBack(old(Items(s)), finderIdx, findNum))
    ensures old(HeadLeast(s)) ==> multiset(out) == multiset(s) && HeadLeast(out)
    ensures old(IndexIncreasing(s)) ==> out == s && IndexIncreasing(s)
    ensures c.finderIdx == finderIdx && c.was == old(WordsOf(InfoSet(s))) && Accounted(res.answers, c)
    ensures c.begin == old(RecordOf(res)) && RecordOf(res) == c.after
    ensures old(SelfBacked(s)) ==>
      SelfBacked(s) && Items(s) == old(Items(s)) && WordsOf(InfoSet(s)) == old(WordsOf(InfoSet(s)))
    ensures old(IndexIncreasing(s) && SelfBacked(s)) ==> RanOn(Items(s), findNum, c)
  {
    hide NoDup, Chained, InfosIn, RanFrom, Rebuilt, Accounted, Items, Low, High, HeadLeast, SelfBacked,
      IndexIncreasing, HeadComesBack, WordsOf, InfoSet, RecordOf, Increasing, LeastFirst;
    ghost var items, ids, was := Items(s), Indices(s), WordsOf(InfoSet(s));
    IncreasingIndices(s, ids);
    WordsBacked(s);
    WordsAt(s);
    var head;
    ghost var full;
    head, c, full := BenchAndFold(list, findNum, finderIdx, res, s, datas);
    forall i | 0 <= i < |s|
      ensures s[i].info.idx == ids[i]
    {
      assert s[i] in s;
    }
    out := LeftBehind(list, s, head, full, ids);
    if old(SelfBacked(s)) {
      forall n | n in s
        ensures n.info.data16 == old(n.info.data16)
      {
        SortKeepsWord(old(n.info.data16), n.info.data16);
      }
      SameItems(s, items);
      SameWordsOf(s, was);
    }
  }

  /** What the pointer to the list's old head sees of the new list. */
  lemma LeftBehind(list: ListHead, s: Nodes, head: ListHead, full: Nodes, ids: seq<int>) returns (out: Nodes)
    requires s != [] && list == s[0] && NoDup(s) && IsList(head, full) && NoDup(full) && multiset(full) == multiset(s)
    requires |ids| == |s| && forall i :: 0 <= i < |s| ==> s[i].info.idx == ids[i]
    requires (LeastFirst(ids) ==> head == list) && (Increasing(ids) ==> full == s)
    ensures IsList(list, out) && NoDup(out) && |out| <= |s| && forall x :: x in out ==> x in s
    ensures |out| == |s| <==> head == list
    ensures LeastFirst(ids) ==> multiset(out) == multiset(s) && HeadLeast(out)
    ensures Increasing(ids) ==> out == s && IndexIncreasing(s)
  {
    hide IsList, NoDup, HeadLeast, IndexIncreasing, LeastFirst, Increasing;
    IncreasingIndices(s, ids);
    SameNodes(s, full);
    var p := RestOfList(head, full, list);
    out := full[p..];
    assert full[0..] == full;
    HeadOf(head, full);
    if LeastFirst(ids) { StillLeast(s, full); }
    if Increasing(ids) { IncreasingHead(s, ids); }
  }

  lemma HeadOf(head: ListHead, full: Nodes)
    requires IsList(head, full)
    ensures full != [] && full[0] == head
  {
  }

  lemma WordsAt(s: Nodes)
    ensures forall n :: n in s ==> n.info in WordsOf(InfoSet(s)) && WordsOf(InfoSet(s))[n.info] == n.info.data16
  {
    forall n | n in s
      ensures n.info in InfoSet(s)
    {
      var i :| 0 <= i < |s| && s[i] == n;
      assert Infos(s)[i] == n.info;
    }
  }

  lemma SameWordsOf(s: Nodes, was: map<ListData, Half>)
    requires was.Keys == InfoSet(s) && forall n :: n in s ==> n.info in was && n.info.data16 == was[n.info]
    ensures WordsOf(InfoSet(s)) == was
  {
    forall d | d in InfoSet(s)
      ensures d.data16 == was[d]
    {
      var i :| 0 <= i < |s| && Infos(s)[i] == d;
      assert s[i] in s;
    }
  }

  lemma IncreasingHead(s: Nodes, ids: seq<int>)
    requires s != [] && IndexIncreasing(s)
    ensures HeadLeast(s) && s[0..] == s
  {
  }

  /** A list behind the pointer, with its data in the given cells. */
  ghost predicate Sound(list: ListHead, s: Nodes, datas: set<ListData>)
    reads s`next, s`info
  {
    IsList(list, s) && NoDup(s) && InfosIn(NodeSet(s), datas)
  }

  /** The very list of these items, in strict order, every word its own backup. */
  ghost predicate Intact(s: Nodes, items: seq<Item>)
    reads s`info, (set x | x in s :: x.info)`data16, (set x | x in s :: x.info)`idx
  {
    IndexIncreasing(s) && SelfBacked(s) && Items(s) == items
  }

  /** The next call, unless fewer than three nodes are left behind the pointer. */
  method NextCall(list: ListHead, findNum: Short, finderIdx: Short, res: CoreResults, ghost s: Nodes,
                  ghost datas: set<ListData>)
    returns (ok: bool, ghost c: Call, ghost out: Nodes)
    requires Sound(list, s, datas)
    modifies NodeSet(s)`next, NodeSet(s)`info, datas`data16, res
    ensures ok <==> |s| >= 3
    ensures Sound(list, out, datas) && NodeSet(out) <= NodeSet(s) && |out| <= |s| && (!ok ==> out == s)
    ensures forall n :: n in NodeSet(s) ==> n.info == old(n.info)
    ensures RecordOf(res) == if ok then c.after else old(RecordOf(res))
    ensures ok ==> c.finderIdx == finderIdx && Accounted(res.answers, c) && c.begin == old(RecordOf(res))
    ensures ok ==> c.was == old(WordsOf(InfoSet(s)))
    ensures ok && finderIdx <= 0 ==> (|out| == |s| <==> HeadComesBack(old(Items(s)), finderIdx, findNum))
    ensures ok && old(HeadLeast(s)) ==> multiset(out) == multiset(s) && HeadLeast(out)
    ensures ok ==> forall items :: old(Intact(s, items)) ==> out == s && Intact(s, items) && RanOn(items, findNum, c)
    ensures ok && old(SelfBacked(s)) ==> WordsOf(InfoSet(s)) == old(WordsOf(InfoSet(s)))
  {
    hide NoDup, Accounted, RanOn, Items, HeadLeast, SelfBacked, IndexIncreasing, HeadComesBack, WordsOf, InfoSet,
      RecordOf;
    ghost var was := WordsOf(InfoSet(s));
    ok := HasThree(list, s);
    assert WordsOf(InfoSet(s)) == was;
    if ok {
      c, out := OneCall(list, findNum, finderIdx, res, s, datas);
      DataStay(s, out, datas);
    } else {
      out := s;
      c := *;
    }
  }

  lemma DataStay(s: Nodes, out: Nodes, datas: set<ListData>)
    requires (forall n :: n in s ==> n.info in datas) && forall x :: x in out ==> x in s
    ensures InfosIn(NodeSet(out), datas) && NodeSet(out) <= NodeSet(s)
  {
  }

  method HasThree(list: ListHead, ghost s: Nodes) returns (three: bool)
    requires IsList(list, s)
    ensures three <==> |s| >= 3
  {
    assert |s| > 1 ==> s[0].next == s[1];
    assert |s| > 2 ==> s[1].next == s[2];
    three := list.next != null && list.next.next != null;
  }

  /** A call with its place in the log. */
  method LoggedCall(list: ListHead, findNum: Short, finderIdx: Short, res: CoreResults, crclist0: bv16, second: bool,
                    ghost s: Nodes, ghost datas: set<ListData>, ghost start: Record, ghost calls0: seq<Call>)
    returns (ok: bool, crclist: bv16, ghost calls: seq<Call>, ghost out: Nodes)
    requires Sound(list, s, datas) && Logged(res.answers, start, calls0, crclist0, RecordOf(res))
    requires finderIdx == (if |calls0| % 2 == 0 then 1 else -1) && (second <==> |calls0| == 1)
    modifies NodeSet(s)`next, NodeSet(s)`info, datas`data16, res
    ensures ok <==> |s| >= 3
    ensures Sound(list, out, datas) && NodeSet(out) <= NodeSet(s) && (!ok ==> out == s)
    ensures forall n :: n in NodeSet(s) ==> n.info == old(n.info)
    ensures Logged(res.answers, start, calls, crclist, RecordOf(res))
    ensures |calls| == if ok then |calls0| + 1 else |calls0|
    ensures ok && old(HeadLeast(s)) ==> multiset(out) == multiset(s) && HeadLeast(out)
    ensures ok ==> forall items ::
      (old(Intact(s, items)) && AllRanOn(items, old(WordsOf(InfoSet(s))), findNum, calls0)) ==>
      && out == s && Intact(s, items) && WordsOf(InfoSet(s)) == old(WordsOf(InfoSet(s)))
      && AllRanOn(items, WordsOf(InfoSet(s)), findNum, calls)
  {
    hide Sound, Intact, Accounted, RanOn, HeadLeast, Logged, HeadComesBack, AllRanOn, WordsOf, InfoSet, RecordOf;
    ghost var c;
    ghost var was := WordsOf(InfoSet(s));
    ghost var backed := SelfBacked(s);
    hide SelfBacked;
    IntactBacked(s);
    crclist, calls := crclist0, calls0;
    ok, c, out := NextCall(list, findNum, finderIdx, res, s, datas);
    if ok {
      if second { crclist := res.crc; }
      calls := calls0 + [c];
      CrcOf(res);
      OneMoreLogged(res.answers, start, calls0, crclist0, old(RecordOf(res)), crclist, c);
      forall items | AllRanOn(items, was, findNum, calls0) && RanOn(items, findNum, c)
        ensures AllRanOn(items, was, findNum, calls)
      {
        OneMoreRan(items, was, findNum, calls0, c);
      }
    }
  }

  lemma CrcOf(res: CoreResults)
    ensures RecordOf(res).crc == res.crc
  {
  }

  lemma IntactBacked(s: Nodes)
    ensures forall items :: Intact(s, items) ==> SelfBacked(s)
  {
  }

  /** One iteration, added to the log. */
  method OneIteration(list: ListHead, seed3: Short, first: bool, res: CoreResults, crclist0: bv16, ghost s: Nodes,
                      ghost datas: set<ListData>, ghost start: Record, ghost calls0: seq<Call>)
    returns (ok: bool, crclist: bv16, ghost calls: seq<Call>, ghost out: Nodes)
    requires Sound(list, s, datas) && Logged(res.answers, start, calls0, crclist0, RecordOf(res))
    requires |calls0| % 2 == 0 && (first <==> calls0 == [])
    modifies NodeSet(s)`next, NodeSet(s)`info, datas`data16, res
    ensures Sound(list, out, datas) && NodeSet(out) <= NodeSet(s)
    ensures forall n :: n in NodeSet(s) ==> n.info == old(n.info)
    ensures Logged(res.answers, start, calls, crclist, RecordOf(res))
    ensures if ok then |calls| == |calls0| + 2 else |calls| < |calls0| + 2 && |out| < 3
    ensures |s| >= 3 && old(HeadLeast(s)) ==> ok && multiset(out) == multiset(s) && HeadLeast(out)
    ensures forall items ::
      (|s| >= 3 && old(Intact(s, items))
       && AllRanOn(items, old(WordsOf(InfoSet(s))), seed3, calls0)) ==>
      && ok && out == s && Intact(s, items) && WordsOf(InfoSet(s)) == old(WordsOf(InfoSet(s)))
      && AllRanOn(items, WordsOf(InfoSet(s)), seed3, calls)
  {
    hide Sound, Intact, HeadLeast, Logged, AllRanOn, WordsOf, InfoSet, RecordOf;
    ghost var least := |s| >= 3 && HeadLeast(s);
    ok, crclist, calls, out := LoggedCall(list, seed3, 1, res, crclist0, false, s, datas, start, calls0);
    if least { SameNodes(s, out); }
    if ok { ok, crclist, calls, out := LoggedCall(list, seed3, -1, res, crclist, first, out, datas, start, calls); }
  }

  /** The iterations: every call is given the record's list pointer, which is never written, and so
      sees what is behind it at that time; they go on while there are three nodes.  A head of least
      index keeps the pointer at the head.  If the indices are distinct and every word is its own
      backup, as core_list_init leaves them, each call runs on the very same list. */
  method Iterate(list: ListHead, seed3: Short, iterations: nat, res: CoreResults, ghost s: Nodes,
                 ghost datas: set<ListData>)
    returns (crclist: bv16, ok: bool, ghost calls: seq<Call>, ghost out: Nodes)
    requires Sound(list, s, datas) && |s| >= 3
    modifies NodeSet(s)`next, NodeSet(s)`info, datas`data16, res
    ensures Sound(list, out, datas) && NodeSet(out) <= NodeSet(s)
    ensures forall n :: n in NodeSet(s) ==> n.info == old(n.info)
    ensures Logged(res.answers, Record(0, 0, 0, old(res.runs)), calls, crclist, RecordOf(res))
    ensures if ok then |calls| == 2 * iterations else |calls| < 2 * iterations && |out| < 3
    ensures old(HeadLeast(s)) ==> ok && multiset(out) == multiset(s)
    ensures old(IndexIncreasing(s) && SelfBacked(s)) ==>
      && ok && out == s && Intact(s, old(Items(s))) && WordsOf(InfoSet(s)) == old(WordsOf(InfoSet(s)))
      && AllRanOn(old(Items(s)), WordsOf(InfoSet(s)), seed3, calls)
  {
    hide Sound, HeadLeast, RanOn, Logged, AllRanOn, Items, SelfBacked, IndexIncreasing, WordsOf, InfoSet;
    ghost var was := WordsOf(InfoSet(s));
    res.crc, res.crcmatrix, res.crcstate, crclist := 0, 0, 0, 0;
    calls, out, ok := [], s, true;
    ghost var items, least := Items(s), HeadLeast(s);
    ghost var same := Intact(s, items);
    ghost var start := RecordOf(res);
    hide Intact, RecordOf;
    NothingLogged(res.answers, start, items, was, seed3);
    var i := 0;
    while i < iterations && ok
      invariant 0 <= i <= iterations && if ok then |calls| == 2 * i else |calls| < 2 * i && |out| < 3
      invariant Sound(list, out, datas) && NodeSet(out) <= NodeSet(s)
      invariant forall n :: n in NodeSet(s) ==> n.info == old(n.info)
      invariant Logged(res.answers, start, calls, crclist, RecordOf(res))
      invariant least ==> ok && |out| >= 3 && multiset(out) == multiset(s) && HeadLeast(out)
      invariant same ==> ok && out == s && Intact(s, items) && WordsOf(InfoSet(s)) == was
      invariant same ==> AllRanOn(items, was, seed3, calls)
    {
      if least { SameNodes(s, out); }
      ok, crclist, calls, out := OneIteration(list, seed3, i == 0, res, crclist, out, datas, start, calls);
      if least { SameNodes(s, out); }
      i := i + 1;
    }
  }

  /** The record before call k. */
  function BeforeCall(start: Record, calls: seq<Call>, k: nat): Record
    requires k <= |calls|
  {
    if k == 0 then start else calls[k - 1].after
  }

  /** The calls alternate between the finder indices 1 and -1, each begins with the record that the one before
      it has left, the list CRC is the record's after the first two, and the record is now that of the last. */
  ghost predicate Logged(answers: Answers, start: Record, calls: seq<Call>, crclist: bv16, now: Record) {
    && (forall k :: 0 <= k < |calls| ==>
          && Accounted(answers, calls[k]) && calls[k].finderIdx == (if k % 2 == 0 then 1 else -1)
          && calls[k].begin == BeforeCall(start, calls, k))
    && crclist == (if |calls| < 2 then 0 else calls[1].after.crc)
    && now == BeforeCall(start, calls, |calls|)
  }

  ghost predicate AllRanOn(items: seq<Item>, was: map<ListData, Half>, findNum: Short, calls: seq<Call>) {
    |items| >= 3 && forall k :: 0 <= k < |calls| ==> RanOn(items, findNum, calls[k]) && calls[k].was == was
  }

  lemma NothingLogged(answers: Answers, start: Record, items: seq<Item>, was: map<ListData, Half>, findNum: Short)
    requires |items| >= 3
    ensures Logged(answers, start, [], 0, start) && AllRanOn(items, was, findNum, [])
  {
  }

  lemma OneMoreLogged(answers: Answers, start: Record, calls: seq<Call>, crclist: bv16, now: Record, crclist': bv16,
                      c: Call)
    requires Logged(answers, start, calls, crclist, now) && c.begin == now
    requires Accounted(answers, c) && c.finderIdx == if |calls| % 2 == 0 then 1 else -1
    requires crclist' == if |calls| == 1 then c.after.crc else crclist
    ensures Logged(answers, start, calls + [c], crclist', c.after)
  {
    hide Accounted;
    var more := calls + [c];
    forall k | 0 <= k < |more|
      ensures Accounted(answers, more[k]) && more[k].begin == BeforeCall(start, more, k)
    {
      assert BeforeCall(start, more, k) == BeforeCall(start, calls, k);
      if k < |calls| { assert more[k] == calls[k]; }
    }
    forall k | 0 <= k < |more|
      ensures more[k].finderIdx == if k % 2 == 0 then 1 else -1
    {
      if k < |calls| { assert more[k] == calls[k]; }
    }
  }

  lemma OneMoreRan(items: seq<Item>, was: map<ListData, Half>, findNum: Short, calls: seq<Call>, c: Call)
    requires AllRanOn(items, was, findNum, calls) && RanOn(items, findNum, c) && c.was == was
    ensures AllRanOn(items, was, findNum, calls + [c])
  {
    hide RanOn;
  }

  /** Everything that goes into the CRC: for each call the values it computed, then its result. */
  ghost function CallBits(calls: seq<Call>): Crc.Bits {
    if calls == [] then []
    else
      var c := calls[|calls| - 1];
      CallBits(calls[..|calls| - 1]) + (RunBits(c.trace.runs) + Crc.BitsOf(c.hash, 16))
  }

  lemma CallFolds(answers: Answers, c: Call)
    requires Accounted(answers, c)
    ensures Crc.BitsOf(c.after.crc, 16)
         == Crc.Feed(RunBits(c.trace.runs) + Crc.BitsOf(c.hash, 16), Crc.BitsOf(c.begin.crc, 16))
  {
    hide Recorded, Computed, Crc.BitsOf, Crc.Feed, RunBits;
    RecordedCrc(answers, c.begin, c.trace.runs, c.left);
    Crc.FeedConcat(RunBits(c.trace.runs), Crc.BitsOf(c.hash, 16), Crc.BitsOf(c.begin.crc, 16));
  }

  lemma LoggedBefore(answers: Answers, start: Record, calls: seq<Call>, crclist: bv16, now: Record)
    requires Logged(answers, start, calls, crclist, now) && calls != []
    ensures var n := |calls| - 1;
      && Logged(answers, start, calls[..n], if n < 2 then 0 else crclist, calls[n].begin)
      && Accounted(answers, calls[n]) && now == calls[n].after
  {
    hide Accounted;
    var n := |calls| - 1;
    assert forall k :: 0 <= k <= n ==> BeforeCall(start, calls[..n], k) == BeforeCall(start, calls, k);
  }

  /** The CRC of a whole run of iterations: nothing is dropped, and nothing else goes in. */
  lemma {:induction false} IterationCrc(answers: Answers, start: Record, calls: seq<Call>, crclist: bv16, now: Record)
    requires Logged(answers, start, calls, crclist, now)
    ensures Crc.BitsOf(now.crc, 16) == Crc.Feed(CallBits(calls), Crc.BitsOf(start.crc, 16))
    decreases |calls|
  {
    if calls != [] {
      hide Logged, Accounted, Crc.BitsOf, Crc.Feed, RunBits;
      var n := |calls| - 1;
      LoggedBefore(answers, start, calls, crclist, now);
      IterationCrc(answers, start, calls[..n], if n < 2 then 0 else crclist, calls[n].begin);
      CallFolds(answers, calls[n]);
      Crc.FeedConcat(CallBits(calls[..n]), RunBits(calls[n].trace.runs) + Crc.BitsOf(calls[n].hash, 16),
                     Crc.BitsOf(start.crc, 16));
    }
  }

  lemma BuiltSelfBacked(heads: seq<ListHead>, datas: seq<ListData>, seed: Short, s: Nodes)
    requires |heads| == |datas| >= 3 && multiset(s) == multiset(heads[..|heads| - 1])
    requires forall k :: 0 <= k < |heads| - 1 ==> heads[k].info == datas[k]
    requires Words(datas, seed, |heads| - 1)
    ensures SelfBacked(s)
  {
    hide WordAt, Low, High;
    forall x | x in s
      ensures Low(x.info.data16) == High(x.info.data16)
    {
      var i :| 0 <= i < |s| && s[i] == x;
      var k := SlotOf(heads, s, i);
    }
  }

  /** A whole run with a numbering that repeats no index: all calls of all iterations work on the list
      as core_list_init has built it, and leave it like that. */
  method InitAndIterate(heads: seq<ListHead>, datas: seq<ListData>, seed: Short, seed3: Short, iterations: nat,
                        res: CoreResults)
    returns (crclist: bv16, ghost calls: seq<Call>, ghost built: Nodes)
    requires Slots(heads, datas) && 4 <= |heads| < 5 * 0x8000 && IndicesDistinct(seed, |heads|)
    modifies heads`next, heads`info, datas`idx, datas`data16, res
    ensures IsList(heads[0], built) && NoDup(built) && IndexIncreasing(built)
    ensures multiset(built) == multiset(heads[..|heads| - 1]) && |built| == |heads| - 1
    ensures |calls| == 2 * iterations
    ensures Logged(res.answers, Record(0, 0, 0, old(res.runs)), calls, crclist, RecordOf(res))
    ensures AllRanOn(Items(built), WordsOf(InfoSet(built)), seed3, calls)
  {
    hide NoDup, Chained, IndexSorted, IndexIncreasing, HeadLeast, Numbered, Words, IndicesDistinct, HeadAlone, InfosIn,
      SelfBacked, Items, AllRanOn, Logged, WordsOf, InfoSet, RecordOf, IsList;
    var list, ok;
    ghost var out;
    list, built := InitList(heads, datas, seed);
    DistinctHead(seed, |heads|);
    CellsOfSlots(heads, datas, built);
    BuiltSelfBacked(heads, datas, seed, built);
    crclist, ok, calls, out := Iterate(list, seed3, iterations, res, built, Cells(datas));
  }
}
