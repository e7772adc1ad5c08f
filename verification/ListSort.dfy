/// The in-place, bottom-up mergesort of core_list_join.c.
///
/// A list is described by the ghost sequence of its nodes.  The order that the
/// sort establishes is stated on two ghost maps: `rank` gives the rank of every
/// node whose data word is settled (a node enters the map at its first
/// comparison), and `pos` gives every node's position in the list as it was
/// passed in, which is what stability is about.

module ListSort {
  import opened Arithmetic
  import opened ListCells

  type Nodes = seq<ListHead>

  type Ranks = map<ListHead, int>

  // --------------------------------------------------------------- the heap

  ghost function First(s: Nodes): ListHead? {
    if s == [] then null else s[0]
  }

  ghost function Last(s: Nodes): ListHead? {
    if s == [] then null else s[|s| - 1]
  }

  /** The nodes of s point at one another in turn; the last one may point anywhere. */
  ghost predicate Chained(s: Nodes)
    reads s`next
  {
    forall i :: 0 <= i < |s| - 1 ==> s[i].next == s[i + 1]
  }

  /** h is the head of a null-terminated list with exactly the nodes of s. */
  ghost predicate IsList(h: ListHead?, s: Nodes)
    reads s`next
  {
    h == First(s) && Chained(s) && (s != [] ==> s[|s| - 1].next == null)
  }

  ghost predicate NoDup(s: Nodes) {
    forall i, j :: 0 <= i < j < |s| ==> s[i] != s[j]
  }

  ghost predicate Disjoint(s: Nodes, t: Nodes) {
    forall x :: x in s ==> x !in t
  }

  ghost predicate InfosIn(all: set<ListHead>, datas: set<ListData>)
    reads all`info
  {
    forall n :: n in all ==> n.info in datas
  }

  /** The rank map tells the truth about settled nodes. */
  ghost predicate RanksTrue(cmp: Comparator, regen: bool, datas: set<ListData>, rank: Ranks)
    reads rank.Keys`info, datas`data16, datas`idx
  {
    forall n :: n in rank ==>
      && n.info in datas
      && IsSettled(cmp, regen, n.info.data16) && rank[n] == RankOf(cmp, n.info.data16, n.info.idx)
  }

  // -------------------------------------------------------------- the order

  /** x comes before y in a stable sort. */
  ghost predicate Before(rank: Ranks, pos: Ranks, x: ListHead, y: ListHead) {
    && x in rank && y in rank && x in pos && y in pos
    && (rank[x] < rank[y] || (rank[x] == rank[y] && pos[x] < pos[y]))
  }

  ghost predicate Ordered(rank: Ranks, pos: Ranks, s: Nodes) {
    forall i, j :: 0 <= i < j < |s| ==> Before(rank, pos, s[i], s[j])
  }

  /** A run of one node needs no comparison; a longer one is ranked and ordered. */
  ghost predicate IsRun(rank: Ranks, pos: Ranks, s: Nodes) {
    |s| >= 2 ==> Ordered(rank, pos, s)
  }

  /** Every node of s was passed in before every node of t. */
  ghost predicate Earlier(pos: Ranks, s: Nodes, t: Nodes) {
    forall x, y :: x in s && y in t ==> x in pos && y in pos && pos[x] < pos[y]
  }

  ghost predicate Extends(rank: Ranks, rank': Ranks) {
    forall n :: n in rank ==> n in rank' && rank'[n] == rank[n]
  }

  /** s falls into runs of w nodes, the last one possibly shorter, taken from the input in turn. */
  ghost predicate Runs(rank: Ranks, pos: Ranks, s: Nodes, w: nat)
    requires w > 0
  {
    var m := Min(w, |s|);
    s != [] ==> IsRun(rank, pos, s[..m]) && Earlier(pos, s[..m], s[m..]) && Runs(rank, pos, s[m..], w)
  }

  ghost predicate FullRuns(rank: Ranks, pos: Ranks, s: Nodes, w: nat)
    requires w > 0
  {
    s != [] ==> |s| >= w && IsRun(rank, pos, s[..w]) && Earlier(pos, s[..w], s[w..]) && FullRuns(rank, pos, s[w..], w)
  }

  lemma {:induction false} RunsExtend(rank: Ranks, rank': Ranks, pos: Ranks, s: Nodes, w: nat)
    requires w > 0 && Extends(rank, rank') && Runs(rank, pos, s, w)
    ensures Runs(rank', pos, s, w)
    decreases |s|
  {
    if s != [] { RunsExtend(rank, rank', pos, s[Min(w, |s|)..], w); }
  }

  lemma {:induction false} FullRunsExtend(rank: Ranks, rank': Ranks, pos: Ranks, s: Nodes, w: nat)
    requires w > 0 && Extends(rank, rank') && FullRuns(rank, pos, s, w)
    ensures FullRuns(rank', pos, s, w)
    decreases |s|
  {
    if s != [] { FullRunsExtend(rank, rank', pos, s[w..], w); }
  }

  lemma EarlierParts(pos: Ranks, s: Nodes, k: nat, m: Nodes)
    requires k <= |s| && Earlier(pos, s, m)
    ensures Earlier(pos, s[..k], m) && Earlier(pos, s[k..], m)
  {
    assert forall x :: x in s[..k] || x in s[k..] ==> x in s;
  }

  lemma EarlierConcat(pos: Ranks, a: Nodes, b: Nodes, c: Nodes)
    requires Earlier(pos, a, b) && Earlier(pos, a, c)
    ensures Earlier(pos, a, b + c)
  {
  }

  /** A finished run joins the runs already produced. */
  lemma {:induction false} AppendRun(rank: Ranks, pos: Ranks, s: Nodes, m: Nodes, w: nat)
    requires w > 0 && FullRuns(rank, pos, s, w)
    requires IsRun(rank, pos, m) && 0 < |m| <= w && Earlier(pos, s, m)
    ensures Runs(rank, pos, s + m, w)
    ensures |m| == w ==> FullRuns(rank, pos, s + m, w)
    decreases |s|
  {
    var t := s + m;
    if s == [] {
      assert t == m && m[..|m|] == m && m[|m|..] == [];
    } else {
      EarlierParts(pos, s, w, m);
      EarlierConcat(pos, s[..w], s[w..], m);
      AppendRun(rank, pos, s[w..], m, w);
      assert t[..w] == s[..w] && t[w..] == s[w..] + m;
    }
  }

  /** The nodes of s were passed in in this order. */
  ghost predicate InOrder(pos: Ranks, s: Nodes) {
    && (forall x :: x in s ==> x in pos)
    && forall i, j :: 0 <= i < j < |s| ==> pos[s[i]] < pos[s[j]]
  }

  /** Single nodes are runs, whatever their data. */
  lemma {:induction false} SinglesAreRuns(rank: Ranks, pos: Ranks, s: Nodes)
    requires InOrder(pos, s)
    ensures Runs(rank, pos, s, 1)
    decreases |s|
  {
    if s != [] {
      var t := s[1..];
      forall y | y in t
        ensures pos[s[0]] < pos[y]
      {
        var k :| 0 <= k < |t| && t[k] == y;
        assert y == s[k + 1];
      }
      assert InOrder(pos, t) by {
        forall i, j | 0 <= i < j < |t|
          ensures pos[t[i]] < pos[t[j]]
        {
          assert t[i] == s[i + 1] && t[j] == s[j + 1];
        }
      }
      SinglesAreRuns(rank, pos, t);
    }
  }

  // ------------------------------------------------------------ one merge

  /** The first run of s: psize nodes from p, fewer than insize only at the end of the list, where q is null. */
  method TakeRun(p: ListHead, insize: nat, ghost s: Nodes) returns (q: ListHead?, psize: nat)
    requires insize > 0 && s != [] && IsList(p, s)
    ensures psize == Min(insize, |s|)
    ensures q == First(s[psize..])
  {
    q := p;
    psize := 0;
    var i := 0;
    while i < insize
      invariant psize == i <= Min(insize, |s|)
      invariant i < |s| && q == s[i]
    {
      assert i < |s| - 1 ==> s[i].next == s[i + 1];
      psize := psize + 1;
      q := q.next;
      if q == null {
        break;
      }
      i := i + 1;
    }
  }

  /** Everything still to be merged comes after what has been merged. */
  ghost predicate AllBefore(rank: Ranks, pos: Ranks, s: Nodes, t: Nodes) {
    forall x, y :: x in s && y in t ==> Before(rank, pos, x, y)
  }

  ghost predicate Ranked(rank: Ranks, s: Nodes) {
    forall x :: x in s ==> x in rank
  }

  /** The state of a merge of the runs ps and qs after i and j nodes were taken. */
  ghost predicate Merging(rank: Ranks, pos: Ranks, merged: Nodes, ps: Nodes, i: nat, qs: Nodes, j: nat)
    requires i <= |ps| && j <= |qs|
  {
    && multiset(merged) == multiset(ps[..i]) + multiset(qs[..j])
    && |merged| == i + j
    && (qs == [] ==> merged == ps[..i])
    && (qs != [] && i + j > 0 ==>
          && Ordered(rank, pos, ps) && Ordered(rank, pos, qs)
          && Ranked(rank, ps) && Ranked(rank, qs)
          && Ordered(rank, pos, merged)
          && AllBefore(rank, pos, merged, ps[i..]) && AllBefore(rank, pos, merged, qs[j..]))
  }

  /** Taking e, which comes before everything that is left, keeps the merge going. */
  lemma TakeNext(rank: Ranks, pos: Ranks, merged: Nodes, e: ListHead)
    requires Ordered(rank, pos, merged)
    requires forall x :: x in merged ==> Before(rank, pos, x, e)
    ensures Ordered(rank, pos, merged + [e])
  {
  }

  lemma TakeFromP(rank: Ranks, pos: Ranks, merged: Nodes, ps: Nodes, i: nat, qs: Nodes, j: nat)
    requires i < |ps| && j <= |qs| && Earlier(pos, ps, qs)
    requires Merging(rank, pos, merged, ps, i, qs, j)
    requires qs != [] ==> Ordered(rank, pos, ps) && Ordered(rank, pos, qs) && Ranked(rank, ps) && Ranked(rank, qs)
    requires j < |qs| ==> rank[ps[i]] <= rank[qs[j]]
    ensures Merging(rank, pos, merged + [ps[i]], ps, i + 1, qs, j)
  {
    var e := ps[i];
    assert ps[..i + 1] == ps[..i] + [e];
    if qs != [] {
      assert ps[i..][0] == e;
      TakeNext(rank, pos, merged, e);
      forall y | y in ps[i + 1..]
        ensures Before(rank, pos, e, y)
      {
        var k :| i + 1 <= k < |ps| && ps[k] == y;
      }
      forall y | y in qs[j..]
        ensures Before(rank, pos, e, y)
      {
        var k :| j <= k < |qs| && qs[k] == y;
        assert k == j || Before(rank, pos, qs[j], qs[k]);
        assert e in ps && y in qs;
      }
      assert AllBefore(rank, pos, merged, ps[i + 1..]) by {
        assert forall y :: y in ps[i + 1..] ==> y in ps[i..];
      }
    }
  }

  lemma TakeFromQ(rank: Ranks, pos: Ranks, merged: Nodes, ps: Nodes, i: nat, qs: Nodes, j: nat)
    requires i <= |ps| && j < |qs| && Earlier(pos, ps, qs)
    requires Merging(rank, pos, merged, ps, i, qs, j)
    requires Ordered(rank, pos, ps) && Ordered(rank, pos, qs) && Ranked(rank, ps) && Ranked(rank, qs)
    requires i < |ps| ==> rank[qs[j]] < rank[ps[i]]
    ensures Merging(rank, pos, merged + [qs[j]], ps, i, qs, j + 1)
  {
    var e := qs[j];
    assert qs[..j + 1] == qs[..j] + [e];
    assert qs[j..][0] == e;
    TakeNext(rank, pos, merged, e);
    forall y | y in qs[j + 1..]
      ensures Before(rank, pos, e, y)
    {
      var k :| j + 1 <= k < |qs| && qs[k] == y;
    }
    forall y | y in ps[i..]
      ensures Before(rank, pos, e, y)
    {
      var k :| i <= k < |ps| && ps[k] == y;
      assert k == i || Before(rank, pos, ps[i], ps[k]);
      assert y in ps && e in qs;
    }
    assert AllBefore(rank, pos, merged, qs[j + 1..]) by {
      assert forall y :: y in qs[j + 1..] ==> y in qs[j..];
    }
  }

  /** Compares two list items; every word is left alone or settled. */
  method CompareSettling(cmp: Comparator, p: ListHead, q: ListHead, res: CoreResults?,
                         ghost all: set<ListHead>, ghost datas: set<ListData>, ghost from: Origin,
                         ghost log0: seq<Run>)
    returns (r: int, ghost log: seq<Run>)
    requires (cmp.CmpComplex? ==> res != null) && InfosIn(all, datas) && Ledger(cmp, res, datas, from, log0)
    requires p in all && q in all
    modifies datas`data16, if res == null then {} else {res}
    ensures p.info in datas && q.info in datas
    ensures IsSettled(cmp, res == null, p.info.data16) && IsSettled(cmp, res == null, q.info.data16)
    ensures r <= 0 <==> RankOf(cmp, p.info.data16, p.info.idx) <= RankOf(cmp, q.info.data16, q.info.idx)
    ensures Ledger(cmp, res, datas, from, log)
    ensures forall n :: n in all ==> MaySettle(cmp, res == null, old(n.info.data16), n.info.data16)
  {
    hide Ledger, IsSettled, RankOf, InfosIn, MaySettle;
    ItemsInCells(all, datas, p, q);
    r, log := Compare(cmp, p.info, q.info, res, datas, from, log0);
    forall n | n in all
      ensures MaySettle(cmp, res == null, old(n.info.data16), n.info.data16)
    {
      ItemsInCells(all, datas, n, n);
      if n.info != p.info && n.info != q.info { NothingSettled(cmp, res == null, n.info.data16); }
    }
  }

  /** Compares two list items and records their ranks. */
  method CompareItems(cmp: Comparator, p: ListHead, q: ListHead, res: CoreResults?,
                      ghost all: set<ListHead>, ghost datas: set<ListData>, ghost rank: Ranks,
                      ghost from: Origin, ghost log0: seq<Run>)
    returns (r: int, ghost rank': Ranks, ghost log: seq<Run>)
    requires (cmp.CmpComplex? ==> res != null) && InfosIn(all, datas) && Ledger(cmp, res, datas, from, log0)
    requires p in all && q in all && rank.Keys <= all && RanksTrue(cmp, res == null, datas, rank)
    modifies datas`data16, if res == null then {} else {res}
    ensures rank'.Keys == rank.Keys + {p, q}
    ensures RanksTrue(cmp, res == null, datas, rank') && Extends(rank, rank')
    ensures r <= 0 <==> rank'[p] <= rank'[q]
    ensures Ledger(cmp, res, datas, from, log)
    ensures forall n :: n in all ==> MaySettle(cmp, res == null, old(n.info.data16), n.info.data16)
  {
    hide Ledger, IsSettled, RankOf, InfosIn, MaySettle, RanksTrue;
    RanksUnfold(cmp, res == null, datas, rank);
    r, log := CompareSettling(cmp, p, q, res, all, datas, from, log0);
    rank' := rank[p := RankOf(cmp, p.info.data16, p.info.idx)][q := RankOf(cmp, q.info.data16, q.info.idx)];
    forall n | n in rank
      ensures n.info.data16 == old(n.info.data16)
    {
      SettledStays(cmp, res == null, old(n.info.data16), n.info.data16);
    }
    RanksFold(cmp, res == null, datas, rank');
  }

  lemma SettledStays(cmp: Comparator, regen: bool, before: Half, after: Half)
    requires MaySettle(cmp, regen, before, after) && IsSettled(cmp, regen, before)
    ensures after == before
  {
  }

  lemma RanksUnfold(cmp: Comparator, regen: bool, datas: set<ListData>, rank: Ranks)
    requires RanksTrue(cmp, regen, datas, rank)
    ensures forall n :: n in rank ==>
      n.info in datas && IsSettled(cmp, regen, n.info.data16) && rank[n] == RankOf(cmp, n.info.data16, n.info.idx)
  {
  }

  lemma RanksFold(cmp: Comparator, regen: bool, datas: set<ListData>, rank: Ranks)
    requires forall n :: n in rank ==>
      n.info in datas && IsSettled(cmp, regen, n.info.data16) && rank[n] == RankOf(cmp, n.info.data16, n.info.idx)
    ensures RanksTrue(cmp, regen, datas, rank)
  {
  }

  lemma ItemsInCells(all: set<ListHead>, datas: set<ListData>, p: ListHead, q: ListHead)
    requires InfosIn(all, datas) && p in all && q in all
    ensures p.info in datas && q.info in datas
  {
  }

  lemma NothingSettled(cmp: Comparator, regen: bool, d: Half)
    ensures MaySettle(cmp, regen, d, d)
  {
  }

  /** The nodes in play: the finished part, what is left of p's run, and the list from q on. */
  ghost predicate Layout(all: set<ListHead>, done: Nodes, ps: Nodes, qs: Nodes) {
    && NoDup(done) && NoDup(ps) && NoDup(qs)
    && Disjoint(done, ps) && Disjoint(done, qs) && Disjoint(ps, qs)
    && (forall x :: x in done ==> x in all) && (forall x :: x in ps ==> x in all) && (forall x :: x in qs ==> x in all)
  }

  lemma NoDupTail(s: Nodes)
    requires NoDup(s) && s != []
    ensures NoDup(s[1..]) && s[0] !in s[1..]
  {
    var t := s[1..];
    forall i, j | 0 <= i < j < |t|
      ensures t[i] != t[j]
    {
      assert t[i] == s[i + 1] && t[j] == s[j + 1];
    }
  }

  lemma NoDupAppend(s: Nodes, e: ListHead)
    requires NoDup(s) && e !in s
    ensures NoDup(s + [e])
  {
  }

  lemma LayoutTakeP(all: set<ListHead>, done: Nodes, ps: Nodes, qs: Nodes)
    requires Layout(all, done, ps, qs) && ps != []
    ensures Layout(all, done + [ps[0]], ps[1..], qs)
  {
    NoDupTail(ps);
    NoDupAppend(done, ps[0]);
  }

  lemma LayoutTakeQ(all: set<ListHead>, done: Nodes, ps: Nodes, qs: Nodes)
    requires Layout(all, done, ps, qs) && qs != []
    ensures Layout(all, done + [qs[0]], ps, qs[1..])
  {
    NoDupTail(qs);
    NoDupAppend(done, qs[0]);
  }

  /** Adds e to the end of the merged list. */
  method Link(e: ListHead, head: ListHead?, tail: ListHead?, ghost all: set<ListHead>, ghost done: Nodes)
    returns (head': ListHead?)
    requires head == First(done) && tail == Last(done) && Chained(done)
    requires NoDup(done) && e !in done && forall x :: x in done ==> x in all
    modifies all`next
    ensures head' == First(done + [e]) && Chained(done + [e])
    ensures forall x :: x in all && x != tail ==> x.next == old(x.next)
  {
    head' := head;
    if tail != null {
      tail.next := e;
    } else {
      head' := e;
    }
  }

  ghost predicate Shape(all: set<ListHead>, head: ListHead?, tail: ListHead?, done: Nodes,
                        p: ListHead?, ps: Nodes, q: ListHead?, qs: Nodes)
    reads all`next
  {
    && Layout(all, done, ps, qs)
    && head == First(done) && tail == Last(done) && Chained(done)
    && (ps != [] ==> p == ps[0]) && Chained(ps) && IsList(q, qs)
  }

  /** e comes from p. */
  method AppendFromP(head: ListHead?, tail: ListHead?, p: ListHead, q: ListHead?,
                     ghost all: set<ListHead>, ghost done: Nodes, ghost ps: Nodes, ghost qs: Nodes)
    returns (head': ListHead?, p': ListHead?)
    requires ps != [] && Shape(all, head, tail, done, p, ps, q, qs)
    modifies all`next
    ensures Shape(all, head', p, done + [ps[0]], p', ps[1..], q, qs)
  {
    LayoutTakeP(all, done, ps, qs);
    assert tail != null ==> tail in done;
    p' := p.next;
    assert |ps| > 1 ==> ps[0].next == ps[1];
    head' := Link(p, head, tail, all, done);
    assert forall i :: 0 <= i < |ps| ==> ps[i] in ps && ps[i] != tail;
    assert forall i :: 0 <= i < |qs| ==> qs[i] in qs && qs[i] != tail;
  }

  /** e comes from q. */
  method AppendFromQ(head: ListHead?, tail: ListHead?, p: ListHead?, q: ListHead,
                     ghost all: set<ListHead>, ghost done: Nodes, ghost ps: Nodes, ghost qs: Nodes)
    returns (head': ListHead?, q': ListHead?)
    requires qs != [] && Shape(all, head, tail, done, p, ps, q, qs)
    modifies all`next
    ensures Shape(all, head', q, done + [qs[0]], p, ps, q', qs[1..])
  {
    LayoutTakeQ(all, done, ps, qs);
    assert tail != null ==> tail in done;
    q' := q.next;
    assert |qs| > 1 ==> qs[0].next == qs[1];
    head' := Link(q, head, tail, all, done);
    assert forall i :: 0 <= i < |ps| ==> ps[i] in ps && ps[i] != tail;
    assert forall i :: 0 <= i < |qs| ==> qs[i] in qs && qs[i] != tail;
  }

  lemma MergingExtends(rank: Ranks, rank': Ranks, pos: Ranks, merged: Nodes, ps: Nodes, i: nat, qs: Nodes, j: nat)
    requires i <= |ps| && j <= |qs| && Extends(rank, rank')
    requires Merging(rank, pos, merged, ps, i, qs, j)
    ensures Merging(rank', pos, merged, ps, i, qs, j)
  {
  }

  /** Two runs whose first nodes are ranked are ranked and ordered throughout. */
  lemma RunsRanked(rank: Ranks, rank': Ranks, pos: Ranks, s: Nodes)
    requires IsRun(rank, pos, s) && Extends(rank, rank')
    requires s != [] ==> s[0] in rank'
    ensures Ordered(rank', pos, s) && Ranked(rank', s)
  {
    forall k | 0 <= k < |s|
      ensures s[k] in rank'
    {
      if k > 0 { assert Before(rank, pos, s[0], s[k]); }
    }
  }

  /** Two runs, taken from the input one after the other. */
  ghost predicate Mergeable(all: set<ListHead>, rank: Ranks, pos: Ranks, ps: Nodes, qs: Nodes) {
    && ps != [] && IsRun(rank, pos, ps) && IsRun(rank, pos, qs) && Earlier(pos, ps, qs)
    && (forall x :: x in ps ==> x in all) && (forall x :: x in qs ==> x in all)
  }

  /** The run whose head can be taken next without breaking `Merging': the head is before all that is
      left in the other run, and if both heads had to be compared, both are ranked now. */
  method Decide(cmp: Comparator, res: CoreResults?, p: ListHead?, psize: nat, q: ListHead?, qsize: nat,
                ghost all: set<ListHead>, ghost datas: set<ListData>, ghost rank0: Ranks, ghost rank: Ranks,
                ghost pos: Ranks, ghost merged: Nodes, ghost ps: Nodes, ghost i: nat, ghost qs: Nodes, ghost j: nat,
                ghost from: Origin, ghost log0: seq<Run>)
    returns (fromP: bool, ghost rank': Ranks, ghost log: seq<Run>)
    requires (cmp.CmpComplex? ==> res != null) && InfosIn(all, datas) && Ledger(cmp, res, datas, from, log0)
    requires i <= |ps| && j <= |qs| && psize == |ps| - i
    requires (psize > 0 ==> p == ps[i]) && (qsize == 0 || q == null <==> j == |qs|) && (j < |qs| ==> q == qs[j])
    requires psize > 0 || j < |qs|
    requires Mergeable(all, rank0, pos, ps, qs)
    requires Merging(rank, pos, merged, ps, i, qs, j)
    requires RanksTrue(cmp, res == null, datas, rank) && Extends(rank0, rank) && rank.Keys <= all
    modifies datas`data16, if res == null then {} else {res}
    ensures RanksTrue(cmp, res == null, datas, rank') && Extends(rank0, rank') && rank'.Keys <= all
    ensures fromP ==> i < |ps| && Merging(rank', pos, merged + [ps[i]], ps, i + 1, qs, j)
    ensures !fromP ==> j < |qs| && Merging(rank', pos, merged + [qs[j]], ps, i, qs, j + 1)
    ensures Ledger(cmp, res, datas, from, log)
    ensures forall n :: n in all ==> MaySettle(cmp, res == null, old(n.info.data16), n.info.data16)
  {
    hide Ledger;
    rank', log := rank, log0;
    if psize == 0 {
      fromP := false;
      TakeFromQ(rank', pos, merged, ps, i, qs, j);
    } else if qsize == 0 || q == null {
      fromP := true;
      TakeFromP(rank', pos, merged, ps, i, qs, j);
    } else {
      assert ps[i] in ps && qs[j] in qs;
      var c;
      c, rank', log := CompareItems(cmp, p, q, res, all, datas, rank, from, log0);
      MergingExtends(rank, rank', pos, merged, ps, i, qs, j);
      if i + j == 0 {
        RunsRanked(rank0, rank', pos, ps);
        RunsRanked(rank0, rank', pos, qs);
      }
      if c <= 0 {
        fromP := true;
        TakeFromP(rank', pos, merged, ps, i, qs, j);
      } else {
        fromP := false;
        TakeFromQ(rank', pos, merged, ps, i, qs, j);
      }
    }
  }

  lemma ShapeFacts(all: set<ListHead>, head: ListHead?, tail: ListHead?, done: Nodes,
                   p: ListHead?, ps: Nodes, q: ListHead?, qs: Nodes)
    requires Shape(all, head, tail, done, p, ps, q, qs)
    ensures ps != [] ==> p == ps[0]
    ensures q == First(qs) && IsList(q, qs)
    ensures forall x :: x in qs ==> x in all
  {
  }

  /** One node moves from a run to the end of `out'; `Shape' says where all pointers are before and
      after, `Merging' that the order invariant holds with one node more. */
  method MergeStep(cmp: Comparator, res: CoreResults?, head0: ListHead?, tail0: ListHead?,
                   p0: ListHead?, psize0: nat, q0: ListHead?, qsize0: nat,
                   ghost all: set<ListHead>, ghost datas: set<ListData>, ghost out: Nodes, ghost merged: Nodes,
                   ghost ps: Nodes, ghost i0: nat, ghost rest: Nodes, ghost m: nat, ghost j0: nat,
                   ghost rank0: Ranks, ghost rank1: Ranks, ghost pos: Ranks, ghost from: Origin, ghost log0: seq<Run>)
    returns (head: ListHead?, tail: ListHead?, p: ListHead?, psize: nat, q: ListHead?, qsize: nat,
             ghost e: ListHead, ghost i: nat, ghost j: nat, ghost rank: Ranks, ghost log: seq<Run>)
    requires (cmp.CmpComplex? ==> res != null) && InfosIn(all, datas) && Ledger(cmp, res, datas, from, log0)
    requires i0 <= |ps| && j0 <= m <= |rest| && psize0 == |ps| - i0
    requires qsize0 >= m - j0 && (qsize0 == 0 ==> m == j0) && (m < |rest| ==> qsize0 == m - j0)
    requires psize0 > 0 || (qsize0 > 0 && q0 != null)
    requires Shape(all, head0, tail0, out, p0, ps[i0..], q0, rest[j0..])
    requires Mergeable(all, rank0, pos, ps, rest[..m])
    requires Merging(rank1, pos, merged, ps, i0, rest[..m], j0)
    requires RanksTrue(cmp, res == null, datas, rank1) && Extends(rank0, rank1) && rank1.Keys <= all
    modifies all`next, datas`data16, if res == null then {} else {res}
    ensures (i == i0 + 1 && j == j0) || (i == i0 && j == j0 + 1)
    ensures i <= |ps| && j <= m && psize == |ps| - i && qsize == qsize0 - (j - j0)
    ensures Shape(all, head, tail, out + [e], p, ps[i..], q, rest[j..])
    ensures Merging(rank, pos, merged + [e], ps, i, rest[..m], j)
    ensures Ledger(cmp, res, datas, from, log)
    ensures RanksTrue(cmp, res == null, datas, rank) && Extends(rank0, rank) && rank.Keys <= all
    ensures forall n :: n in all ==> MaySettle(cmp, res == null, old(n.info.data16), n.info.data16)
  {
    hide Merging, Shape, Mergeable, Extends, MaySettle, RanksTrue, InfosIn, Ledger, IsList, NoDup, Disjoint;
    ShapeFacts(all, head0, tail0, out, p0, ps[i0..], q0, rest[j0..]);
    var fromP;
    fromP, rank, log := Decide(cmp, res, p0, psize0, q0, qsize0, all, datas, rank0, rank1, pos, merged, ps, i0,
      rest[..m], j0, from, log0);
    assert Shape(all, head0, tail0, out, p0, ps[i0..], q0, rest[j0..]);
    head, tail, p, psize, q, qsize, i, j := head0, tail0, p0, psize0, q0, qsize0, i0, j0;
    if fromP {
      e := ps[i];
      tail := p;
      head, p := AppendFromP(head, tail0, p, q, all, out, ps[i..], rest[j..]);
      i := i + 1;
      psize := psize - 1;
    } else {
      e := rest[j];
      tail := q;
      head, q := AppendFromQ(head, tail0, p, q, all, out, ps[i..], rest[j..]);
      j := j + 1;
      qsize := qsize - 1;
    }
  }

  lemma MergingStarts(rank: Ranks, pos: Ranks, ps: Nodes, qs: Nodes)
    ensures Merging(rank, pos, [], ps, 0, qs, 0)
  {
  }

  lemma MergingEnds(all: set<ListHead>, rank0: Ranks, rank: Ranks, pos: Ranks, merged: Nodes, ps: Nodes, qs: Nodes)
    requires Merging(rank, pos, merged, ps, |ps|, qs, |qs|)
    requires Mergeable(all, rank0, pos, ps, qs) && Extends(rank0, rank)
    ensures multiset(merged) == multiset(ps) + multiset(qs) && |merged| == |ps| + |qs|
    ensures IsRun(rank, pos, merged)
  {
    assert ps[..|ps|] == ps && qs[..|qs|] == qs;
  }

  lemma ShapeEnds(all: set<ListHead>, head: ListHead?, tail: ListHead?, done: Nodes,
                  p: ListHead?, ps: Nodes, q: ListHead?, qs: Nodes)
    requires Shape(all, head, tail, done, p, ps, q, qs) && ps == []
    ensures Shape(all, head, tail, done, null, [], q, qs)
  {
  }

  /** Merges p's run ps with q's run, which is the first `insize' nodes of rest, onto `done'. */
  method MergeRuns(cmp: Comparator, res: CoreResults?, head0: ListHead?, tail0: ListHead?,
                   p0: ListHead, psize0: nat, q0: ListHead?, insize: nat,
                   ghost all: set<ListHead>, ghost datas: set<ListData>, ghost done: Nodes, ghost ps: Nodes,
                   ghost rest: Nodes, ghost rank0: Ranks, ghost pos: Ranks, ghost from: Origin, ghost log0: seq<Run>)
    returns (head: ListHead?, tail: ListHead?, q: ListHead?, ghost merged: Nodes, ghost rank: Ranks,
             ghost log: seq<Run>)
    requires (cmp.CmpComplex? ==> res != null) && InfosIn(all, datas) && Ledger(cmp, res, datas, from, log0)
    requires insize > 0 && |ps| == psize0
    requires Shape(all, head0, tail0, done, p0, ps, q0, rest) && rank0.Keys <= all
    requires Mergeable(all, rank0, pos, ps, rest[..Min(insize, |rest|)])
    requires RanksTrue(cmp, res == null, datas, rank0)
    modifies all`next, datas`data16, if res == null then {} else {res}
    ensures var m := Min(insize, |rest|);
      && multiset(merged) == multiset(ps) + multiset(rest[..m]) && |merged| == |ps| + m
      && IsRun(rank, pos, merged)
      && Shape(all, head, tail, done + merged, null, [], q, rest[m..])
    ensures Ledger(cmp, res, datas, from, log)
    ensures RanksTrue(cmp, res == null, datas, rank) && Extends(rank0, rank) && rank.Keys <= all
    ensures forall n :: n in all ==> MaySettle(cmp, res == null, old(n.info.data16), n.info.data16)
  {
    hide Merging, Shape, Mergeable, IsRun, RanksTrue, Ledger;
    ghost var m := Min(insize, |rest|);
    ghost var qs := rest[..m];
    ghost var i, j := 0, 0;
    ghost var out := done;
    ghost var e;
    head, tail, q := head0, tail0, q0;
    merged, rank, log := [], rank0, log0;
    var p: ListHead?, psize, qsize := p0, psize0, insize;
    assert ps[0..] == ps && rest[0..] == rest;
    MergingStarts(rank, pos, ps, qs);
    ShapeFacts(all, head, tail, out, p, ps, q, rest);
    while psize > 0 || (qsize > 0 && q != null)
      invariant 0 <= i <= |ps| && 0 <= j <= m
      invariant psize == |ps| - i && qsize == insize - j
      invariant Shape(all, head, tail, out, p, ps[i..], q, rest[j..]) && out == done + merged
      invariant q == First(rest[j..])
      invariant Merging(rank, pos, merged, ps, i, qs, j)
      invariant Ledger(cmp, res, datas, from, log)
      invariant RanksTrue(cmp, res == null, datas, rank) && Extends(rank0, rank) && rank.Keys <= all
      invariant forall n :: n in all ==> MaySettle(cmp, res == null, old(n.info.data16), n.info.data16)
      decreases psize + qsize
    {
      head, tail, p, psize, q, qsize, e, i, j, rank, log :=
        MergeStep(cmp, res, head, tail, p, psize, q, qsize, all, datas, out, merged, ps, i, rest, m, j, rank0, rank,
          pos, from, log);
      ShapeFacts(all, head, tail, out + [e], p, ps[i..], q, rest[j..]);
      out, merged := out + [e], merged + [e];
    }
    ShapeEnds(all, head, tail, out, p, ps[i..], q, rest[j..]);
    MergingEnds(all, rank0, rank, pos, merged, ps, qs);
  }

  // -------------------------------------------------------------- one pass

  /** What a pass has done: merged runs in `done', old runs in `rest'. */
  ghost predicate Passing(rank: Ranks, pos: Ranks, s: Nodes, done: Nodes, rest: Nodes, w: nat, nmerges: nat)
    requires w > 0
  {
    && multiset(done) + multiset(rest) == multiset(s)
    && Earlier(pos, done, rest) && Runs(rank, pos, rest, w)
    && (if rest == [] then Runs(rank, pos, done, 2 * w) else FullRuns(rank, pos, done, 2 * w))
    && (nmerges == 0 <==> done == [])
    && (nmerges == 1 ==> |done| <= 2 * w && (rest != [] ==> |done| == 2 * w))
    && (nmerges >= 2 ==> |done| > 2 * w)
  }

  lemma PassStarts(rank: Ranks, pos: Ranks, s: Nodes, w: nat)
    requires w > 0 && s != [] && Runs(rank, pos, s, w)
    ensures Passing(rank, pos, s, [], s, w, 0)
  {
  }

  lemma EarlierPerm(pos: Ranks, s: Nodes, t: Nodes, u: Nodes, merged: Nodes)
    requires Earlier(pos, s, u) && Earlier(pos, t, u)
    requires multiset(merged) == multiset(s) + multiset(t)
    ensures Earlier(pos, merged, u)
  {
    forall x | x in merged
      ensures x in s || x in t
    {
      assert x in multiset(merged);
    }
  }

  lemma EarlierPermRight(pos: Ranks, u: Nodes, s: Nodes, t: Nodes, merged: Nodes)
    requires Earlier(pos, u, s) && Earlier(pos, u, t)
    requires multiset(merged) == multiset(s) + multiset(t)
    ensures Earlier(pos, u, merged)
  {
    forall x | x in merged
      ensures x in s || x in t
    {
      assert x in multiset(merged);
    }
  }

  lemma EarlierSub(pos: Ranks, s: Nodes, t: Nodes, lo: nat, hi: nat)
    requires Earlier(pos, s, t) && lo <= hi <= |t|
    ensures Earlier(pos, s, t[lo..hi])
  {
    forall y | y in t[lo..hi]
      ensures y in t
    {
    }
  }

  lemma EarlierJoin(pos: Ranks, a: Nodes, b: Nodes, t: Nodes)
    requires Earlier(pos, a, t) && Earlier(pos, b, t)
    ensures Earlier(pos, a + b, t)
  {
  }

  /** The two runs at the head of the list, and what follows them. */
  lemma TwoRuns(all: set<ListHead>, rank: Ranks, pos: Ranks, rest: Nodes, w: nat, k: nat, m: nat)
    requires w > 0 && rest != [] && Runs(rank, pos, rest, w)
    requires k == Min(w, |rest|) && m == Min(w, |rest| - k)
    requires forall x :: x in rest ==> x in all
    ensures Mergeable(all, rank, pos, rest[..k], rest[k..][..m])
    ensures Earlier(pos, rest[..k], rest[k..][m..]) && Earlier(pos, rest[k..][..m], rest[k..][m..])
    ensures Runs(rank, pos, rest[k..][m..], w)
  {
    var t := rest[k..];
    EarlierSub(pos, rest[..k], t, 0, m);
    EarlierSub(pos, rest[..k], t, m, |t|);
    assert t[0..m] == t[..m] && t[m..|t|] == t[m..];
  }

  /** The order part of one step of a pass. */
  lemma PassOrder(rank: Ranks, rank': Ranks, pos: Ranks, done: Nodes, rest: Nodes, w: nat, k: nat, m: nat,
                  merged: Nodes)
    requires w > 0 && k + m <= |rest| && 0 < |merged| <= 2 * w
    requires Earlier(pos, done, rest) && FullRuns(rank, pos, done, 2 * w) && Extends(rank, rank')
    requires Earlier(pos, rest[..k], rest[k..][m..]) && Earlier(pos, rest[k..][..m], rest[k..][m..])
    requires multiset(merged) == multiset(rest[..k]) + multiset(rest[k..][..m])
    requires IsRun(rank', pos, merged)
    ensures Earlier(pos, done + merged, rest[k..][m..])
    ensures Runs(rank', pos, done + merged, 2 * w)
    ensures |merged| == 2 * w ==> FullRuns(rank', pos, done + merged, 2 * w)
  {
    hide Earlier, Runs, FullRuns, IsRun, Extends;
    var ps, qs, left := rest[..k], rest[k..][..m], rest[k..][m..];
    EarlierPerm(pos, ps, qs, left, merged);
    EarlierSub(pos, done, rest, 0, k);
    EarlierSub(pos, done, rest, k, k + m);
    EarlierSub(pos, done, rest, k + m, |rest|);
    assert rest[0..k] == ps && rest[k..k + m] == qs && rest[k + m..|rest|] == left;
    EarlierPermRight(pos, done, ps, qs, merged);
    EarlierJoin(pos, done, merged, left);
    FullRunsExtend(rank, rank', pos, done, 2 * w);
    AppendRun(rank', pos, done, merged, 2 * w);
  }

  lemma PassStep(rank: Ranks, rank': Ranks, pos: Ranks, s: Nodes, done: Nodes, rest: Nodes, w: nat, nmerges: nat,
                 k: nat, m: nat, merged: Nodes, all: set<ListHead>)
    requires w > 0 && rest != [] && Passing(rank, pos, s, done, rest, w, nmerges) && Extends(rank, rank')
    requires k == Min(w, |rest|) && m == Min(w, |rest| - k)
    requires multiset(merged) == multiset(rest[..k]) + multiset(rest[k..][..m]) && |merged| == k + m
    requires IsRun(rank', pos, merged)
    requires forall x :: x in rest ==> x in all
    ensures Passing(rank', pos, s, done + merged, rest[k..][m..], w, nmerges + 1)
  {
    hide Earlier, Runs, FullRuns, IsRun, Extends, Mergeable;
    TwoRuns(all, rank, pos, rest, w, k, m);
    RunsExtend(rank, rank', pos, rest[k..][m..], w);
    PassOrder(rank, rank', pos, done, rest, w, k, m, merged);
    PassKeeps(s, done, rest, k, m, merged);
  }

  lemma PassKeeps(s: Nodes, done: Nodes, rest: Nodes, k: nat, m: nat, merged: Nodes)
    requires k + m <= |rest| && multiset(done) + multiset(rest) == multiset(s)
    requires multiset(merged) == multiset(rest[..k]) + multiset(rest[k..][..m])
    ensures multiset(done + merged) + multiset(rest[k..][m..]) == multiset(s)
  {
    assert rest == rest[..k] + (rest[k..][..m] + rest[k..][m..]);
  }

  lemma ShapeSplit(all: set<ListHead>, head: ListHead?, tail: ListHead?, done: Nodes, p: ListHead, rest: Nodes,
                   q: ListHead?, k: nat)
    requires rest != [] && Shape(all, head, tail, done, null, [], p, rest)
    requires 0 < k <= |rest| && q == First(rest[k..])
    ensures Shape(all, head, tail, done, p, rest[..k], q, rest[k..])
  {
    var ps, qs := rest[..k], rest[k..];
    assert forall i :: 0 <= i < |qs| ==> qs[i] == rest[i + k];
    NoDupSplit(rest, k);
  }

  lemma NoDupSplit(s: Nodes, k: nat)
    requires k <= |s| && NoDup(s)
    ensures NoDup(s[..k]) && NoDup(s[k..]) && Disjoint(s[..k], s[k..])
  {
    var t := s[k..];
    forall i, j | 0 <= i < j < |t|
      ensures t[i] != t[j]
    {
      assert t[i] == s[i + k] && t[j] == s[j + k];
    }
    forall i, j | 0 <= i < k && 0 <= j < |t|
      ensures s[..k][i] != t[j]
    {
      assert t[j] == s[j + k];
    }
  }

  lemma PassingRuns(all: set<ListHead>, head: ListHead?, tail: ListHead?, rank: Ranks, pos: Ranks, s: Nodes,
                    done: Nodes, p: ListHead, rest: Nodes, w: nat, nmerges: nat, k: nat, m: nat)
    requires w > 0 && rest != [] && Passing(rank, pos, s, done, rest, w, nmerges)
    requires Shape(all, head, tail, done, null, [], p, rest)
    requires k == Min(w, |rest|) && m == Min(w, |rest| - k)
    ensures Mergeable(all, rank, pos, rest[..k], rest[k..][..m])
  {
    TwoRuns(all, rank, pos, rest, w, k, m);
  }

  /** Merges the two runs at p, or moves the only one along. */
  method MergeNeighbours(cmp: Comparator, res: CoreResults?, head0: ListHead?, tail0: ListHead?, p: ListHead,
                         insize: nat, ghost all: set<ListHead>, ghost datas: set<ListData>, ghost s: Nodes,
                         ghost out0: Nodes, ghost rest0: Nodes, ghost rank0: Ranks, ghost pos: Ranks,
                         ghost nmerges: nat, ghost from: Origin, ghost log0: seq<Run>)
    returns (head: ListHead?, tail: ListHead?, q: ListHead?, ghost out: Nodes, ghost rest: Nodes, ghost rank: Ranks,
             ghost log: seq<Run>)
    requires (cmp.CmpComplex? ==> res != null) && InfosIn(all, datas) && Ledger(cmp, res, datas, from, log0)
    requires insize > 0 && rest0 != [] && Shape(all, head0, tail0, out0, null, [], p, rest0)
    requires Passing(rank0, pos, s, out0, rest0, insize, nmerges)
    requires RanksTrue(cmp, res == null, datas, rank0) && rank0.Keys <= all
    modifies all`next, datas`data16, if res == null then {} else {res}
    ensures Shape(all, head, tail, out, null, [], q, rest) && |rest| < |rest0|
    ensures Passing(rank, pos, s, out, rest, insize, nmerges + 1)
    ensures Ledger(cmp, res, datas, from, log)
    ensures RanksTrue(cmp, res == null, datas, rank) && Extends(rank0, rank) && rank.Keys <= all
    ensures forall n :: n in all ==> MaySettle(cmp, res == null, old(n.info.data16), n.info.data16)
  {
    hide Shape, Passing, Mergeable, RanksTrue, IsRun, Runs, InfosIn, MaySettle, Extends, Ledger;
    ShapeFacts(all, head0, tail0, out0, null, [], p, rest0);
    var psize;
    q, psize := TakeRun(p, insize, rest0);
    ghost var ps, qs := rest0[..psize], rest0[psize..];
    ghost var m := Min(insize, |qs|);
    PassingRuns(all, head0, tail0, rank0, pos, s, out0, p, rest0, insize, nmerges, psize, m);
    ShapeSplit(all, head0, tail0, out0, p, rest0, q, psize);
    ghost var merged;
    head, tail, q, merged, rank, log :=
      MergeRuns(cmp, res, head0, tail0, p, psize, q, insize, all, datas, out0, ps, qs, rank0, pos, from, log0);
    PassStep(rank0, rank, pos, s, out0, rest0, insize, nmerges, psize, m, merged, all);
    out, rest := out0 + merged, qs[m..];
  }

  /** One pass over the list: merges neighbouring runs of `insize' nodes. */
  method MergePass(list: ListHead, cmp: Comparator, res: CoreResults?, insize: nat,
                   ghost all: set<ListHead>, ghost datas: set<ListData>, ghost s: Nodes,
                   ghost rank0: Ranks, ghost pos: Ranks, ghost from: Origin, ghost log0: seq<Run>)
    returns (head: ListHead?, nmerges: nat, ghost out: Nodes, ghost rank: Ranks, ghost log: seq<Run>)
    requires (cmp.CmpComplex? ==> res != null) && InfosIn(all, datas) && Ledger(cmp, res, datas, from, log0)
    requires insize > 0 && s != [] && Shape(all, null, null, [], null, [], list, s)
    requires Runs(rank0, pos, s, insize) && RanksTrue(cmp, res == null, datas, rank0) && rank0.Keys <= all
    modifies all`next, datas`data16, if res == null then {} else {res}
    ensures multiset(out) == multiset(s) && Shape(all, null, null, [], null, [], head, out)
    ensures Runs(rank, pos, out, 2 * insize) && (nmerges <= 1 <==> |s| <= 2 * insize)
    ensures Ledger(cmp, res, datas, from, log)
    ensures RanksTrue(cmp, res == null, datas, rank) && Extends(rank0, rank) && rank.Keys <= all
    ensures forall n :: n in all ==> MaySettle(cmp, res == null, old(n.info.data16), n.info.data16)
  {
    hide Shape, Passing, RanksTrue, Runs, InfosIn, IsList, IsSettled, High, Ledger;
    var p: ListHead? := list;
    var tail: ListHead?;
    head, tail, nmerges := null, null, 0;
    ghost var rest := s;
    out, rank, log := [], rank0, log0;
    PassStarts(rank, pos, s, insize);
    ShapeFacts(all, head, tail, out, null, [], p, rest);
    while p != null
      invariant Shape(all, head, tail, out, null, [], p, rest) && p == First(rest)
      invariant Passing(rank, pos, s, out, rest, insize, nmerges)
      invariant Ledger(cmp, res, datas, from, log)
      invariant RanksTrue(cmp, res == null, datas, rank) && Extends(rank0, rank) && rank.Keys <= all
      invariant forall n :: n in all ==> MaySettle(cmp, res == null, old(n.info.data16), n.info.data16)
      decreases |rest|
    {
      nmerges := nmerges + 1;
      head, tail, p, out, rest, rank, log :=
        MergeNeighbours(cmp, res, head, tail, p, insize, all, datas, s, out, rest, rank, pos, nmerges - 1, from, log);
      ShapeFacts(all, head, tail, out, null, [], p, rest);
    }
    PassEnds(rank, pos, s, out, insize, nmerges);
    Terminate(head, tail, all, out);
  }

  lemma PassEnds(rank: Ranks, pos: Ranks, s: Nodes, out: Nodes, w: nat, nmerges: nat)
    requires w > 0 && Passing(rank, pos, s, out, [], w, nmerges)
    ensures multiset(out) == multiset(s) && |out| == |s| && Runs(rank, pos, out, 2 * w)
    ensures nmerges <= 1 <==> |s| <= 2 * w
  {
    assert |multiset(out)| == |multiset(s)|;
  }

  /** Ends the merged list at its last node. */
  method Terminate(head: ListHead?, tail: ListHead?, ghost all: set<ListHead>, ghost out: Nodes)
    requires out != [] && Shape(all, head, tail, out, null, [], null, [])
    modifies all`next
    ensures Shape(all, null, null, [], null, [], head, out)
  {
    assert tail in out;
    tail.next := null;
  }

  // -------------------------------------------------------------- the sort

  ghost function IndexOf(s: Nodes, x: ListHead): (k: nat)
    requires x in s
    ensures k < |s| && s[k] == x
  {
    if s[0] == x then 0 else 1 + IndexOf(s[1..], x)
  }

  ghost function Positions(s: Nodes): Ranks {
    map x | x in s :: IndexOf(s, x)
  }

  lemma PositionsInOrder(s: Nodes)
    requires NoDup(s)
    ensures InOrder(Positions(s), s)
  {
    PositionIsIndex(s);
  }

  lemma PositionIsIndex(s: Nodes)
    requires NoDup(s)
    ensures forall k :: 0 <= k < |s| ==> Positions(s)[s[k]] == k
  {
  }

  ghost function Rank(cmp: Comparator, x: ListHead): int
    reads x`info, x.info`data16, x.info`idx
  {
    RankOf(cmp, x.info.data16, x.info.idx)
  }

  /** `out' is in order of rank, and nodes of equal rank are in the order they have in s. */
  ghost predicate StablySorted(cmp: Comparator, s: Nodes, out: Nodes)
    reads out`info, (set x | x in out :: x.info)`data16, (set x | x in out :: x.info)`idx
  {
    && (forall i, j :: 0 <= i < j < |out| ==> Rank(cmp, out[i]) <= Rank(cmp, out[j]))
    && (forall i, j, a, b ::
          (0 <= i < j < |out| && 0 <= a < |s| && 0 <= b < |s| && out[i] == s[a] && out[j] == s[b]
           && Rank(cmp, out[i]) == Rank(cmp, out[j]))
          ==> a < b)
  }

  ghost predicate AllSettled(cmp: Comparator, regen: bool, s: Nodes)
    reads s`info, (set x | x in s :: x.info)`data16
  {
    forall x :: x in s ==> IsSettled(cmp, regen, x.info.data16)
  }

  /** A single run in the ghost order is a stably sorted list. */
  lemma RunIsSorted(cmp: Comparator, regen: bool, datas: set<ListData>, rank: Ranks, s: Nodes, out: Nodes)
    requires NoDup(s) && IsRun(rank, Positions(s), out) && RanksTrue(cmp, regen, datas, rank)
    ensures StablySorted(cmp, s, out)
    ensures |out| >= 2 ==> AllSettled(cmp, regen, out)
  {
    PositionIsIndex(s);
    if |out| >= 2 {
      forall i, j | 0 <= i < j < |out|
        ensures Before(rank, Positions(s), out[i], out[j])
      {
      }
      forall x | x in out
        ensures x in rank
      {
        var k :| 0 <= k < |out| && out[k] == x;
        assert if k == 0 then Before(rank, Positions(s), out[0], out[1])
          else Before(rank, Positions(s), out[0], out[k]);
      }
    }
  }

  ghost function NodeSet(s: Nodes): set<ListHead> {
    set x | x in s
  }

  lemma ListIsShape(list: ListHead?, s: Nodes)
    requires s != []
    ensures NoDup(s) && IsList(list, s) ==> Shape(NodeSet(s), null, null, [], null, [], list, s)
  {
  }

  lemma ShapeIsList(all: set<ListHead>, list: ListHead?, s: Nodes)
    requires s != [] && Shape(all, null, null, [], null, [], list, s)
    ensures IsList(list, s) && NoDup(s) && list != null
  {
  }

  lemma NothingRanked(cmp: Comparator, regen: bool, datas: set<ListData>)
    ensures RanksTrue(cmp, regen, datas, map[])
  {
  }

  lemma OneRun(rank: Ranks, pos: Ranks, s: Nodes, w: nat)
    requires 0 < |s| <= w && Runs(rank, pos, s, w)
    ensures IsRun(rank, pos, s)
  {
    assert s[..|s|] == s;
  }

  /** Sorts a nonempty list in place, without recursion. */
  method MergeSort(list0: ListHead, cmp: Comparator, res: CoreResults?, ghost s: Nodes, ghost datas: set<ListData>)
    returns (list: ListHead, ghost out: Nodes, ghost log: seq<Run>)
    requires cmp.CmpComplex? ==> res != null
    requires s != [] && IsList(list0, s) && NoDup(s) && InfosIn(NodeSet(s), datas)
    modifies NodeSet(s)`next, datas`data16, if res == null then {} else {res}
    ensures IsList(list, out) && NoDup(out) && multiset(out) == multiset(s)
    ensures StablySorted(cmp, s, out)
    ensures |s| >= 2 ==> AllSettled(cmp, res == null, out)
    ensures Ledger(cmp, res, datas, old(OriginOf(datas, res)), log)
    ensures forall n :: n in s ==> MaySettle(cmp, res == null, old(n.info.data16), n.info.data16)
  {
    hide Shape, Runs, RanksTrue, IsRun, InfosIn, StablySorted, AllSettled, IsList, NoDup, Positions, InOrder, Extends,
      Ledger;
    ghost var all, pos := NodeSet(s), Positions(s);
    ghost var rank: Ranks := map[];
    out := s;
    var head: ListHead? := list0;
    var insize := 1;
    ghost var from := OriginOf(datas, res);
    log := [];
    NothingComputed(cmp, res, datas);
    PositionsInOrder(s);
    SinglesAreRuns(rank, pos, s);
    ListIsShape(list0, s);
    NothingRanked(cmp, res == null, datas);
    while true
      invariant insize == 1 || insize < |s|
      invariant out != [] && multiset(out) == multiset(s) && Shape(all, null, null, [], null, [], head, out)
      invariant Runs(rank, pos, out, insize)
      invariant Ledger(cmp, res, datas, from, log)
      invariant RanksTrue(cmp, res == null, datas, rank) && rank.Keys <= all
      invariant forall n :: n in all ==> MaySettle(cmp, res == null, old(n.info.data16), n.info.data16)
      decreases |s| - insize
    {
      var nmerges;
      assert |multiset(out)| == |out| && |multiset(s)| == |s|;
      ShapeIsList(all, head, out);
      head, nmerges, out, rank, log := MergePass(head, cmp, res, insize, all, datas, out, rank, pos, from, log);
      assert |multiset(out)| == |out|;
      if nmerges <= 1 {
        break;
      }
      insize := 2 * insize;
    }
    ShapeIsList(all, head, out);
    OneRun(rank, pos, out, 2 * insize);
    RunIsSorted(cmp, res == null, datas, rank, s, out);
    list := head;
  }
}
