/// The list benchmark of core_list_join.c: find, reverse, move, sort, remove and
/// reinsert, then sort back by index.

module ListBench {
  import opened Arithmetic
  import Crc
  import opened ListCells
  import opened ListSort

  // ------------------------------------------------------------------ find

  /** The search criterion: the index if it is nonnegative, else the low data byte. */
  ghost predicate Matches(x: ListHead, idx: Short, low: int)
    reads x`info, x.info`data16, x.info`idx
  {
    if idx >= 0 then x.info.idx == idx else Low(x.info.data16) == low
  }

  /** The first node of s that matches is at position k; |s| if none does. */
  ghost predicate FoundAt(s: Nodes, idx: Short, low: int, k: nat)
    reads s`info, (set x | x in s :: x.info)`data16, (set x | x in s :: x.info)`idx
  {
    && k <= |s|
    && (forall i :: 0 <= i < k ==> !Matches(s[i], idx, low))
    && (k < |s| ==> Matches(s[k], idx, low))
  }

  method Find(list: ListHead?, idx: Short, low: int, ghost s: Nodes)
    returns (r: ListHead?, ghost k: nat)
    requires IsList(list, s)
    ensures FoundAt(s, idx, low, k) && r == First(s[k..])
    ensures if r == null then (forall x :: x in s ==> !Matches(x, idx, low)) else r in s && Matches(r, idx, low)
    ensures r != null && idx >= 0 ==> r.info.idx == idx
    ensures r != null && idx < 0 ==> Value(WordBits(r.info.data16)[0..8]) == low
    ensures r == null && idx >= 0 ==> forall x :: x in s ==> x.info.idx != idx
    ensures r == null && idx < 0 ==> forall x :: x in s ==> Value(WordBits(x.info.data16)[0..8]) != low
  {
    hide WordBits, Value, Low;
    r := list;
    k := 0;
    forall x | x in s { LowByteIs(x.info.data16); }
    if idx >= 0 {
      while r != null && r.info.idx != idx
        invariant k <= |s| && r == First(s[k..])
        invariant forall i :: 0 <= i < k ==> !Matches(s[i], idx, low)
        decreases |s| - k
      {
        assert k < |s| - 1 ==> s[k].next == s[k + 1];
        r := r.next;
        k := k + 1;
      }
    } else {
      while r != null && r.info.data16 % 0x100 != low
        invariant k <= |s| && r == First(s[k..])
        invariant forall i :: 0 <= i < k ==> !Matches(s[i], idx, low)
        decreases |s| - k
      {
        assert k < |s| - 1 ==> s[k].next == s[k + 1];
        r := r.next;
        k := k + 1;
      }
    }
  }

  lemma LowByteIs(d: Half)
    ensures Low(d) == Value(WordBits(d)[0..8]) == d % 0x100
  {
    WordFields(d);
  }

  /** What the search looks at: the data word and the index. */
  datatype Item = Item(data: Half, idx: Short)

  ghost function Items(s: Nodes): (r: seq<Item>)
    reads s`info, (set x | x in s :: x.info)`data16, (set x | x in s :: x.info)`idx
    ensures |r| == |s| && forall i :: 0 <= i < |s| ==> r[i] == Item(s[i].info.data16, s[i].info.idx)
  {
    if s == [] then [] else [Item(s[0].info.data16, s[0].info.idx)] + Items(s[1..])
  }

  predicate ItemMatches(x: Item, idx: Short, low: int) { if idx >= 0 then x.idx == idx else Low(x.data) == low }

  /** The first match; the length if there is none. */
  function Position(items: seq<Item>, idx: Short, low: int): (k: nat)
    ensures k <= |items| && (k < |items| ==> ItemMatches(items[k], idx, low))
    ensures forall i :: 0 <= i < k ==> !ItemMatches(items[i], idx, low)
  {
    if items == [] || ItemMatches(items[0], idx, low) then 0 else 1 + Position(items[1..], idx, low)
  }

  lemma FoundIsPosition(s: Nodes, idx: Short, low: int, k: nat)
    ensures FoundAt(s, idx, low, k) <==> k == Position(Items(s), idx, low)
  {
    var items := Items(s);
    var p := Position(items, idx, low);
    assert forall i :: 0 <= i < |s| ==> Matches(s[i], idx, low) == ItemMatches(items[i], idx, low);
  }

  // --------------------------------------------------------------- reverse

  ghost function Reversed<T>(s: seq<T>): (r: seq<T>)
    ensures |r| == |s| && forall i :: 0 <= i < |s| ==> r[i] == s[|s| - 1 - i]
  {
    if s == [] then [] else Reversed(s[1..]) + [s[0]]
  }

  lemma {:induction false} ReversedPerm(s: Nodes)
    ensures multiset(Reversed(s)) == multiset(s)
    ensures NoDup(s) ==> NoDup(Reversed(s))
  {
    if s != [] {
      assert s == [s[0]] + s[1..];
      ReversedPerm(s[1..]);
    }
  }

  /** Moves the first node of u to the front of d. */
  method Push(list: ListHead, r: ListHead?, ghost d: Nodes, ghost u: Nodes) returns (list': ListHead?)
    requires IsList(r, d) && IsList(list, u) && NoDup(u) && list !in d
    modifies {list}`next
    ensures IsList(list, [list] + d) && IsList(list', u[1..])
  {
    assert |u| > 1 ==> u[0].next == u[1];
    list' := list.next;
    list.next := r;
    assert forall i :: 0 <= i < |d| ==> d[i] != list;
    assert forall i :: 0 < i < |u| ==> u[i] != list;
    var v := [list] + d;
    assert forall i :: 0 < i < |v| ==> v[i] == d[i - 1];
  }

  lemma EmptyIsList()
    ensures IsList(null, [])
  {
  }

  /** d holds the first nodes of s in reverse, u the others. */
  ghost predicate Turned(s: Nodes, d: Nodes, u: Nodes) {
    |d| + |u| == |s| && u == s[|d|..] && forall j :: 0 <= j < |d| ==> d[j] == s[|d| - 1 - j]
  }

  lemma NextTurned(s: Nodes, d: Nodes, u: Nodes)
    requires NoDup(s) && Turned(s, d, u) && u != []
    ensures u[0] !in d && u[0] in s && NoDup(u) && Turned(s, [u[0]] + d, u[1..])
  {
    NoDupSplit(s, |d|);
  }

  lemma AllTurned(s: Nodes, d: Nodes)
    ensures Turned(s, [], s) && (Turned(s, d, []) ==> d == Reversed(s))
  {
  }

  method Reverse(list0: ListHead?, ghost s: Nodes) returns (r: ListHead?)
    requires IsList(list0, s) && NoDup(s)
    modifies NodeSet(s)`next
    ensures IsList(r, Reversed(s))
  {
    hide Chained, NoDup, Reversed, Turned;
    EmptyIsList();
    var list := list0;
    r := null;
    ghost var d: Nodes, u: Nodes := [], s;
    AllTurned(s, []);
    while list != null
      invariant IsList(r, d) && IsList(list, u) && Turned(s, d, u)
      decreases |u|
    {
      NextTurned(s, d, u);
      var next := Push(list, r, d, u);
      r, list, d, u := list, next, [list] + d, u[1..];
    }
    AllTurned(s, d);
  }

  // -------------------------------------------------- moving a found item on

  /** The node after position k goes to second place. */
  ghost function MovedUp<T>(t: seq<T>, k: nat): (r: seq<T>)
    requires k + 1 < |t|
    ensures |r| == |t| && multiset(r) == multiset(t)
  {
    var r := [t[0]] + [t[k + 1]] + t[1..k + 1] + t[k + 2..];
    assert t == [t[0]] + t[1..k + 1] + [t[k + 1]] + t[k + 2..];
    r
  }

  method CacheNext(list: ListHead, thisFind: ListHead, ghost t: Nodes, ghost k: nat)
    requires IsList(list, t) && NoDup(t)
    requires k + 1 < |t| && thisFind == t[k]
    modifies NodeSet(t)`next
    ensures IsList(list, MovedUp(t, k))
  {
    ghost var r := MovedUp(t, k);
    assert t[k].next == t[k + 1];
    assert k + 2 < |t| ==> t[k + 1].next == t[k + 2];
    assert t[0].next == t[1];
    var finder := thisFind.next;
    thisFind.next := finder.next;
    finder.next := list.next;
    list.next := finder;
    forall i | 0 <= i < |r|
      ensures r[i].next == if i + 1 < |r| then r[i + 1] else null
    {
      if i == 0 || i == 1 {
      } else if i <= k + 1 {
        assert r[i] == t[i - 1];
      } else {
        assert r[i] == t[i];
      }
    }
  }

  // ------------------------------------------------------ remove and undo

  /** Removes an item by taking over the data of the next one and unlinking that. */
  method Remove(item: ListHead, ghost list: ListHead, ghost t: Nodes, ghost k: nat) returns (ret: ListHead)
    requires IsList(list, t) && NoDup(t)
    requires k + 1 < |t| && item == t[k]
    modifies t`next, {t[k], t[k + 1]}`info
    ensures ret == t[k + 1] && ret.next == null
    ensures item.info == old(t[k + 1].info) && ret.info == old(item.info)
    ensures IsList(list, t[..k + 1] + t[k + 2..])
  {
    assert t[k].next == t[k + 1];
    assert k + 2 < |t| ==> t[k + 1].next == t[k + 2];
    ret := item.next;
    var tmp := item.info;
    item.info := ret.info;
    ret.info := tmp;
    item.next := item.next.next;
    ret.next := null;
    ghost var r := t[..k + 1] + t[k + 2..];
    forall i | 0 <= i < |r|
      ensures r[i].next == if i + 1 < |r| then r[i + 1] else null
    {
      assert r[i] == if i <= k then t[i] else t[i + 1];
    }
  }

  /** Links a removed item back in after the one it was removed from. */
  method UndoRemove(itemRemoved: ListHead, itemModified: ListHead, ghost list: ListHead, ghost t: Nodes, ghost k: nat)
    returns (r: ListHead)
    requires IsList(list, t) && NoDup(t)
    requires k < |t| && itemModified == t[k] && itemRemoved !in t
    modifies t`next, itemRemoved`next, itemModified`info, itemRemoved`info
    ensures r == itemRemoved
    ensures itemModified.info == old(itemRemoved.info) && itemRemoved.info == old(itemModified.info)
    ensures IsList(list, t[..k + 1] + [itemRemoved] + t[k + 1..])
  {
    assert k + 1 < |t| ==> t[k].next == t[k + 1];
    var tmp := itemRemoved.info;
    itemRemoved.info := itemModified.info;
    itemModified.info := tmp;
    itemRemoved.next := itemModified.next;
    itemModified.next := itemRemoved;
    r := itemRemoved;
    ghost var u := t[..k + 1] + [itemRemoved] + t[k + 1..];
    forall i | 0 <= i < |u|
      ensures u[i].next == if i + 1 < |u| then u[i + 1] else null
    {
      if i <= k {
        assert u[i] == t[i];
      } else if i > k + 1 {
        assert u[i] == t[i - 1];
      }
    }
  }

  // --------------------------------------------------------- the benchmark

  /** A 16-bit sum. */
  function Sum16(x: int, y: int): Half { (x + y) % 0x1_0000 }

  /** The list after position j was found: the item after it, if any, has moved up. */
  ghost function AfterUse<T>(t: seq<T>, j: nat): seq<T> {
    if j + 1 < |t| then MovedUp(t, j) else t
  }

  /** What a found item adds to the result. */
  function UseScore(x: Item): int { if x.data % 2 == 1 then x.data / 0x200 % 2 else 0 }

  /** What a round adds that found position k; a miss looks at the second item of the reversed list. */
  function Score(items: seq<Item>, k: nat): int
    requires |items| >= 2
  {
    if k < |items| then UseScore(items[k]) else items[|items| - 2].data / 0x100 % 2
  }

  /** Uses the found value and moves the item after it up. */
  method UseFound(list: ListHead, thisFind: ListHead, retval0: Half, ghost t: Nodes, ghost j: nat)
    returns (retval: Half, ghost t': Nodes)
    requires IsList(list, t) && NoDup(t) && j < |t| && thisFind == t[j]
    modifies NodeSet(t)`next
    ensures t' == AfterUse(t, j) && retval == Sum16(retval0, UseScore(Item(thisFind.info.data16, thisFind.info.idx)))
    ensures IsList(list, t') && multiset(t') == multiset(t)
  {
    retval := retval0;
    if thisFind.info.data16 % 2 == 1 {
      retval := Sum16(retval, thisFind.info.data16 / 0x200 % 2);
    }
    t' := t;
    assert j + 1 < |t| ==> t[j].next == t[j + 1];
    if thisFind.next != null {
      CacheNext(list, thisFind, t, j);
      t' := MovedUp(t, j);
    }
  }

  /** The list after one round of the search phase that found position k, or nothing. */
  ghost function AfterFind<T>(s: seq<T>, k: nat): seq<T> {
    if k < |s| then AfterUse(Reversed(s), |s| - 1 - k) else Reversed(s)
  }

  lemma ScoreOf(s: Nodes, k: nat)
    requires |s| >= 2
    ensures Score(Items(s), k)
         == if k < |s| then UseScore(Item(s[k].info.data16, s[k].info.idx)) else s[|s| - 2].info.data16 / 0x100 % 2
  {
  }

  /** The list after a miss only turns round; its new second node was last but one. */
  method UseMiss(list: ListHead, retval0: Half, ghost s: Nodes) returns (retval: Half)
    requires IsList(list, Reversed(s)) && |s| >= 2
    ensures retval == Sum16(retval0, s[|s| - 2].info.data16 / 0x100 % 2)
  {
    NextInList(list, Reversed(s));
    retval := Sum16(retval0, list.next.info.data16 / 0x100 % 2);
  }

  method FindThenReverse(list0: ListHead, idx: Short, low: int, ghost s: Nodes)
    returns (thisFind: ListHead?, list: ListHead, ghost k: nat)
    requires IsList(list0, s) && NoDup(s) && s != []
    modifies NodeSet(s)`next
    ensures old(FoundAt(s, idx, low, k)) && k <= |s| && thisFind == First(s[k..])
    ensures IsList(list, Reversed(s)) && NoDup(Reversed(s)) && multiset(Reversed(s)) == multiset(s)
  {
    hide Chained, FoundAt, NoDup, Reversed;
    thisFind, k := Find(list0, idx, low, s);
    FoundInRange(s, idx, low, k);
    ReversedPerm(s);
    list := Reverse(list0, s);
  }

  /** One round of the search phase: find, reverse, and move the item after a found one. */
  method FindAndReverse(list0: ListHead, idx: Short, low: int, retval0: Half, ghost s: Nodes)
    returns (list: ListHead, hit: bool, retval: Half, ghost t: Nodes, ghost k: nat)
    requires IsList(list0, s) && NoDup(s) && |s| >= 2
    modifies NodeSet(s)`next
    ensures IsList(list, t) && NoDup(t) && multiset(t) == multiset(s)
    ensures old(FoundAt(s, idx, low, k)) && hit == (k < |s|) && t == AfterFind(s, k)
    ensures retval == Sum16(retval0, Score(Items(s), k))
  {
    hide Chained, FoundAt, NoDup, AfterUse, Reversed, UseScore, Sum16, Items, Score;
    var thisFind;
    thisFind, list, k := FindThenReverse(list0, idx, low, s);
    hit := thisFind != null;
    list, retval, t := UseRound(list, thisFind, retval0, s, k);
    PermNoDup(s, t);
  }

  /** What follows the reversal. */
  method UseRound(list0: ListHead, thisFind: ListHead?, retval0: Half, ghost s: Nodes, ghost k: nat)
    returns (list: ListHead, retval: Half, ghost t: Nodes)
    requires IsList(list0, Reversed(s)) && NoDup(Reversed(s)) && multiset(Reversed(s)) == multiset(s) && |s| >= 2
    requires k <= |s| && thisFind == First(s[k..])
    modifies NodeSet(s)`next
    ensures list == list0 && IsList(list, t) && t == AfterFind(s, k) && multiset(t) == multiset(s)
    ensures retval == Sum16(retval0, Score(Items(s), k))
  {
    hide Chained, NoDup, AfterUse, Reversed, UseScore, Sum16, Items, Score;
    list := list0;
    SameNodes(s, Reversed(s));
    ScoreOf(s, k);
    t := Reversed(s);
    if thisFind == null {
      retval := UseMiss(list, retval0, s);
    } else {
      ReversedAt(s, k);
      retval, t := UseFound(list, thisFind, retval0, t, |s| - 1 - k);
    }
  }

  lemma ReversedAt<T>(s: seq<T>, k: nat)
    requires k < |s|
    ensures Reversed(s)[|s| - 1 - k] == s[k]
  {
  }

  lemma FoundInRange(s: Nodes, idx: Short, low: int, k: nat)
    requires FoundAt(s, idx, low, k)
    ensures k <= |s|
  {
  }

  lemma NextInList(list: ListHead, t: Nodes)
    requires IsList(list, t) && |t| >= 2
    ensures list.next == t[1]
  {
    assert t[0].next == t[1];
  }

  lemma {:induction false} NoDupCounts(s: Nodes, x: ListHead)
    requires NoDup(s)
    ensures multiset(s)[x] <= 1
  {
    if s != [] {
      NoDupTail(s);
      NoDupCounts(s[1..], x);
      assert s == [s[0]] + s[1..];
    }
  }

  lemma PermNoDup(s: Nodes, t: Nodes)
    requires NoDup(s) && multiset(s) == multiset(t)
    ensures NoDup(t)
  {
    forall i, j | 0 <= i < j < |t|
      ensures t[i] != t[j]
    {
      if t[i] == t[j] {
        assert t == t[..j] + t[j..] && t[..j][i] == t[i] && t[j..][0] == t[j];
        assert multiset(t)[t[i]] == multiset(t[..j])[t[i]] + multiset(t[j..])[t[i]];
        NoDupCounts(s, t[i]);
      }
    }
  }

  // ------------------------------------------------------- back in order

  ghost predicate IndexIncreasing(s: Nodes)
    reads s`info, (set x | x in s :: x.info)`idx
  {
    forall i, j :: 0 <= i < j < |s| ==> s[i].info.idx < s[j].info.idx
  }

  ghost predicate IndexSorted(s: Nodes)
    reads s`info, (set x | x in s :: x.info)`idx
  {
    forall i, j :: 0 <= i < j < |s| ==> s[i].info.idx <= s[j].info.idx
  }

  lemma SortedHead(s: Nodes, out: Nodes)
    requires s != [] && multiset(s) == multiset(out) && IndexIncreasing(s) && IndexSorted(out)
    ensures out != [] && out[0] == s[0]
  {
    assert |multiset(s)| == |s| && |multiset(out)| == |out|;
    var x, y := s[0], out[0];
    assert x in multiset(out) && y in multiset(s);
    var k :| 0 <= k < |out| && out[k] == x;
    var j :| 0 <= j < |s| && s[j] == y;
  }

  lemma SameTails(s: Nodes, out: Nodes)
    requires s != [] && out != [] && s[0] == out[0] && multiset(s) == multiset(out)
    ensures multiset(s[1..]) == multiset(out[1..])
  {
    assert s == [s[0]] + s[1..] && out == [out[0]] + out[1..];
    assert multiset(s[1..]) == multiset(s) - multiset{s[0]};
  }

  /** With distinct indices there is only one sorted order. */
  lemma {:induction false} SortedOrderUnique(s: Nodes, out: Nodes)
    requires multiset(s) == multiset(out) && IndexIncreasing(s) && IndexSorted(out)
    ensures out == s
    decreases |s|
  {
    if s == [] {
      assert |multiset(out)| == 0;
    } else {
      SortedHead(s, out);
      SameTails(s, out);
      SortedOrderUnique(s[1..], out[1..]);
      assert s == [s[0]] + s[1..] && out == [out[0]] + out[1..];
    }
  }

  /** x comes before y in a sort by index that keeps equal indices in the order of u. */
  ghost predicate StaysBefore(u: Nodes, x: ListHead, y: ListHead)
    reads x`info, y`info, x.info`idx, y.info`idx
  {
    || x.info.idx < y.info.idx
    || (x.info.idx == y.info.idx && forall a, b :: 0 <= a < |u| && 0 <= b < |u| && u[a] == x && u[b] == y ==> a < b)
  }

  /** The list is sorted by index, and equal indices are in the order of u. */
  ghost predicate OrderKept(s: Nodes, u: Nodes)
    reads s`info, (set x | x in s :: x.info)`idx
  {
    forall i, j :: 0 <= i < j < |s| ==> StaysBefore(u, s[i], s[j])
  }

  /** No index is below the head's, and the head is the first of its index in u. */
  ghost predicate HeadKept(s: Nodes, u: Nodes)
    reads s`info, (set x | x in s :: x.info)`idx
  {
    forall j :: 0 < j < |s| ==> StaysBefore(u, s[0], s[j])
  }

  /** The head's index is smaller than all others. */
  ghost predicate HeadLeast(s: Nodes)
    reads s`info, (set x | x in s :: x.info)`idx
  {
    forall j :: 0 < j < |s| ==> s[0].info.idx < s[j].info.idx
  }

  lemma OneWay(u: Nodes, x: ListHead, y: ListHead)
    requires x in u && y in u && StaysBefore(u, x, y)
    ensures !StaysBefore(u, y, x)
  {
    assert exists a, b :: 0 <= a < |u| && 0 <= b < |u| && u[a] == x && u[b] == y;
  }

  lemma StableIsKept(u: Nodes, out: Nodes)
    requires StablySorted(CmpIdx, u, out)
    ensures OrderKept(out, u)
  {
    forall i, j | 0 <= i < j < |out|
      ensures StaysBefore(u, out[i], out[j])
    {
      assert Rank(CmpIdx, out[i]) <= Rank(CmpIdx, out[j]);
    }
  }

  /** The head of a stable sort. */
  lemma StableHead(s: Nodes, u: Nodes, out: Nodes)
    requires s != [] && NoDup(s) && multiset(s) == multiset(u) == multiset(out) && OrderKept(out, u)
    ensures out != [] && (out[0] == s[0] <==> HeadKept(s, u))
  {
    hide StaysBefore;
    SameNodes(s, u);
    SameNodes(s, out);
    if out[0] == s[0] {
      forall j | 0 < j < |s|
        ensures StaysBefore(u, s[0], s[j])
      {
        assert s[j] in out;
      }
    } else if HeadKept(s, u) {
      assert out[0] in s && s[0] in out;
      OneWay(u, s[0], out[0]);
    }
  }

  /** A stable sort has only one result. */
  lemma {:induction false} StableOrderUnique(s: Nodes, u: Nodes, out: Nodes)
    requires multiset(s) == multiset(out) && NoDup(s) && OrderKept(s, u) && OrderKept(out, u)
    requires forall x :: x in s ==> x in u
    ensures out == s
    decreases |s|
  {
    hide StaysBefore;
    if s == [] {
      assert |multiset(out)| == 0;
    } else {
      assert |multiset(s)| == |s| && |multiset(out)| == |out|;
      assert s[0] in multiset(out) && out[0] in multiset(s);
      if out[0] != s[0] { OneWay(u, s[0], out[0]); }
      SameTails(s, out);
      TailKept(s, u);
      TailKept(out, u);
      StableOrderUnique(s[1..], u, out[1..]);
      assert s == [s[0]] + s[1..] && out == [out[0]] + out[1..];
    }
  }

  lemma TailKept(s: Nodes, u: Nodes)
    requires s != [] && OrderKept(s, u)
    ensures OrderKept(s[1..], u)
  {
    hide StaysBefore;
    assert forall i :: 0 <= i < |s[1..]| ==> s[1..][i] == s[i + 1];
  }

  /** A stable sort of a reversed list restores strict orders only. */
  lemma ReversedKept(s: Nodes)
    requires NoDup(s)
    ensures OrderKept(s, Reversed(s)) <==> IndexIncreasing(s)
    ensures HeadKept(s, Reversed(s)) <==> HeadLeast(s)
  {
    forall i, j | 0 <= i < j < |s|
      ensures StaysBefore(Reversed(s), s[i], s[j]) <==> s[i].info.idx < s[j].info.idx
    {
      var r, n := Reversed(s), |s|;
      assert r[n - 1 - i] == s[i] && r[n - 1 - j] == s[j];
    }
  }

  /** What the final sort restores: the whole order, and the head. */
  lemma SortRestores(s: Nodes, u: Nodes, out: Nodes)
    requires s != [] && NoDup(s) && multiset(s) == multiset(u) == multiset(out) && StablySorted(CmpIdx, u, out)
    ensures out != [] && (out == s <==> OrderKept(s, u)) && (out[0] == s[0] <==> HeadKept(s, u))
    ensures IndexIncreasing(s) ==> out == s
    ensures HeadLeast(s) ==> out[0] == s[0]
  {
    hide StablySorted, StaysBefore;
    SameNodes(s, u);
    StableIsKept(u, out);
    StableHead(s, u, out);
    if OrderKept(s, u) { StableOrderUnique(s, u, out); }
    StrictIsKept(s, u);
  }

  lemma StrictIsKept(s: Nodes, u: Nodes)
    ensures IndexIncreasing(s) ==> OrderKept(s, u)
    ensures HeadLeast(s) ==> HeadKept(s, u)
  {
  }

  /** The rebuild is invisible exactly when the low byte was a copy of the high byte. */
  lemma RebuiltIsIdentity(d: Half)
    ensures Rebuilt(d) == d <==> Low(d) == High(d)
  {
  }

  ghost function Mapped<T, U>(f: T -> U, s: seq<T>): (r: seq<U>)
    ensures |r| == |s| && forall i :: 0 <= i < |s| ==> r[i] == f(s[i])
  {
    seq(|s|, i requires 0 <= i < |s| => f(s[i]))
  }

  lemma MovedUpAt<T>(t: seq<T>, k: nat, i: nat)
    requires k + 1 < |t| && i < |t|
    ensures MovedUp(t, k)[i] == t[if i == 0 then 0 else if i == 1 then k + 1 else if i <= k + 1 then i - 1 else i]
  {
  }

  /** A round moves anything attached to the nodes as it moves the nodes. */
  lemma MappedAfterFind<T, U>(f: T -> U, s: seq<T>, k: nat)
    ensures Mapped(f, AfterFind(s, k)) == AfterFind(Mapped(f, s), k)
  {
    hide MovedUp;
    assert Mapped(f, Reversed(s)) == Reversed(Mapped(f, s));
    if k < |s| { MappedAfterUse(f, Reversed(s), |s| - 1 - k); }
  }

  lemma MappedAfterUse<T, U>(f: T -> U, t: seq<T>, j: nat)
    ensures Mapped(f, AfterUse(t, j)) == AfterUse(Mapped(f, t), j)
  {
    hide MovedUp;
    if j + 1 < |t| {
      forall i | 0 <= i < |t|
        ensures Mapped(f, MovedUp(t, j))[i] == MovedUp(Mapped(f, t), j)[i]
      {
        MovedUpAt(t, j, i);
        MovedUpAt(Mapped(f, t), j, i);
      }
    }
  }

  /** f tells the item of each node. */
  ghost predicate Describes(f: ListHead -> Item, nodes: set<ListHead>)
    reads nodes`info, (set x | x in nodes :: x.info)`data16, (set x | x in nodes :: x.info)`idx
  {
    forall x :: x in nodes ==> f(x) == Item(x.info.data16, x.info.idx)
  }

  lemma ItemsMapped(s: Nodes, f: ListHead -> Item)
    requires Describes(f, NodeSet(s))
    ensures Items(s) == Mapped(f, s)
  {
  }

  ghost method Describe(s: Nodes) returns (f: ListHead -> Item)
    ensures Describes(f, NodeSet(s))
  {
    var m := map x | x in s :: Item(x.info.data16, x.info.idx);
    f := x => if x in m then m[x] else Item(0, 0);
  }

  /** The search phase in terms of the items alone. */
  datatype Search = Search(items: seq<Item>, idx: Short, retval: Half, found: Half, missed: Half)

  ghost function Round(st: Search, i: nat): (r: Search)
    requires |st.items| >= 2
    ensures |r.items| == |st.items|
  {
    var k := Position(st.items, st.idx, i % 0x100);
    Search(AfterFind(st.items, k), if st.idx >= 0 then Wrap16(st.idx + 1) else st.idx,
           Sum16(st.retval, Score(st.items, k)),
           if k < |st.items| then Sum16(st.found, 1) else st.found,
           if k < |st.items| then st.missed else Sum16(st.missed, 1))
  }

  ghost function SearchAfter(items: seq<Item>, idx: Short, n: nat): (r: Search)
    requires |items| >= 2
    ensures |r.items| == |items|
  {
    if n == 0 then Search(items, idx, 0, 0, 0) else Round(SearchAfter(items, idx, n - 1), n - 1)
  }

  /** The index that round i searches for: it counts up from a nonnegative start until it wraps. */
  function RoundIdx(idx: Short, i: nat): Short {
    if idx < 0 then idx else if idx + i < 0x8000 then idx + i else -0x8000
  }

  /** The items as the rounds before round i have left them. */
  ghost function Before(items: seq<Item>, idx: Short, i: nat): (now: seq<Item>)
    requires |items| >= 2
    ensures |now| == |items|
  {
    SearchAfter(items, idx, i).items
  }

  /** Where round i finds its item. */
  ghost function FoundIn(items: seq<Item>, idx: Short, i: nat): nat
    requires |items| >= 2
  {
    Position(Before(items, idx, i), RoundIdx(idx, i), i % 0x100)
  }

  ghost predicate IsHit(items: seq<Item>, idx: Short, i: nat)
    requires |items| >= 2
  {
    FoundIn(items, idx, i) < |items|
  }

  /** Round i adds one: for a hit bits 0 and 9 of the word found, for a miss bit 8 of the last word but one. */
  ghost predicate AddsOne(items: seq<Item>, idx: Short, i: nat)
    requires |items| >= 2
  {
    var now, k := Before(items, idx, i), FoundIn(items, idx, i);
    if k < |now| then WordBits(now[k].data)[0] && WordBits(now[k].data)[9] else WordBits(now[|now| - 2].data)[8]
  }

  /** The number of hits in n rounds. */
  ghost function HitCount(items: seq<Item>, idx: Short, n: nat): (h: nat)
    requires |items| >= 2
    ensures h <= n
  {
    if n == 0 then 0 else HitCount(items, idx, n - 1) + if IsHit(items, idx, n - 1) then 1 else 0
  }

  /** The number of rounds that add one. */
  ghost function BitCount(items: seq<Item>, idx: Short, n: nat): nat
    requires |items| >= 2
  {
    if n == 0 then 0 else BitCount(items, idx, n - 1) + if AddsOne(items, idx, n - 1) then 1 else 0
  }

  /** The score of a word found, and of a word looked at after a miss, by their bits. */
  lemma ScoreByBits(x: Item)
    ensures UseScore(x) == if WordBits(x.data)[0] && WordBits(x.data)[9] then 1 else 0
    ensures x.data / 0x100 % 2 == if WordBits(x.data)[8] then 1 else 0
  {
    hide WordBits, Pow2;
    Pow2Values();
    BitAt(x.data, 0);
    BitAt(x.data, 8);
    BitAt(x.data, 9);
  }

  lemma RoundScore(items: seq<Item>, idx: Short, i: nat)
    requires |items| >= 2 && SearchAfter(items, idx, i).idx == RoundIdx(idx, i)
    ensures var st := SearchAfter(items, idx, i); var k := Position(st.items, st.idx, i % 0x100);
      && (k < |items| <==> IsHit(items, idx, i))
      && Score(st.items, k) == if AddsOne(items, idx, i) then 1 else 0
  {
    hide WordBits, UseScore, Position, SearchAfter;
    var st := SearchAfter(items, idx, i);
    var k := Position(st.items, st.idx, i % 0x100);
    ScoreByBits(if k < |items| then st.items[k] else st.items[|items| - 2]);
  }

  lemma SumsWrap(x: int, y: int, h: int, m: int)
    ensures Sum16(x % 0x1_0000, y) == (x + y) % 0x1_0000
    ensures Sum16(x % 0x1_0000, (h % 0x1_0000) * 4 - m % 0x1_0000) == (x + 4 * h - m) % 0x1_0000
  {
    WholeTurns(x + y, x / 0x1_0000);
    WholeTurns(x + 4 * h - m, x / 0x1_0000 + 4 * (h / 0x1_0000) - m / 0x1_0000);
  }

  lemma WholeTurns(x: int, t: int)
    ensures (x - 0x1_0000 * t) % 0x1_0000 == x % 0x1_0000
  {
  }

  /** Index, sum and counts after n rounds, in closed form. */
  lemma {:induction false} SearchTotals(items: seq<Item>, idx: Short, n: nat)
    requires |items| >= 2
    ensures var r := SearchAfter(items, idx, n);
      && r.idx == RoundIdx(idx, n) && r.retval == BitCount(items, idx, n) % 0x1_0000
      && r.found == HitCount(items, idx, n) % 0x1_0000 && r.missed == (n - HitCount(items, idx, n)) % 0x1_0000
  {
    hide SearchAfter, Position, Score, AfterFind, IsHit, AddsOne, Sum16;
    if n == 0 {
      SearchStart(items, idx);
    } else {
      SearchTotals(items, idx, n - 1);
      SearchNext(items, idx, n - 1);
      RoundScore(items, idx, n - 1);
      var h := HitCount(items, idx, n - 1);
      SumsWrap(BitCount(items, idx, n - 1), if AddsOne(items, idx, n - 1) then 1 else 0, 0, 0);
      SumsWrap(h, 1, 0, 0);
      SumsWrap(n - 1 - h, 1, 0, 0);
    }
  }

  /** The score of a search: the bits added, plus four times the hits, minus the misses. */
  lemma SearchScore(items: seq<Item>, finderIdx: Short, findNum: Short, after: seq<Item>, idx: Short, low: int,
                    retval: Half)
    requires |items| >= 2 && Searched(items, finderIdx, findNum, after, idx, low, retval)
    ensures var n := Rounds(findNum); var h := HitCount(items, finderIdx, n);
      && retval == (BitCount(items, finderIdx, n) + 4 * h - (n - h)) % 0x1_0000
      && idx == RoundIdx(finderIdx, n) && after == Before(items, finderIdx, n)
  {
    hide SearchAfter, HitCount, BitCount, Sum16;
    var n := Rounds(findNum);
    var h := HitCount(items, finderIdx, n);
    SearchTotals(items, finderIdx, n);
    SumsWrap(BitCount(items, finderIdx, n), 0, h, n - h);
  }

  /** What a round does to the list, place by place: the list turns round, and the item before the one
      found, which has come to stand behind it, goes to second place. */
  lemma RoundAt<T>(s: seq<T>, k: nat, i: nat)
    requires i < |s| && k <= |s|
    ensures |AfterFind(s, k)| == |s|
    ensures var n := |s|;
      AfterFind(s, k)[i]
         == s[if k == 0 || k == n then n - 1 - i else if i == 0 then n - 1 else if i == 1 then k - 1
              else if i <= n - k then n - i else n - 1 - i]
  {
    hide MovedUp;
    if 0 < k < |s| { MovedUpAt(Reversed(s), |s| - 1 - k, i); }
  }

  /** The positions of the items in the order in which n rounds leave them. */
  ghost function SearchOrder(items: seq<Item>, idx: Short, n: nat): (r: seq<nat>)
    requires |items| >= 2
    ensures |r| == |items|
  {
    if n == 0 then seq(|items|, i requires 0 <= i < |items| => i)
    else
      var st := SearchAfter(items, idx, n - 1);
      AfterFind(SearchOrder(items, idx, n - 1), Position(st.items, st.idx, (n - 1) % 0x100))
  }

  ghost function NodeAt(s: Nodes): nat -> ListHead
    requires |s| > 0
  {
    (k: nat) => if k < |s| then s[k] else s[0]
  }

  lemma OrderStarts(s: Nodes, items: seq<Item>, idx: Short)
    requires |s| == |items| >= 2
    ensures Mapped(NodeAt(s), SearchOrder(items, idx, 0)) == s
  {
  }

  lemma OrderNext(s: Nodes, items: seq<Item>, idx: Short, n: nat)
    requires |s| == |items| >= 2
    ensures var st := SearchAfter(items, idx, n);
      AfterFind(Mapped(NodeAt(s), SearchOrder(items, idx, n)), Position(st.items, st.idx, n % 0x100))
        == Mapped(NodeAt(s), SearchOrder(items, idx, n + 1))
  {
    hide AfterFind, Position, SearchAfter, Mapped;
    var st := SearchAfter(items, idx, n);
    MappedAfterFind(NodeAt(s), SearchOrder(items, idx, n), Position(st.items, st.idx, n % 0x100));
  }

  /** A single round that misses turns the list round. */
  lemma LoneMiss(s: Nodes, items: seq<Item>, idx: Short)
    requires |s| == |items| >= 2 && Position(items, idx, 0) == |items|
    ensures Mapped(NodeAt(s), SearchOrder(items, idx, 1)) == Reversed(s)
  {
    hide Position, Mapped, NodeAt, Reversed, SearchOrder;
    OrderStarts(s, items, idx);
    OrderNext(s, items, idx, 0);
  }

  lemma AfterFindMoves<T>(t: seq<T>, k: nat, i: nat)
    requires i < |t|
    ensures |AfterFind(t, k)| == |t| && AfterFind(t, k)[i] in t
  {
    hide MovedUp;
    var r, j := Reversed(t), |t| - 1 - k;
    assert forall a :: 0 <= a < |r| ==> r[a] in t;
    if k < |t| && j + 1 < |t| { MovedUpAt(r, j, i); }
  }

  lemma {:induction false} OrderInRange(items: seq<Item>, idx: Short, n: nat)
    requires |items| >= 2
    ensures forall i :: 0 <= i < |items| ==> SearchOrder(items, idx, n)[i] < |items|
  {
    hide AfterFind, Position, SearchAfter;
    if n > 0 {
      OrderInRange(items, idx, n - 1);
      var st, order := SearchAfter(items, idx, n - 1), SearchOrder(items, idx, n - 1);
      forall i | 0 <= i < |items|
        ensures SearchOrder(items, idx, n)[i] < |items|
      {
        AfterFindMoves(order, Position(st.items, st.idx, (n - 1) % 0x100), i);
      }
    }
  }

  /** Item i is before item j in a sort by index that keeps equal indices in the given order. */
  predicate ComesBefore(items: seq<Item>, order: seq<nat>, i: nat, j: nat)
    requires i < |items| && j < |items|
  {
    || items[i].idx < items[j].idx
    || (items[i].idx == items[j].idx
        && forall a, b :: 0 <= a < |order| && 0 <= b < |order| && order[a] == i && order[b] == j ==> a < b)
  }

  /** A sort by index of the items in that order leads back to the items as they stand. */
  predicate KeptBy(items: seq<Item>, order: seq<nat>) {
    forall i, j :: 0 <= i < j < |items| ==> ComesBefore(items, order, i, j)
  }

  predicate HeadKeptBy(items: seq<Item>, order: seq<nat>) {
    forall j :: 0 < j < |items| ==> ComesBefore(items, order, 0, j)
  }

  lemma KeptByOrder(s: Nodes, u: Nodes, items: seq<Item>, order: seq<nat>)
    requires NoDup(s) && |s| == |items| > 0 && u == Mapped(NodeAt(s), order)
    requires forall i :: 0 <= i < |s| ==> s[i].info.idx == items[i].idx
    requires forall a :: 0 <= a < |order| ==> order[a] < |s|
    ensures OrderKept(s, u) <==> KeptBy(items, order)
    ensures HeadKept(s, u) <==> HeadKeptBy(items, order)
  {
    hide StaysBefore, ComesBefore;
    forall i, j | 0 <= i < j < |s|
      ensures StaysBefore(u, s[i], s[j]) <==> ComesBefore(items, order, i, j)
    {
      SameComparison(s, u, items, order, i, j);
    }
  }

  lemma SameComparison(s: Nodes, u: Nodes, items: seq<Item>, order: seq<nat>, i: nat, j: nat)
    requires NoDup(s) && |s| == |items| && i < j < |s| && u == Mapped(NodeAt(s), order)
    requires s[i].info.idx == items[i].idx && s[j].info.idx == items[j].idx
    requires forall a :: 0 <= a < |order| ==> order[a] < |s|
    ensures StaysBefore(u, s[i], s[j]) <==> ComesBefore(items, order, i, j)
  {
    forall a | 0 <= a < |u|
      ensures (u[a] == s[i] <==> order[a] == i) && (u[a] == s[j] <==> order[a] == j)
    {
      assert u[a] == s[order[a]];
    }
  }

  function Rounds(findNum: Short): nat { if findNum < 0 then 0 else findNum }

  /** A round, with the position that the items give. */
  method SearchRound(list0: ListHead, idx: Short, low: int, retval0: Half, ghost s: Nodes)
    returns (list: ListHead, hit: bool, retval: Half, ghost t: Nodes)
    requires IsList(list0, s) && NoDup(s) && |s| >= 2
    modifies NodeSet(s)`next
    ensures IsList(list, t) && NoDup(t) && multiset(t) == multiset(s)
    ensures var k := Position(old(Items(s)), idx, low);
      hit == (k < |s|) && t == AfterFind(s, k) && retval == Sum16(retval0, Score(old(Items(s)), k))
  {
    hide Chained, NoDup, FoundAt, AfterFind, Items, Position, Score, Sum16;
    ghost var k;
    FoundIsPosition(s, idx, low, Position(Items(s), idx, low));
    list, hit, retval, t, k := FindAndReverse(list0, idx, low, retval0, s);
    FoundIsPosition(s, idx, low, k);
  }

  /** The body of the search loop. */
  method SearchStep(list0: ListHead, i: nat, idx0: Short, retval0: Half, found0: Half, missed0: Half,
                    ghost s: Nodes, ghost f: ListHead -> Item)
    returns (list: ListHead, idx: Short, retval: Half, found: Half, missed: Half, ghost t: Nodes)
    requires IsList(list0, s) && NoDup(s) && |s| >= 2 && Describes(f, NodeSet(s))
    modifies NodeSet(s)`next
    ensures IsList(list, t) && NoDup(t) && multiset(t) == multiset(s)
    ensures Search(Mapped(f, t), idx, retval, found, missed)
         == Round(Search(Mapped(f, s), idx0, retval0, found0, missed0), i)
    ensures t == AfterFind(s, Position(Mapped(f, s), idx0, i % 0x100))
  {
    hide Chained, NoDup, AfterUse, Items, Position, Score, Sum16, Describes, Reversed, Mapped, MovedUp;
    ItemsMapped(s, f);
    var hit;
    list, hit, retval, t := SearchRound(list0, idx0, i % 0x100, retval0, s);
    MappedAfterFind(f, s, Position(Mapped(f, s), idx0, i % 0x100));
    found, missed := if hit then Sum16(found0, 1) else found0, if hit then missed0 else Sum16(missed0, 1);
    idx := if idx0 >= 0 then Wrap16(idx0 + 1) else idx0;
  }

  lemma SearchStart(items: seq<Item>, idx: Short)
    requires |items| >= 2
    ensures SearchAfter(items, idx, 0) == Search(items, idx, 0, 0, 0)
  {
  }

  lemma SearchNext(items: seq<Item>, idx: Short, n: nat)
    requires |items| >= 2
    ensures SearchAfter(items, idx, n + 1) == Round(SearchAfter(items, idx, n), n)
  {
  }

  method SearchLoop(list0: ListHead, findNum: Short, finderIdx: Short, ghost s: Nodes, ghost f: ListHead -> Item)
    returns (list: ListHead, idx: Short, low: int, retval: Half, found: Half, missed: Half, ghost t: Nodes)
    requires IsList(list0, s) && NoDup(s) && |s| >= 2 && Describes(f, NodeSet(s))
    modifies NodeSet(s)`next
    ensures IsList(list, t) && NoDup(t) && multiset(t) == multiset(s)
    ensures SearchAfter(Mapped(f, s), finderIdx, Rounds(findNum)) == Search(Mapped(f, t), idx, retval, found, missed)
    ensures findNum > 0 ==> low == (findNum - 1) % 0x100
    ensures t == Mapped(NodeAt(s), SearchOrder(Mapped(f, s), finderIdx, Rounds(findNum)))
  {
    hide Chained, NoDup, Position, Describes, Reversed, Mapped, Round, SearchAfter, SearchOrder, AfterFind, NodeAt;
    list, idx, low, retval, found, missed, t := list0, finderIdx, 0, 0, 0, 0, s;
    ghost var start := Mapped(f, s);
    SearchStart(start, finderIdx);
    OrderStarts(s, start, finderIdx);
    var i := 0;
    while i < findNum
      invariant IsList(list, t) && NoDup(t) && multiset(t) == multiset(s) && Describes(f, NodeSet(s))
      invariant 0 <= i && (i == 0 || i <= findNum) && (i == 0 ==> t == s && idx == finderIdx)
      invariant i > 0 ==> low == (i - 1) % 0x100
      invariant SearchAfter(start, finderIdx, i) == Search(Mapped(f, t), idx, retval, found, missed)
      invariant t == Mapped(NodeAt(s), SearchOrder(start, finderIdx, i))
    {
      low := i % 0x100;
      SameNodes(s, t);
      SearchNext(start, finderIdx, i);
      OrderNext(s, start, finderIdx, i);
      list, idx, retval, found, missed, t := SearchStep(list, i, idx, retval, found, missed, t, f);
      i := i + 1;
    }
  }

  /** The search phase: `findNum' rounds, each leaving a permutation of the list. */
  method SearchPhase(list0: ListHead, findNum: Short, finderIdx: Short, ghost s: Nodes)
    returns (list: ListHead, retval: Half, idx: Short, low: int, ghost t: Nodes)
    requires IsList(list0, s) && NoDup(s) && |s| >= 2
    modifies NodeSet(s)`next
    ensures IsList(list, t) && NoDup(t) && multiset(t) == multiset(s)
    ensures Searched(old(Items(s)), finderIdx, findNum, Items(t), idx, low, retval)
    ensures findNum == 1 && old(FoundAt(s, finderIdx, 0, |s|)) ==> t == Reversed(s)
    ensures t == Mapped(NodeAt(s), SearchOrder(old(Items(s)), finderIdx, Rounds(findNum)))
  {
    hide Chained, NoDup, FoundAt, Items, Position, Sum16, Describes, Reversed, Mapped, SearchAfter, SearchOrder, NodeAt;
    ghost var f := Describe(s);
    ItemsMapped(s, f);
    FoundIsPosition(s, finderIdx, 0, |s|);
    var found, missed;
    list, idx, low, retval, found, missed, t := SearchLoop(list0, findNum, finderIdx, s, f);
    SameNodes(s, t);
    ItemsMapped(t, f);
    if findNum == 1 && old(FoundAt(s, finderIdx, 0, |s|)) { LoneMiss(s, old(Items(s)), finderIdx); }
    retval := Sum16(retval, (found as int) * 4 - missed as int);
  }

  /** The result of the search phase. */
  ghost predicate Searched(items: seq<Item>, finderIdx: Short, findNum: Short, after: seq<Item>, idx: Short, low: int,
                           retval: Half)
    requires |items| >= 2
  {
    var r := SearchAfter(items, finderIdx, Rounds(findNum));
    && after == r.items && idx == r.idx && retval == Sum16(r.retval, (r.found as int) * 4 - r.missed as int)
    && (findNum > 0 ==> low == (findNum - 1) % 0x100)
  }

  lemma SameNodes(s: Nodes, t: Nodes)
    requires multiset(s) == multiset(t)
    ensures NodeSet(s) == NodeSet(t) && |s| == |t|
    ensures forall x :: x in s <==> x in t
  {
    assert |multiset(s)| == |s| && |multiset(t)| == |t|;
    forall x
      ensures x in s <==> x in t
    {
      assert x in multiset(s) <==> x in multiset(t);
    }
  }

  /** The bits of n copies of a data word. */
  function Repeated(d: Half, n: nat): Crc.Bits {
    if n == 0 then [] else Repeated(d, n - 1) + WordBits(d)
  }

  /** The CRC after hashing n copies of a data word. */
  ghost predicate Hashed(before: bv16, d: Half, n: nat, after: bv16) {
    Crc.BitsOf(after, 16) == Crc.Feed(Repeated(d, n), Crc.BitsOf(before, 16))
  }

  lemma HashNone(crc: bv16, d: Half)
    ensures Hashed(crc, d, 0, crc)
  {
    hide Crc.BitsOf;
  }

  lemma HashOneMore(crc: bv16, d: Half, n: nat, now: bv16, next: bv16)
    requires Hashed(crc, d, n, now) && Crc.BitsOf(next, 16) == Crc.Feed(WordBits(d), Crc.BitsOf(now, 16))
    ensures Hashed(crc, d, n + 1, next)
  {
    hide Crc.BitsOf, Crc.Feed, WordBits;
    Crc.FeedConcat(Repeated(d, n), WordBits(d), Crc.BitsOf(crc, 16));
  }

  /** Folds the head's data word into the CRC once per node of the list at `finder'.  (The
      source walks the list with `finder' but hashes `list->info' each time.) */
  method FoldHead(list: ListHead, finder0: ListHead?, crc: bv16, ghost u: Nodes) returns (retval: bv16)
    requires IsList(finder0, u)
    ensures Hashed(crc, list.info.data16, |u|, retval)
  {
    hide Hashed, Crc.Feed, Crc.BitsOf;
    retval := crc;
    HashNone(crc, list.info.data16);
    var finder := finder0;
    ghost var i := 0;
    while finder != null
      invariant i <= |u| && finder == First(u[i..]) && Hashed(crc, list.info.data16, i, retval)
      decreases |u| - i
    {
      ghost var now := retval;
      retval := FoldCrc(list.info.data16, retval);
      HashOneMore(crc, list.info.data16, i, now, retval);
      assert i < |u| - 1 ==> u[i].next == u[i + 1];
      finder := finder.next;
      i := i + 1;
    }
  }

  lemma ListFrom(u: Nodes, k: nat)
    requires k <= |u| && (u != [] ==> IsList(u[0], u))
    ensures IsList(First(u[k..]), u[k..])
  {
    var v := u[k..];
    forall i | 0 <= i < |v| - 1
      ensures v[i].next == v[i + 1]
    {
      assert u[k + i].next == u[k + i + 1];
    }
  }

  lemma NoDupWithout(t: Nodes, k: nat)
    requires NoDup(t) && k < |t|
    ensures var u := t[..k] + t[k + 1..];
      NoDup(u) && t[k] !in u && u[..k] + [t[k]] + u[k..] == t
  {
    var u := t[..k] + t[k + 1..];
    assert forall i :: 0 <= i < |u| ==> u[i] == t[if i < k then i else i + 1];
  }

  /** How many nodes are walked when the search for an item ends at position k: from that item on,
      or from the second one. */
  function Walked(n: nat, k: nat): nat
    requires n >= 2 && k <= n
  {
    if k < n then n - k else n - 1
  }

  lemma WalkedNodes<T>(u: seq<T>, k: nat)
    requires |u| >= 2 && k <= |u|
    ensures Walked(|u|, k) == |if k < |u| then u[k..] else u[1..]|
  {
  }

  /** Hashes from the searched-for item on, or from the second one. */
  method HashFrom(list: ListHead, idx: Short, low: int, crc: bv16, ghost u: Nodes) returns (retval: bv16)
    requires IsList(list, u) && |u| >= 2
    ensures Hashed(crc, list.info.data16, Walked(|u|, Position(Items(u), idx, low)), retval)
  {
    hide Hashed, FoundAt, Items, Position;
    ghost var k;
    var finder;
    finder, k := Find(list, idx, low, u);
    FoundIsPosition(u, idx, low, k);
    FoundInRange(u, idx, low, k);
    if finder == null {
      NextInList(list, u);
      finder := list.next;
      k := 1;
    }
    ListFrom(u, k);
    retval := FoldHead(list, finder, crc, u[k..]);
  }

  /** The items without the second one. */
  function WithoutSecond(items: seq<Item>): seq<Item>
    requires |items| >= 2
  {
    [items[0]] + items[2..]
  }

  /** After removing the second item, every node but the removed one holds the items in order. */
  lemma ItemsAfterRemove(t: Nodes, before: seq<Item>)
    requires NoDup(t) && |t| >= 3 && |before| == |t|
    requires forall i :: 0 <= i < |t| && i != 1 && i != 2 ==> Item(t[i].info.data16, t[i].info.idx) == before[i]
    requires Item(t[1].info.data16, t[1].info.idx) == before[2]
    ensures Items(t[..2] + t[3..]) == WithoutSecond(before)
  {
    var u, w := t[..2] + t[3..], WithoutSecond(before);
    forall i | 0 <= i < |u|
      ensures Items(u)[i] == w[i]
    {
      assert u[i] == if i < 2 then t[i] else t[i + 1];
    }
  }

  /** Removes the second item; its node now holds the third one's data. */
  method RemoveSecond(list: ListHead, ghost t: Nodes) returns (remover: ListHead, ghost u: Nodes)
    requires IsList(list, t) && NoDup(t) && |t| >= 3
    modifies NodeSet(t)`next, NodeSet(t)`info
    ensures u == t[..2] + t[3..] && remover == t[2] && IsList(list, u) && NoDup(u) && remover !in u
    ensures Items(u) == WithoutSecond(old(Items(t)))
    ensures t[1].info == old(t[2].info) && t[2].info == old(t[1].info)
    ensures forall x :: x in t && x != t[1] && x != t[2] ==> x.info == old(x.info)
  {
    hide Chained, Items, WithoutSecond;
    ghost var before := Items(t);
    NextInList(list, t);
    remover := Remove(list.next, list, t, 1);
    u := t[..2] + t[3..];
    hide NoDup;
    NoDupWithout(t, 2);
    ItemsAfterRemove(t, before);
  }

  /** Links the third node back in and swaps the data back. */
  method UndoSecond(list: ListHead, remover: ListHead, ghost t: Nodes, ghost u: Nodes)
    requires NoDup(t) && |t| >= 3 && u == t[..2] + t[3..] && remover == t[2] && IsList(list, u)
    requires NoDup(u) && remover !in u
    modifies NodeSet(t)`next, NodeSet(t)`info
    ensures IsList(list, t)
    ensures t[1].info == old(t[2].info) && t[2].info == old(t[1].info)
    ensures forall x :: x in t && x != t[1] && x != t[2] ==> x.info == old(x.info)
  {
    hide Chained, NoDup;
    NextInList(list, u);
    var _ := UndoRemove(remover, list.next, list, u, 1);
    assert u[..2] + [remover] + u[2..] == t;
  }

  /** Removes the second item, hashes, and undoes the removal. */
  method RemoveAndUndo(list: ListHead, idx: Short, low: int, crc: bv16, ghost t: Nodes) returns (retval: bv16)
    requires IsList(list, t) && NoDup(t) && |t| >= 3
    modifies NodeSet(t)`next, NodeSet(t)`info
    ensures IsList(list, t)
    ensures forall x :: x in t ==> x.info == old(x.info)
    ensures Hashed(crc, list.info.data16, Walked(|t| - 1, Position(WithoutSecond(old(Items(t))), idx, low)), retval)
  {
    hide Chained, NoDup, Hashed, Position, Items, WithoutSecond;
    ghost var word, items := list.info.data16, WithoutSecond(Items(t));
    var remover;
    ghost var u;
    Distinct(t);
    remover, u := RemoveSecond(list, t);
    assert list == t[0] && list.info.data16 == word;
    retval := HashFrom(list, idx, low, crc, u);
    assert Hashed(crc, word, Walked(|t| - 1, Position(items, idx, low)), retval);
    UndoSecond(list, remover, t, u);
  }

  lemma Distinct(t: Nodes)
    requires NoDup(t) && |t| >= 3
    ensures t[0] != t[1] && t[0] != t[2] && t[1] != t[2]
  {
  }

  /** Every key is cached, and the keys do not decrease. */
  ghost predicate KeysSorted(items: seq<Item>) {
    && (forall i :: 0 <= i < |items| ==> IsCached(items[i].data))
    && (forall i, j :: 0 <= i < j < |items| ==> CachedKey(items[i].data) <= CachedKey(items[j].data))
  }

  lemma SortedByKey(t: Nodes, u: Nodes)
    requires StablySorted(CmpComplex, t, u) && AllSettled(CmpComplex, false, u)
    ensures KeysSorted(Items(u))
  {
    var items := Items(u);
    forall i, j | 0 <= i < j < |items|
      ensures CachedKey(items[i].data) <= CachedKey(items[j].data)
    {
      assert Rank(CmpComplex, u[i]) <= Rank(CmpComplex, u[j]);
    }
    forall i | 0 <= i < |items| ensures IsCached(items[i].data) { assert u[i] in u; }
  }

  /** Sorts by the memoised keys. */
  method KeySort(list0: ListHead, res: CoreResults, ghost t: Nodes, ghost datas: set<ListData>)
    returns (list: ListHead, ghost u: Nodes, ghost runs: seq<Run>)
    requires IsList(list0, t) && NoDup(t) && |t| >= 2 && datas == InfoSet(t) && InfosIn(NodeSet(t), datas)
    modifies NodeSet(t)`next, datas`data16, res
    ensures IsList(list, u) && NoDup(u) && multiset(u) == multiset(t) && KeysSorted(Items(u))
    ensures forall n :: n in t ==> MaySettle(CmpComplex, false, old(n.info.data16), n.info.data16)
    ensures Recorded(res.answers, old(RecordOf(res)), runs, RecordOf(res))
    ensures Computed(old(WordsOf(datas)), Infos(u), Items(u), 1, runs)
  {
    hide IsList, NoDup, MaySettle, StablySorted, AllSettled, InfosIn, KeysSorted, Items, Recorded, Ledger, WordsOf,
      Computed, Infos, RecordOf;
    ghost var from := OriginOf(datas, res);
    list, u, runs := MergeSort(list0, CmpComplex, res, t, datas);
    SortedByKey(t, u);
    SortComputed(res, datas, from, t, u, runs);
  }

  lemma SortComputed(res: CoreResults, datas: set<ListData>, from: Origin, t: Nodes, u: Nodes, runs: seq<Run>)
    requires multiset(u) == multiset(t) && datas == InfoSet(t) && InfosIn(NodeSet(t), datas)
    requires AllSettled(CmpComplex, false, u) && Ledger(CmpComplex, res, datas, from, runs)
    ensures Recorded(res.answers, from.start, runs, RecordOf(res))
    ensures Computed(from.was, Infos(u), Items(u), 1, runs)
  {
    hide AllSettled, InfosIn, Items, Recorded, OncePerCell, KeysStored, IsCached, Computed, Infos;
    SameNodes(t, u);
    CellsSettled(u);
    OwnCells(t, u, datas);
    AllComputed(from.was, u, 1, runs);
  }

  /** Sorts by data content, if a finder index was given. */
  method DataSort(list0: ListHead, finderIdx: Short, res: CoreResults, ghost s: Nodes, ghost t: Nodes,
                  ghost datas: set<ListData>)
    returns (list: ListHead, ghost u: Nodes, ghost runs: seq<Run>)
    requires IsList(list0, t) && NoDup(t) && multiset(t) == multiset(s) && |t| >= 2 && InfosIn(NodeSet(s), datas)
    modifies NodeSet(s)`next, datas`data16, res
    ensures IsList(list, u) && NoDup(u) && multiset(u) == multiset(s)
    ensures if finderIdx > 0 then KeysSorted(Items(u)) else u == t && Items(u) == old(Items(t)) && runs == []
    ensures forall n :: n in s ==> MaySettle(CmpComplex, false, old(n.info.data16), n.info.data16)
    ensures Recorded(res.answers, old(RecordOf(res)), runs, RecordOf(res))
    ensures Computed(old(WordsOf(InfoSet(s))), Infos(u), Items(u), finderIdx, runs)
  {
    hide Chained, NoDup, MaySettle, InfosIn, KeysSorted, Items, Recorded, Computed, Infos;
    SameNodes(s, t);
    OwnCells(s, t, datas);
    list, u, runs := list0, t, [];
    if finderIdx > 0 {
      list, u, runs := KeySort(list, res, t, InfoSet(s));
      SameNodes(s, u);
      PositiveIndex(old(WordsOf(InfoSet(s))), Infos(u), Items(u), finderIdx, runs);
    } else {
      SettleNothing(s);
      NoneComputed(res, t, finderIdx);
    }
  }

  lemma PositiveIndex(was: map<ListData, Half>, cells: seq<ListData>, sorted: seq<Item>, finderIdx: Short,
                      runs: seq<Run>)
    requires Computed(was, cells, sorted, 1, runs) && finderIdx > 0
    ensures Computed(was, cells, sorted, finderIdx, runs)
  {
  }

  lemma NoneComputed(res: CoreResults, t: Nodes, finderIdx: Short)
    requires finderIdx <= 0
    ensures Recorded(res.answers, RecordOf(res), [], RecordOf(res))
    ensures Computed(WordsOf(InfoSet(t)), Infos(t), Items(t), finderIdx, [])
  {
    AllComputed(WordsOf(InfoSet(t)), t, finderIdx, []);
  }

  ghost function Infos(s: Nodes): (r: seq<ListData>)
    reads s`info
    ensures |r| == |s| && forall i :: 0 <= i < |s| ==> r[i] == s[i].info
  {
    if s == [] then [] else [s[0].info] + Infos(s[1..])
  }

  ghost function InfoSet(s: Nodes): set<ListData>
    reads s`info
  {
    set d | d in Infos(s)
  }

  lemma OwnCells(s: Nodes, t: Nodes, datas: set<ListData>)
    requires NodeSet(s) == NodeSet(t) && InfosIn(NodeSet(s), datas)
    ensures InfoSet(s) == InfoSet(t) && InfoSet(s) <= datas && InfosIn(NodeSet(t), InfoSet(s))
  {
    forall d | d in InfoSet(s)
      ensures d in InfoSet(t) && d in datas
    {
      var i :| 0 <= i < |s| && Infos(s)[i] == d;
      assert s[i] in NodeSet(t);
      var j :| 0 <= j < |t| && t[j] == s[i];
      assert Infos(t)[j] == d;
    }
    forall n | n in NodeSet(t)
      ensures n.info in InfoSet(t) && n.info in InfoSet(s)
    {
      var j :| 0 <= j < |t| && t[j] == n;
      assert Infos(t)[j] == n.info;
      assert n in NodeSet(s);
      var i :| 0 <= i < |s| && s[i] == n;
      assert Infos(s)[i] == n.info;
    }
  }

  /** The word of a cell after the computations: with its key if it was computed, else as it was. */
  ghost function KeyedWord(was: map<ListData, Half>, runs: seq<Run>, d: ListData): Half
    requires d in was
  {
    if IsComputed(runs, d) then
      var k :| 0 <= k < |runs| && runs[k].cell == d;
      WithKey(runs[k].word, runs[k].retval % 0x80)
    else was[d]
  }

  /** What a sort by data computes: each cell of the list whose word is not cached, once, and nothing else;
      the items sorted hold the keys. */
  ghost predicate Computed(was: map<ListData, Half>, cells: seq<ListData>, sorted: seq<Item>, finderIdx: Short,
                           runs: seq<Run>)
  {
    && OncePerCell(was, runs) && |sorted| == |cells|
    && (forall i :: 0 <= i < |cells| ==> cells[i] in was && sorted[i].data == KeyedWord(was, runs, cells[i]))
    && if finderIdx <= 0 then runs == []
       else forall d :: d in was ==> (IsComputed(runs, d) <==> was[d] / 0x80 % 2 == 0)
  }

  lemma CellsSettled(u: Nodes)
    requires AllSettled(CmpComplex, false, u)
    ensures forall d :: d in InfoSet(u) ==> IsCached(d.data16)
  {
    forall d | d in InfoSet(u)
      ensures IsCached(d.data16)
    {
      var i :| 0 <= i < |u| && Infos(u)[i] == d;
      assert u[i] in u;
    }
  }

  lemma AllComputed(was: map<ListData, Half>, u: Nodes, finderIdx: Short, runs: seq<Run>)
    requires was.Keys == InfoSet(u) && OncePerCell(was, runs) && KeysStored(was, runs)
    requires if finderIdx > 0 then forall d :: d in InfoSet(u) ==> IsCached(d.data16) else runs == []
    ensures Computed(was, Infos(u), Items(u), finderIdx, runs)
  {
    forall i | 0 <= i < |u|
      ensures Infos(u)[i] in was && Items(u)[i].data == KeyedWord(was, runs, Infos(u)[i])
    {
      assert Infos(u)[i] in InfoSet(u);
    }
    if finderIdx > 0 {
      forall d | d in was
        ensures IsComputed(runs, d) <==> was[d] / 0x80 % 2 == 0
      {
      }
    }
  }

  lemma SettleNothing(s: Nodes)
    ensures forall n :: n in s ==> MaySettle(CmpComplex, false, n.info.data16, n.info.data16)
  {
  }

  /** Sorts by index with a null record, which also rebuilds every data word. */
  method IndexSort(list0: ListHead, ghost s: Nodes, ghost t: Nodes, ghost datas: set<ListData>)
    returns (list: ListHead, ghost out: Nodes)
    requires IsList(list0, t) && NoDup(t) && multiset(t) == multiset(s) && |t| >= 2 && InfosIn(NodeSet(s), datas)
    modifies NodeSet(s)`next, datas`data16
    ensures IsList(list, out) && NoDup(out) && multiset(out) == multiset(s)
    ensures IndexSorted(out) && StablySorted(CmpIdx, t, out)
    ensures forall n :: n in s ==> n.info.data16 == Rebuilt(old(n.info.data16))
  {
    hide Chained, NoDup, InfosIn, Ledger;
    SameNodes(s, t);
    ghost var runs;
    list, out, runs := MergeSort(list0, CmpIdx, null, t, datas);
    SameNodes(s, out);
    assert forall i, j :: 0 <= i < j < |out| ==> Rank(CmpIdx, out[i]) <= Rank(CmpIdx, out[j]);
    forall n | n in s
      ensures n.info.data16 == Rebuilt(old(n.info.data16))
    {
      SettledRebuilt(old(n.info.data16), n.info.data16);
    }
  }

  lemma SettlingKeepsBackup(before: Half, after: Half)
    requires MaySettle(CmpComplex, false, before, after)
    ensures Rebuilt(after) == Rebuilt(before)
  {
  }

  lemma ListTail(list: ListHead, s: Nodes)
    requires IsList(list, s)
    ensures IsList(list.next, s[1..])
  {
    if |s| > 1 {
      assert s[0].next == s[1];
    }
    forall i | 0 <= i < |s[1..]| - 1
      ensures s[1..][i].next == s[1..][i + 1]
    {
      assert s[i + 1].next == s[i + 2];
    }
  }

  ghost function Indices(s: Nodes): (r: seq<int>)
    reads s`info, (set x | x in s :: x.info)`idx
    ensures |r| == |s| && forall i :: 0 <= i < |s| ==> r[i] == s[i].info.idx
  {
    if s == [] then [] else [s[0].info.idx] + Indices(s[1..])
  }

  ghost predicate Increasing(ids: seq<int>) {
    forall i, j :: 0 <= i < j < |ids| ==> ids[i] < ids[j]
  }

  ghost predicate LeastFirst(ids: seq<int>) {
    forall j :: 0 < j < |ids| ==> ids[0] < ids[j]
  }

  lemma IncreasingIndices(s: Nodes, ids: seq<int>)
    requires |ids| == |s| && forall i :: 0 <= i < |s| ==> s[i].info.idx == ids[i]
    ensures IndexIncreasing(s) <==> Increasing(ids)
    ensures HeadLeast(s) <==> LeastFirst(ids)
  {
  }

  /** What the benchmark went through: the items after the search, the words computed for the sort by data,
      the items hashed from, the search criterion that was left, the score of the search and the first CRC. */
  datatype Trace = Trace(found: seq<Item>, runs: seq<Run>, sorted: seq<Item>, idx: Short, low: int, score: Half,
                         crc: bv16)

  /** Search and data sort: the keys are sorted if a finder index was given, else nothing happens. */
  ghost predicate FirstHalf(items: seq<Item>, findNum: Short, finderIdx: Short, trace: Trace)
    requires |items| >= 2
  {
    && |trace.sorted| == |items| && Searched(items, finderIdx, findNum, trace.found, trace.idx, trace.low, trace.score)
    && if finderIdx > 0 then KeysSorted(trace.sorted) else trace.sorted == trace.found
  }

  /** The two CRCs: of the head's word while an item is removed, and of the new head's word in the end. */
  ghost predicate SecondHalf(n: nat, trace: Trace, last: Half, hash: bv16)
    requires |trace.sorted| == n >= 3
  {
    && Hashed(trace.score as bv16, trace.sorted[0].data,
              Walked(n - 1, Position(WithoutSecond(trace.sorted), trace.idx, trace.low)), trace.crc)
    && Hashed(trace.crc, last, n - 1, hash)
  }

  /** The first half: search, then sort by data. */
  method SearchAndSort(list0: ListHead, findNum: Short, finderIdx: Short, res: CoreResults,
                       ghost s: Nodes, ghost datas: set<ListData>)
    returns (list: ListHead, retval: Half, idx: Short, low: int, ghost u: Nodes, ghost found: seq<Item>,
             ghost runs: seq<Run>)
    requires IsList(list0, s) && NoDup(s) && |s| >= 3 && InfosIn(NodeSet(s), datas)
    modifies NodeSet(s)`next, datas`data16, res
    ensures IsList(list, u) && NoDup(u) && multiset(u) == multiset(s) && |u| == |s|
    ensures FirstHalf(old(Items(s)), findNum, finderIdx, Trace(found, runs, Items(u), idx, low, retval, 0))
    ensures Recorded(res.answers, old(RecordOf(res)), runs, RecordOf(res))
    ensures Computed(old(WordsOf(InfoSet(s))), Infos(u), Items(u), finderIdx, runs)
    ensures forall n :: n in s ==> Rebuilt(n.info.data16) == Rebuilt(old(n.info.data16))
    ensures findNum == 1 && finderIdx <= 0 && old(FoundAt(s, finderIdx, 0, |s|)) ==> u == Reversed(s)
    ensures finderIdx <= 0 ==> u == Mapped(NodeAt(s), SearchOrder(old(Items(s)), finderIdx, Rounds(findNum)))
  {
    hide IsList, NoDup, InfosIn, MaySettle, FoundAt, Items, Searched, KeysSorted, SearchOrder, NodeAt, Mapped, Recorded,
      Computed, FirstHalf, WordsOf, InfoSet, Infos, RecordOf, Reversed, Rebuilt;
    ghost var t;
    ghost var cells := InfoSet(s);
    ghost var was := WordsOf(cells);
    list, retval, idx, low, t := SearchPhase(list0, findNum, finderIdx, s);
    SameWords(cells, was);
    SameNodes(s, t);
    found := Items(t);
    list, u, runs := DataSort(list, finderIdx, res, s, t, datas);
    SameNodes(s, u);
    forall n | n in s
      ensures Rebuilt(n.info.data16) == Rebuilt(old(n.info.data16))
    {
      SettlingKeepsBackup(old(n.info.data16), n.info.data16);
    }
    FirstHalfIs(old(Items(s)), findNum, finderIdx, Trace(found, runs, Items(u), idx, low, retval, 0));
  }

  lemma SameWords(cells: set<ListData>, was: map<ListData, Half>)
    requires was.Keys == cells && forall d :: d in cells ==> was[d] == d.data16
    ensures WordsOf(cells) == was
  {
  }

  lemma FirstHalfIs(items: seq<Item>, findNum: Short, finderIdx: Short, trace: Trace)
    requires |items| >= 2 && |trace.sorted| == |items|
    requires Searched(items, finderIdx, findNum, trace.found, trace.idx, trace.low, trace.score)
    requires if finderIdx > 0 then KeysSorted(trace.sorted) else trace.sorted == trace.found
    ensures FirstHalf(items, findNum, finderIdx, trace)
  {
  }

  /** Sorts back by index and hashes the new head's word once per remaining node. */
  method SortAndHash(list0: ListHead, crc: bv16, ghost s: Nodes, ghost u: Nodes, ghost datas: set<ListData>)
    returns (list: ListHead, hash: bv16, ghost out: Nodes)
    requires IsList(list0, u) && NoDup(u) && |u| >= 2 && multiset(u) == multiset(s) && InfosIn(NodeSet(s), datas)
    modifies NodeSet(s)`next, datas`data16
    ensures IsList(list, out) && NoDup(out) && multiset(out) == multiset(s)
    ensures IndexSorted(out) && StablySorted(CmpIdx, u, out)
    ensures forall n :: n in s ==> n.info.data16 == Rebuilt(old(n.info.data16))
    ensures Hashed(crc, list.info.data16, |u| - 1, hash)
  {
    hide Chained, NoDup, Rebuilt, IndexSorted, StablySorted, Hashed;
    list, out := IndexSort(list0, s, u, datas);
    SameNodes(u, out);
    ListTail(list, out);
    hash := FoldHead(list, list.next, crc, out[1..]);
  }

  /** The second half: remove, undo, and sort back by index. */
  method RemoveAndRestore(list0: ListHead, idx: Short, low: int, score: Half, ghost s: Nodes, ghost u: Nodes,
                          ghost datas: set<ListData>)
    returns (list: ListHead, hash: bv16, ghost out: Nodes, ghost crc: bv16)
    requires IsList(list0, u) && NoDup(u) && |u| >= 3 && multiset(u) == multiset(s) && InfosIn(NodeSet(s), datas)
    modifies NodeSet(s)`next, NodeSet(s)`info, datas`data16
    ensures IsList(list, out) && NoDup(out) && multiset(out) == multiset(s)
    ensures IndexSorted(out) && StablySorted(CmpIdx, u, out)
    ensures forall n :: n in s ==> n.info == old(n.info) && n.info.data16 == Rebuilt(old(n.info.data16))
    ensures SecondHalf(|u|, Trace([], [], old(Items(u)), idx, low, score, crc), list.info.data16, hash)
  {
    hide Chained, NoDup, Rebuilt, IndexSorted, StablySorted, Hashed, Position, WithoutSecond, Items, InfosIn;
    SameNodes(s, u);
    FirstItem(u);
    hash := RemoveAndUndo(list0, idx, low, score as bv16, u);
    crc := hash;
    list, hash, out := SortAndHash(list0, hash, s, u, datas);
  }

  lemma FirstItem(u: Nodes)
    requires u != []
    ensures Items(u)[0].data == u[0].info.data16
  {
  }

  /** The two halves look at different parts of the trace. */
  lemma OneTrace(items: seq<Item>, findNum: Short, finderIdx: Short, trace: Trace, n: nat, last: Half, hash: bv16)
    requires |items| == |trace.sorted| == n >= 3
    requires FirstHalf(items, findNum, finderIdx, trace.(crc := 0))
    requires SecondHalf(n, trace.(found := [], runs := []), last, hash)
    ensures FirstHalf(items, findNum, finderIdx, trace) && SecondHalf(n, trace, last, hash)
  {
    hide Searched, KeysSorted, Hashed, Position, WithoutSecond;
  }

  lemma TraceScore(items: seq<Item>, findNum: Short, finderIdx: Short, trace: Trace)
    requires |items| >= 2 && FirstHalf(items, findNum, finderIdx, trace)
    ensures var n := Rounds(findNum); var hits := HitCount(items, finderIdx, n);
      trace.score == (BitCount(items, finderIdx, n) + 4 * hits - (n - hits)) % 0x1_0000
  {
    hide Searched, HitCount, BitCount;
    SearchScore(items, finderIdx, findNum, trace.found, trace.idx, trace.low, trace.score);
  }

  lemma SameCells(u: Nodes, cells: seq<ListData>)
    requires |cells| == |u| && forall i :: 0 <= i < |u| ==> u[i].info == cells[i]
    ensures Infos(u) == cells
  {
  }

  /** The steps of the benchmark and what they leave, before any question of order. */
  method BenchSteps(list0: ListHead, findNum: Short, finderIdx: Short, res: CoreResults,
                    ghost s: Nodes, ghost datas: set<ListData>)
    returns (list: ListHead, hash: bv16, ghost out: Nodes, ghost u: Nodes, ghost trace: Trace)
    requires IsList(list0, s) && NoDup(s) && |s| >= 3 && InfosIn(NodeSet(s), datas)
    modifies NodeSet(s)`next, NodeSet(s)`info, datas`data16, res
    ensures IsList(list, out) && NoDup(out) && multiset(out) == multiset(s) == multiset(u)
    ensures forall n :: n in s ==> n.info == old(n.info) && n.info.data16 == Rebuilt(old(n.info.data16))
    ensures IndexSorted(out) && StablySorted(CmpIdx, u, out)
    ensures findNum == 1 && finderIdx <= 0 && old(FoundAt(s, finderIdx, 0, |s|)) ==> u == Reversed(s)
    ensures finderIdx <= 0 ==> u == Mapped(NodeAt(s), SearchOrder(old(Items(s)), finderIdx, Rounds(findNum)))
    ensures FirstHalf(old(Items(s)), findNum, finderIdx, trace)
    ensures SecondHalf(|s|, trace, list.info.data16, hash)
    ensures Recorded(res.answers, old(RecordOf(res)), trace.runs, RecordOf(res))
    ensures Computed(old(WordsOf(InfoSet(s))), Infos(u), trace.sorted, finderIdx, trace.runs)
  {
    hide IsList, NoDup, InfosIn, Rebuilt, IndexSorted, StablySorted, FoundAt, Items, FirstHalf, SecondHalf,
      SearchOrder, Mapped, NodeAt, Recorded, Computed, WordsOf, InfoSet, Reversed, RecordOf;
    var idx, low, score;
    ghost var found, crc, runs;
    list, score, idx, low, u, found, runs := SearchAndSort(list0, findNum, finderIdx, res, s, datas);
    SameNodes(s, u);
    ghost var sorted, cells := Items(u), Infos(u);
    list, hash, out, crc := RemoveAndRestore(list, idx, low, score, s, u, datas);
    trace := Trace(found, runs, sorted, idx, low, score, crc);
    SameCells(u, cells);
    OneTrace(old(Items(s)), findNum, finderIdx, trace, |s|, list.info.data16, hash);
  }

  /** The benchmark.  Whatever was found, moved and computed on the way, the list ends with the
      same nodes and node-to-data links, sorted by index, every data word rebuilt from its high
      byte.  `u' is the order that the final, stable sort by index starts from: the list is back in
      its original state if and only if it was sorted and equal indices have kept their order in u,
      and its head is back if and only if that holds for the head.  Without a sort by data u is fixed by
      the items, so that the condition can be told before the call.  A single round that misses reverses
      the list, and then only a strict order comes back. */
  method BenchList(list0: ListHead, findNum: Short, finderIdx: Short, res: CoreResults,
                   ghost s: Nodes, ghost datas: set<ListData>)
    returns (list: ListHead, hash: bv16, ghost out: Nodes, ghost u: Nodes, ghost trace: Trace)
    requires IsList(list0, s) && NoDup(s) && |s| >= 3 && InfosIn(NodeSet(s), datas)
    modifies NodeSet(s)`next, NodeSet(s)`info, datas`data16, res
    ensures IsList(list, out) && NoDup(out) && multiset(out) == multiset(s) == multiset(u)
    ensures forall n :: n in s ==> n.info == old(n.info) && n.info.data16 == Rebuilt(old(n.info.data16))
    ensures forall n :: n in s ==> n.info.idx == old(n.info.idx)
    ensures IndexSorted(out) && StablySorted(CmpIdx, u, out)
    ensures (out == s <==> OrderKept(s, u)) && (list == list0 <==> HeadKept(s, u))
    ensures old(IndexIncreasing(s)) ==> out == s && list == list0
    ensures old(HeadLeast(s)) ==> list == list0
    ensures findNum == 1 && finderIdx <= 0 && old(FoundAt(s, finderIdx, 0, |s|)) ==>
      && u == Reversed(s)
      && (out == s <==> old(IndexIncreasing(s)))
      && (list == list0 <==> old(HeadLeast(s)))
    ensures finderIdx <= 0 ==> var order := SearchOrder(old(Items(s)), finderIdx, Rounds(findNum));
      && u == Mapped(NodeAt(s), order)
      && (out == s <==> KeptBy(old(Items(s)), order))
      && (list == list0 <==> HeadKeptBy(old(Items(s)), order))
    ensures FirstHalf(old(Items(s)), findNum, finderIdx, trace)
    ensures var n := Rounds(findNum); var hits := HitCount(old(Items(s)), finderIdx, n);
      trace.score == (BitCount(old(Items(s)), finderIdx, n) + 4 * hits - (n - hits)) % 0x1_0000
    ensures SecondHalf(|s|, trace, list.info.data16, hash)
    ensures Recorded(res.answers, old(RecordOf(res)), trace.runs, RecordOf(res))
    ensures Computed(old(WordsOf(InfoSet(s))), Infos(u), trace.sorted, finderIdx, trace.runs)
  {
    hide NoDup, Chained, InfosIn, MaySettle, Rebuilt, IndexSorted, IndexIncreasing, Increasing, HeadLeast, LeastFirst,
      Indices, StablySorted, FoundAt, OrderKept, HeadKept, Items, FirstHalf, SecondHalf, SearchOrder, Mapped, NodeAt,
      KeptBy, HeadKeptBy, Recorded, Computed, HitCount, BitCount, WordsOf, InfoSet, Infos, Reversed, RecordOf;
    ghost var items := Items(s);
    ghost var ids := Indices(s);
    IncreasingIndices(s, ids);
    list, hash, out, u, trace := BenchSteps(list0, findNum, finderIdx, res, s, datas);
    TraceScore(items, findNum, finderIdx, trace);
    forall i | 0 <= i < |s|
      ensures s[i].info.idx == ids[i]
    {
      assert s[i] in s;
    }
    IncreasingIndices(s, ids);
    SortRestores(s, u, out);
    ReversedKept(s);
    if finderIdx <= 0 {
      OrderInRange(items, finderIdx, Rounds(findNum));
      KeptByOrder(s, u, items, SearchOrder(items, finderIdx, Rounds(findNum)));
    }
  }
}
