/// Cells and comparators of CoreMark's linked list (core_list_join.c).
///
/// A list is a chain of `ListHead` objects, each pointing at a `ListData`.  The
/// 16 data bits are kept as a bit pattern: the high byte backs up the original
/// value, bit 7 tells whether the low seven bits are a memoised key.

module ListCells {
  import opened Arithmetic
  import Crc

  class ListData {
    var data16: Half
    var idx: Short

    constructor (data16: Half, idx: Short)
      ensures this.data16 == data16 && this.idx == idx
    {
      this.data16 := data16;
      this.idx := idx;
    }
  }

  class ListHead {
    var next: ListHead?
    var info: ListData

    constructor (next: ListHead?, info: ListData)
      ensures this.next == next && this.info == info
    {
      this.next := next;
      this.info := info;
    }
  }

  /** What a benchmark is run with: the corruption period or the matrix parameter, and the CRC so far. */
  datatype Request = State(step: int, crc: bv16) | Matrix(dtype: int, crc: bv16)

  /** The part of the benchmark record that the comparators update.  `answers' is what the state-machine
      and matrix benchmarks return, run by run: any values at all. */
  class CoreResults {
    var crc: bv16
    var crcstate: Half
    var crcmatrix: Half
    var runs: nat
    const answers: Answers

    constructor (answers: Answers)
      ensures this.answers == answers && RecordOf(this) == Record(0, 0, 0, 0)
    {
      this.answers := answers;
      crc, crcstate, crcmatrix, runs := 0, 0, 0, 0;
    }
  }

  type Answers = (nat, Request) -> Half

  /** The fields of the record, and the number of benchmark runs. */
  datatype Record = Record(crc: bv16, crcstate: Half, crcmatrix: Half, runs: nat)

  ghost function RecordOf(res: CoreResults?): Record
    reads if res == null then {} else {res}
  {
    if res == null then Record(0, 0, 0, 0) else Record(res.crc, res.crcstate, res.crcmatrix, res.runs)
  }

  // --------------------------------------------------------- the data word

  function High(d: Half): int { d / 0x100 }

  function Low(d: Half): int { d % 0x100 }

  predicate IsCached(d: Half) { d / 0x80 % 2 == 1 }

  /** The key compared by `cmp_complex`, once it is cached. */
  function CachedKey(d: Half): int { d % 0x80 }

  /** The word with its low byte rebuilt from the backup. */
  function Rebuilt(d: Half): (r: Half)
    ensures High(r) == High(d) && Low(r) == High(d)
  {
    High(d) * 0x100 + High(d)
  }

  /** The four data bits of a word, twice. */
  function Parameter(d: Half): int {
    var nibble := d / 8 % 0x10;
    nibble * 0x10 + nibble
  }

  /** The corruption period handed to the state-machine benchmark. */
  function StepOf(d: Half): int { if Parameter(d) < 0x22 then 0x22 else Parameter(d) }

  lemma StepRange(d: Half)
    ensures 0x22 <= StepOf(d) <= 0xff
  {
  }

  // ------------------------------------------------------------ comparators

  /** The two comparison functions that are passed to the sort. */
  datatype Comparator = CmpComplex | CmpIdx

  /** No comparison will change the word any more. */
  predicate IsSettled(cmp: Comparator, regen: bool, d: Half) {
    match cmp
    case CmpComplex => IsCached(d)
    case CmpIdx => regen ==> Low(d) == High(d)
  }

  /** What comparisons may do to a word: settle it once, keeping the backup. */
  predicate MaySettle(cmp: Comparator, regen: bool, before: Half, after: Half) {
    || after == before
    || (!IsSettled(cmp, regen, before) && IsSettled(cmp, regen, after) && High(after) == High(before))
  }

  function RankOf(cmp: Comparator, d: Half, idx: Short): int {
    match cmp
    case CmpComplex => CachedKey(d)
    case CmpIdx => idx
  }

  /** Rebuilding is the only way to settle under `cmp_idx` with a null record. */
  lemma SettledRebuilt(before: Half, after: Half)
    requires MaySettle(CmpIdx, true, before, after) && IsSettled(CmpIdx, true, after)
    ensures after == Rebuilt(before)
  {
  }

  // ------------------------------------------------------------ bits of a word

  function WordBits(d: Half): Crc.Bits { Crc.BitsOf(d as bv16, 16) }

  /** The number with these bits, least significant first. */
  function Value(bits: Crc.Bits): nat { if bits == [] then 0 else (if bits[0] then 1 else 0) + 2 * Value(bits[1..]) }

  predicate Masked(d: Half, m: bv16) { Crc.Masked(d as bv16, m) }

  predicate BitOf(d: nat, p: nat)
    requires p > 0
  {
    d / p % 2 == 1
  }

  function Field(d: nat, p: nat, q: nat): nat
    requires p > 0 && q > 0
  {
    d / p % q
  }

  lemma LowBitsAt(d: Half)
    ensures Masked(d, 0x0001) == BitOf(d, 1) && Masked(d, 0x0002) == BitOf(d, 2)
    ensures Masked(d, 0x0004) == BitOf(d, 4) && Masked(d, 0x0008) == BitOf(d, 8)
    ensures Masked(d, 0x0010) == BitOf(d, 16) && Masked(d, 0x0020) == BitOf(d, 32)
    ensures Masked(d, 0x0040) == BitOf(d, 64) && Masked(d, 0x0080) == BitOf(d, 128)
  {
  }

  lemma HighBitsAt(d: Half)
    ensures Masked(d, 0x0100) == BitOf(d, 256) && Masked(d, 0x0200) == BitOf(d, 512)
    ensures Masked(d, 0x0400) == BitOf(d, 1024) && Masked(d, 0x0800) == BitOf(d, 2048)
    ensures Masked(d, 0x1000) == BitOf(d, 4096) && Masked(d, 0x2000) == BitOf(d, 8192)
    ensures Masked(d, 0x4000) == BitOf(d, 16384) && Masked(d, 0x8000) == BitOf(d, 32768)
  {
  }

  lemma WordBitMasked(d: Half, i: nat)
    requires i < 16
    ensures WordBits(d)[i] == Masked(d, Crc.Mask(i))
  {
  }

  lemma Pow2Values()
    ensures Pow2(0) == 1 && Pow2(1) == 2 && Pow2(2) == 4 && Pow2(3) == 8 && Pow2(4) == 16 && Pow2(5) == 32
    ensures Pow2(6) == 64 && Pow2(7) == 128 && Pow2(8) == 256 && Pow2(9) == 512 && Pow2(10) == 1024
    ensures Pow2(11) == 2048 && Pow2(12) == 4096 && Pow2(13) == 8192 && Pow2(14) == 16384 && Pow2(15) == 32768
  {
    assert Pow2(4) == 16;
    assert Pow2(8) == 256;
    assert Pow2(12) == 4096;
  }

  /** Mask i of the CRC module is the power 2^i. */
  lemma MaskedAt(d: Half, i: nat)
    requires i < 16
    ensures Masked(d, Crc.Mask(i)) == BitOf(d, Pow2(i))
  {
    hide Masked, BitOf, Pow2;
    Pow2Values();
    if i < 8 { LowBitsAt(d); } else { HighBitsAt(d); }
  }

  /** Bit i is the parity of the quotient by 2^i. */
  lemma BitAt(d: Half, i: nat)
    requires i < 16
    ensures WordBits(d)[i] == BitOf(d, Pow2(i))
  {
    hide Pow2, Masked, WordBits, BitOf, Crc.Mask;
    WordBitMasked(d, i);
    MaskedAt(d, i);
  }

  lemma ParityAndHalf(x: nat, p: nat)
    requires p > 0
    ensures x % (2 * p) == x % 2 + 2 * (x / 2 % p)
  {
    var q, r := x / 2 / p, x / 2 % p;
    assert x / 2 == q * p + r;
    MulAssociates(q, 2, p);
    DivModUnique(x, 2 * p, q, x % 2 + 2 * r);
  }

  lemma FieldStep(d: nat, p: nat, q: nat)
    requires p > 0 && q > 0
    ensures (if BitOf(d, p) then 1 else 0) + 2 * Field(d, 2 * p, q) == Field(d, p, 2 * q)
  {
    QuotientTwice(d, p, 2);
    ParityAndHalf(d / p, q);
  }

  /** A field of a word: bits lo to hi - 1 are a quotient and a remainder. */
  lemma {:induction false} FieldOf(d: Half, lo: nat, hi: nat)
    requires lo <= hi <= 16
    ensures Value(WordBits(d)[lo..hi]) == Field(d, Pow2(lo), Pow2(hi - lo))
    decreases hi - lo
  {
    assert |WordBits(d)| == 16;
    hide WordBits, Pow2, BitOf;
    Pow2Step(hi - lo);
    Pow2Step(lo + 1);
    if lo < hi {
      hide Field;
      var bits := WordBits(d)[lo..hi];
      assert bits[1..] == WordBits(d)[lo + 1..hi];
      FieldOf(d, lo + 1, hi);
      BitAt(d, lo);
      FieldStep(d, Pow2(lo), Pow2(hi - lo - 1));
    }
  }

  /** The fields of a data word in terms of its bits: backup byte, low byte, cache bit, key, the four bits
      that the parameter doubles, and the three that select the algorithm. */
  lemma WordFields(d: Half)
    ensures High(d) == Value(WordBits(d)[8..16]) && Low(d) == Value(WordBits(d)[0..8])
    ensures IsCached(d) <==> WordBits(d)[7]
    ensures CachedKey(d) == Value(WordBits(d)[0..7])
    ensures Parameter(d) == 0x11 * Value(WordBits(d)[3..7]) && d % 8 == Value(WordBits(d)[0..3])
    ensures StepOf(d) == Max(0x22, 0x11 * Value(WordBits(d)[3..7]))
  {
    hide WordBits, Pow2, Value;
    Pow2Values();
    FieldOf(d, 8, 16);
    FieldOf(d, 0, 8);
    BitAt(d, 7);
    FieldOf(d, 0, 7);
    FieldOf(d, 3, 7);
    FieldOf(d, 0, 3);
  }

  /** Folds a data word into a CRC (`crcu16`, `crc16`). */
  method FoldCrc(x: Half, crc: bv16) returns (r: bv16)
    ensures Folded(crc, x, r)
  {
    r := Crc.Crc16(x as bv16, crc);
  }

  ghost predicate Folded(before: bv16, x: Half, after: bv16) {
    Crc.BitsOf(after, 16) == Crc.Feed(WordBits(x), Crc.BitsOf(before, 16))
  }

  /** The uncached arm of `calc_func`: run the selected benchmark and fold its result. */
  method RunAlgorithm(data: Half, res: CoreResults) returns (retval: Half)
    modifies res
    ensures data % 8 == 0 ==> retval == res.answers(old(res.runs), State(StepOf(data), old(res.crc)))
    ensures data % 8 == 1 ==> retval == res.answers(old(res.runs), Matrix(Parameter(data), old(res.crc)))
    ensures data % 8 > 1 ==> retval == data
    ensures res.crcstate == if data % 8 == 0 && old(res.crcstate) == 0 then retval else old(res.crcstate)
    ensures res.crcmatrix == if data % 8 == 1 && old(res.crcmatrix) == 0 then retval else old(res.crcmatrix)
    ensures res.runs == if data % 8 <= 1 then old(res.runs) + 1 else old(res.runs)
    ensures Folded(old(res.crc), retval, res.crc)
  {
    hide Folded;
    var flag := data % 8;
    var dtype := data / 8 % 0x10;
    dtype := dtype + dtype * 0x10;
    if flag == 0 {
      if dtype < 0x22 { dtype := 0x22; }
      retval := res.answers(res.runs, State(dtype, res.crc));
      res.runs := res.runs + 1;
      if res.crcstate == 0 { res.crcstate := retval; }
    } else if flag == 1 {
      retval := res.answers(res.runs, Matrix(dtype, res.crc));
      res.runs := res.runs + 1;
      if res.crcmatrix == 0 { res.crcmatrix := retval; }
    } else {
      retval := data;
    }
    res.crc := FoldCrc(retval, res.crc);
  }

  /** The word with its backup byte, the cache bit and a key. */
  function WithKey(data: Half, key: int): (d: Half)
    requires 0 <= key < 0x80
    ensures IsCached(d) && CachedKey(d) == key && High(d) == High(data)
  {
    data / 0x100 * 0x100 + 0x80 + key
  }

  lemma CachedBit(d: Half)
    ensures IsCached(d) <==> d / 0x80 % 2 == 1
    ensures CachedKey(d) == d % 0x80
  {
  }

  /** One word that was computed: its cell, the word as it was, the value, and the record afterwards. */
  datatype Run = Run(cell: ListData, word: Half, retval: Half, after: Record)

  /** The computation of a word: its value by the three low bits, folded into the CRC once, and kept as
      state or matrix CRC if that was still zero. */
  ghost predicate Computes(answers: Answers, before: Record, run: Run) {
    && run.retval == (if run.word % 8 == 0 then answers(before.runs, State(StepOf(run.word), before.crc))
                      else if run.word % 8 == 1 then answers(before.runs, Matrix(Parameter(run.word), before.crc))
                      else run.word)
    && Folded(before.crc, run.retval, run.after.crc)
    && run.after.crcstate == (if run.word % 8 == 0 && before.crcstate == 0 then run.retval else before.crcstate)
    && run.after.crcmatrix == (if run.word % 8 == 1 && before.crcmatrix == 0 then run.retval else before.crcmatrix)
    && run.after.runs == before.runs + (if run.word % 8 <= 1 then 1 else 0)
  }

  /** `calc_func`: use the cached key, or compute one and cache it. */
  method CalcFunc(d: ListData, res: CoreResults) returns (key: int, ghost retval: Half)
    modifies d`data16, res
    ensures IsCached(d.data16) && key == CachedKey(d.data16)
    ensures High(d.data16) == High(old(d.data16))
    ensures if old(d.data16) / 0x80 % 2 == 1 then
        key == old(d.data16) % 0x80 && d.data16 == old(d.data16) && unchanged(res)
      else
        && key == retval % 0x80 && d.data16 == WithKey(old(d.data16), key)
        && Folded(old(res.crc), retval, res.crc)
        && Computes(res.answers, old(RecordOf(res)), Run(d, old(d.data16), retval, RecordOf(res)))
  {
    hide Folded, IsCached, CachedKey, High, StepOf, Parameter;
    var data := d.data16;
    CachedBit(data);
    if data / 0x80 % 2 == 1 {
      key := data % 0x80;
      retval := data;
    } else {
      var value := RunAlgorithm(data, res);
      retval := value;
      key := value % 0x80;
      d.data16 := WithKey(data, key);
    }
  }

  // ------------------------------------------------------------- the ledger

  /** The record after the first k words of the log. */
  function RecordAfter(start: Record, log: seq<Run>, k: nat): Record
    requires k <= |log|
  {
    if k == 0 then start else log[k - 1].after
  }

  /** The words were computed one after the other, from one state of the record to the other. */
  ghost predicate Recorded(answers: Answers, start: Record, log: seq<Run>, end: Record) {
    && (forall k :: 0 <= k < |log| ==> Computes(answers, RecordAfter(start, log, k), log[k]))
    && end == RecordAfter(start, log, |log|)
  }

  /** The words of the cells and the record when an account starts. */
  datatype Origin = Origin(was: map<ListData, Half>, start: Record)

  ghost function OriginOf(datas: set<ListData>, res: CoreResults?): Origin
    reads datas`data16, if res == null then {} else {res}
  {
    Origin(WordsOf(datas), RecordOf(res))
  }

  ghost function WordsOf(datas: set<ListData>): (was: map<ListData, Half>)
    reads datas`data16
    ensures was.Keys == datas && forall d :: d in datas ==> was[d] == d.data16
  {
    map d | d in datas :: d.data16
  }

  /** Each computed word is that of another cell, and was not cached. */
  ghost predicate OncePerCell(was: map<ListData, Half>, log: seq<Run>) {
    && (forall k :: 0 <= k < |log| ==> log[k].cell in was && log[k].word == was[log[k].cell] && !IsCached(log[k].word))
    && (forall j, k :: 0 <= j < k < |log| ==> log[j].cell != log[k].cell)
  }

  ghost predicate IsComputed(log: seq<Run>, d: ListData) {
    exists k :: 0 <= k < |log| && log[k].cell == d
  }

  /** What comparisons with keys leave: computed words hold their keys, all others are as they were. */
  ghost predicate KeysStored(was: map<ListData, Half>, log: seq<Run>)
    reads was.Keys`data16
  {
    && (forall k :: 0 <= k < |log| && log[k].cell in was ==>
          log[k].cell.data16 == WithKey(log[k].word, log[k].retval % 0x80))
    && (forall d :: d in was && !IsComputed(log, d) ==> d.data16 == was[d])
  }

  /** The account of a sort: the words that have been computed since then, each folded into the record once. */
  ghost predicate Ledger(cmp: Comparator, res: CoreResults?, datas: set<ListData>, from: Origin, log: seq<Run>)
    reads datas`data16, if res == null then {} else {res}
  {
    && from.was.Keys == datas
    && match cmp
      case CmpComplex =>
        && OncePerCell(from.was, log) && KeysStored(from.was, log)
        && (res != null ==> Recorded(res.answers, from.start, log, RecordOf(res)))
      case CmpIdx => log == [] && (res != null ==> RecordOf(res) == from.start)
  }

  lemma NothingComputed(cmp: Comparator, res: CoreResults?, datas: set<ListData>)
    ensures Ledger(cmp, res, datas, OriginOf(datas, res), [])
  {
  }

  lemma OneMoreRecorded(answers: Answers, start: Record, log: seq<Run>, end: Record, run: Run)
    requires Recorded(answers, start, log, end) && Computes(answers, end, run)
    ensures Recorded(answers, start, log + [run], run.after)
  {
    hide Computes;
    var more := log + [run];
    forall k | 0 <= k < |more|
      ensures Computes(answers, RecordAfter(start, more, k), more[k])
    {
      assert RecordAfter(start, more, k) == RecordAfter(start, log, k);
    }
  }

  lemma OneMoreComputed(was: map<ListData, Half>, log: seq<Run>, run: Run)
    requires OncePerCell(was, log) && run.cell in was && run.word == was[run.cell] && !IsCached(run.word)
    requires !IsComputed(log, run.cell)
    ensures OncePerCell(was, log + [run])
    ensures forall d :: IsComputed(log + [run], d) <==> IsComputed(log, d) || d == run.cell
  {
    var more := log + [run];
    assert more[|log|] == run;
    forall d
      ensures IsComputed(more, d) <==> IsComputed(log, d) || d == run.cell
    {
      if IsComputed(log, d) {
        var k :| 0 <= k < |log| && log[k].cell == d;
        assert more[k].cell == d;
      }
    }
  }

  /** A cell that has not been computed and is not cached gets its key. */
  method CalcLogged(d: ListData, res: CoreResults, ghost datas: set<ListData>, ghost from: Origin,
                    ghost log0: seq<Run>)
    returns (key: int, ghost log: seq<Run>)
    requires d in datas && Ledger(CmpComplex, res, datas, from, log0)
    modifies d`data16, res
    ensures IsCached(d.data16) && key == CachedKey(d.data16)
    ensures MaySettle(CmpComplex, false, old(d.data16), d.data16)
    ensures Ledger(CmpComplex, res, datas, from, log)
  {
    hide Computes, Recorded, Folded, High, CachedKey, IsCached;
    CachedBit(d.data16);
    log := log0;
    ghost var before := d.data16;
    ghost var retval;
    key, retval := CalcFunc(d, res);
    if before / 0x80 % 2 == 0 {
      ghost var run := Run(d, before, retval, RecordOf(res));
      assert !IsComputed(log0, d);
      OneMoreRecorded(res.answers, from.start, log0, old(RecordOf(res)), run);
      OneMoreComputed(from.was, log0, run);
      log := log0 + [run];
    }
  }

  /** The bits that are fed into the CRC: those of the computed values. */
  ghost function RunBits(log: seq<Run>): Crc.Bits {
    if log == [] then [] else RunBits(log[..|log| - 1]) + WordBits(log[|log| - 1].retval)
  }

  lemma FoldedThen(crc: bv16, bits: Crc.Bits, now: bv16, x: Half, next: bv16)
    requires Crc.BitsOf(now, 16) == Crc.Feed(bits, Crc.BitsOf(crc, 16)) && Folded(now, x, next)
    ensures Crc.BitsOf(next, 16) == Crc.Feed(bits + WordBits(x), Crc.BitsOf(crc, 16))
  {
    hide Crc.BitsOf, Crc.Feed, WordBits;
    Crc.FeedConcat(bits, WordBits(x), Crc.BitsOf(crc, 16));
  }

  lemma RecordedBefore(answers: Answers, start: Record, log: seq<Run>, end: Record)
    requires Recorded(answers, start, log, end) && log != []
    ensures var n := |log| - 1;
      && Recorded(answers, start, log[..n], RecordAfter(start, log, n))
      && Computes(answers, RecordAfter(start, log, n), log[n]) && end == log[n].after
  {
    hide Computes;
    var n := |log| - 1;
    assert forall k :: 0 <= k <= n ==> RecordAfter(start, log[..n], k) == RecordAfter(start, log, k);
  }

  /** The record's CRC at the end is that of all computed values, one after the other, over the CRC at the start. */
  lemma {:induction false} RecordedCrc(answers: Answers, start: Record, log: seq<Run>, end: Record)
    requires Recorded(answers, start, log, end)
    ensures Crc.BitsOf(end.crc, 16) == Crc.Feed(RunBits(log), Crc.BitsOf(start.crc, 16))
    decreases |log|
  {
    hide Recorded, Crc.BitsOf, Folded, WordBits;
    if log == [] {
      NothingRecorded(answers, start, end);
    } else {
      var n := |log| - 1;
      RecordedBefore(answers, start, log, end);
      RecordedCrc(answers, start, log[..n], RecordAfter(start, log, n));
      FoldedThen(start.crc, RunBits(log[..n]), RecordAfter(start, log, n).crc, log[n].retval, end.crc);
    }
  }

  lemma NothingRecorded(answers: Answers, start: Record, end: Record)
    requires Recorded(answers, start, [], end)
    ensures end == start
  {
  }

  /** Run k is the first of its algorithm that did not return zero. */
  ghost predicate FirstNonzero(log: seq<Run>, flag: int, k: nat)
    requires k < |log|
  {
    && log[k].word % 8 == flag && log[k].retval != 0
    && forall j :: 0 <= j < k && log[j].word % 8 == flag ==> log[j].retval == 0
  }

  ghost predicate AllZero(log: seq<Run>, flag: int) {
    forall j :: 0 <= j < |log| && log[j].word % 8 == flag ==> log[j].retval == 0
  }

  /** The state and matrix CRCs are the first values of their benchmarks that are not zero. */
  lemma {:induction false} FirstIsKept(answers: Answers, start: Record, log: seq<Run>, end: Record)
    requires Recorded(answers, start, log, end)
    ensures start.crcstate != 0 ==> end.crcstate == start.crcstate
    ensures start.crcmatrix != 0 ==> end.crcmatrix == start.crcmatrix
    ensures start.crcstate == 0 ==>
      && (end.crcstate == 0 <==> AllZero(log, 0))
      && forall k :: 0 <= k < |log| && FirstNonzero(log, 0, k) ==> end.crcstate == log[k].retval
    ensures start.crcmatrix == 0 ==>
      && (end.crcmatrix == 0 <==> AllZero(log, 1))
      && forall k :: 0 <= k < |log| && FirstNonzero(log, 1, k) ==> end.crcmatrix == log[k].retval
    decreases |log|
  {
    hide Recorded, Folded;
    if log == [] {
      NothingRecorded(answers, start, end);
    } else {
      var n := |log| - 1;
      RecordedBefore(answers, start, log, end);
      FirstIsKept(answers, start, log[..n], RecordAfter(start, log, n));
      PrefixRuns(log, 0);
      PrefixRuns(log, 1);
    }
  }

  lemma PrefixRuns(log: seq<Run>, flag: int)
    requires log != []
    ensures var n := |log| - 1;
      && (AllZero(log, flag) <==> AllZero(log[..n], flag) && (log[n].word % 8 == flag ==> log[n].retval == 0))
      && (forall k :: 0 <= k < n ==> (FirstNonzero(log, flag, k) <==> FirstNonzero(log[..n], flag, k)))
      && (FirstNonzero(log, flag, n) ==> AllZero(log[..n], flag))
      && forall k :: 0 <= k < n && FirstNonzero(log, flag, k) ==> !AllZero(log[..n], flag)
  {
  }

  /** Calls the comparison function; a null record makes `cmp_idx` rebuild both words. */
  method Compare(cmp: Comparator, a: ListData, b: ListData, res: CoreResults?, ghost datas: set<ListData>,
                 ghost from: Origin, ghost log0: seq<Run>)
    returns (r: int, ghost log: seq<Run>)
    requires cmp.CmpComplex? ==> res != null
    requires a in datas && b in datas && Ledger(cmp, res, datas, from, log0)
    modifies a`data16, b`data16, if res == null then {} else {res}
    ensures IsSettled(cmp, res == null, a.data16) && IsSettled(cmp, res == null, b.data16)
    ensures MaySettle(cmp, res == null, old(a.data16), a.data16)
    ensures MaySettle(cmp, res == null, old(b.data16), b.data16)
    ensures r <= 0 <==> RankOf(cmp, a.data16, a.idx) <= RankOf(cmp, b.data16, b.idx)
    ensures Ledger(cmp, res, datas, from, log)
  {
    log := log0;
    match cmp {
      case CmpComplex =>
        var val1, val2;
        val1, log := CalcLogged(a, res, datas, from, log);
        val2, log := CalcLogged(b, res, datas, from, log);
        r := val1 - val2;
      case CmpIdx =>
        if res == null {
          a.data16 := Rebuilt(a.data16);
          b.data16 := Rebuilt(b.data16);
        }
        r := a.idx - b.idx;
    }
  }
}
