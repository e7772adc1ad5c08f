/// The write-back cache is indistinguishable from a flat memory.
///
/// `View' is the memory that a client of the cache can observe: the cached word
/// if its line is valid with the right tag, else the word in main memory.  In
/// bypass state it is main memory itself.

module CacheProof {
  import opened Arithmetic
  import opened CacheModel

  /** The address of word w of the region. */
  ghost function AddressOf(region: nat, w: nat): (a: Word)
    requires region < 0x2_0000 && w < MEM_WORDS
    ensures a == region * MEM_BYTES + w * 4
  {
    region * MEM_BYTES + w * 4
  }

  ghost function ViewWord(s: State, region: nat, w: nat): Word
    requires IsState(s) && region < 0x2_0000 && w < MEM_WORDS
  {
    if !s.bypass && Hit(s, AddressOf(region, w)) then s.lines[w / 4 % BLOCKS].data[w % 4] else s.mem[w]
  }

  ghost function View(s: State, region: nat): (v: seq<Word>)
    requires IsState(s) && region < 0x2_0000
    ensures |v| == MEM_WORDS
  {
    seq(MEM_WORDS, w requires 0 <= w < MEM_WORDS => ViewWord(s, region, w))
  }

  /** The first word of the block cached by line i under tag region * 8 + t. */
  ghost function BlockStart(tag: Word, i: nat): (w: nat)
    requires i < BLOCKS
    ensures w + 4 <= MEM_WORDS && w % 4 == 0
  {
    tag % 8 * 1024 + i * 4
  }

  /** The split of a word address of the region, in words. */
  lemma SplitOf(region: nat, w: nat)
    requires region < 0x2_0000 && w < MEM_WORDS
    ensures var a := AddressOf(region, w);
      && GetIndex(a) == w / 4 % BLOCKS && GetTag(a) == region * 8 + w / 1024
      && GetBlockOffset(a) / 4 == w % 4 && MemIndex(a) == w
      && GetBaseAddress(a) == region * MEM_BYTES + (w - w % 4) * 4
      && BlockStart(GetTag(a), GetIndex(a)) == w - w % 4
  {
    hide GetIndex, GetTag, GetBaseAddress, GetBlockOffset, MemIndex, BlockStart, AddressOf;
    var t, i, k := w / 4 / BLOCKS, w / 4 % BLOCKS, w % 4;
    assert w == t * 1024 + i * 4 + k;
    SplitParts(region, t, i, k);
  }

  /** The same for a word given by its tag, index and offset parts. */
  lemma SplitParts(region: nat, t: nat, i: nat, k: nat)
    requires region < 0x2_0000 && t < 8 && i < BLOCKS && k < 4
    ensures var w := t * 1024 + i * 4 + k; var a := AddressOf(region, w);
      && w / 4 % BLOCKS == i && w / 1024 == t && w % 4 == k
      && GetIndex(a) == i && GetTag(a) == region * 8 + t && GetBlockOffset(a) == k * 4 && MemIndex(a) == w
      && GetBaseAddress(a) == region * MEM_BYTES + (w - k) * 4 && BlockStart(GetTag(a), i) == w - k
  {
    var w := t * 1024 + i * 4 + k;
    var a := AddressOf(region, w);
    DivModUnique(a, BLOCK_BYTES, region * 2048 + t * 256 + i, k * 4);
    DivModUnique(region * 2048 + t * 256 + i, BLOCKS, region * 8 + t, i);
    DivModUnique(a, BLOCK_BYTES * BLOCKS, region * 8 + t, i * 16 + k * 4);
    DivModUnique(a, MEM_BYTES, region, w * 4);
    DivModUnique(region * 8 + t, 8, region, t);
    DivModUnique(w, 4, t * 256 + i, k);
    DivModUnique(t * 256 + i, BLOCKS, t, i);
    DivModUnique(w, 1024, t, i * 4 + k);
  }

  lemma AddressOfRequest(region: nat, addr: Word)
    requires addr % 4 == 0 && addr / MEM_BYTES == region
    ensures region < 0x2_0000 && addr == AddressOf(region, MemIndex(addr))
  {
  }

  // --------------------------------------------------- blocks in main memory

  lemma BlockAddress(region: nat, tag: Word, i: nat)
    requires region < 0x2_0000 && tag / 8 == region && i < BLOCKS
    ensures Rebuild(tag, i) == region * MEM_BYTES + BlockStart(tag, i) * 4
  {
  }

  lemma MemIndexAt(region: nat, w: nat)
    requires w < MEM_WORDS
    ensures MemIndex(region * MEM_BYTES + w * 4) == w
  {
    DivModUnique(region * MEM_BYTES + w * 4, MEM_BYTES, region, w * 4);
  }

  /** Writing a block changes its four words and nothing else. */
  lemma WriteBlockAt(mem: seq<Word>, region: nat, b: nat, data: seq<Word>, w: nat)
    requires |mem| == MEM_WORDS && b + 4 <= MEM_WORDS && |data| == 4 && w < MEM_WORDS
    ensures WriteWords(mem, region * MEM_BYTES + b * 4, data)[w] == if b <= w < b + 4 then data[w - b] else mem[w]
  {
    var addr := region * MEM_BYTES + b * 4;
    WritePrefix(mem, region, b, data, 4, w);
    assert data[..4] == data;
  }

  lemma {:induction false} WritePrefix(mem: seq<Word>, region: nat, b: nat, data: seq<Word>, n: nat, w: nat)
    requires |mem| == MEM_WORDS && n <= |data| && b + n <= MEM_WORDS && w < MEM_WORDS
    ensures WriteWords(mem, region * MEM_BYTES + b * 4, data[..n])[w] == if b <= w < b + n then data[w - b] else mem[w]
  {
    hide MemIndex;
    if n > 0 {
      WritePrefix(mem, region, b, data, n - 1, w);
      assert data[..n][..n - 1] == data[..n - 1];
      MemIndexAt(region, b + n - 1);
    }
  }

  lemma ReadBlockAt(mem: seq<Word>, region: nat, b: nat, k: nat)
    requires |mem| == MEM_WORDS && b + 4 <= MEM_WORDS && k < 4
    ensures ReadWords(mem, region * MEM_BYTES + b * 4, 4)[k] == mem[b + k]
  {
    MemIndexAt(region, b + k);
  }

  /** Which line serves a word, in terms of blocks. */
  lemma HitIsBlock(s: State, region: nat, w: nat)
    requires InRegion(s, region) && region < 0x2_0000 && w < MEM_WORDS
    ensures var i := w / 4 % BLOCKS;
      Hit(s, AddressOf(region, w)) <==> s.lines[i].valid && BlockStart(s.lines[i].tag, i) == w - w % 4
  {
    SplitOf(region, w);
  }

  // ---------------------------------------------------------------- the fill

  lemma BlockOfAddress(region: nat, addr: Word)
    requires region < 0x2_0000 && addr % 4 == 0 && addr / MEM_BYTES == region
    ensures var x := MemIndex(addr);
      && GetIndex(addr) == x / 4 % BLOCKS && BlockStart(GetTag(addr), GetIndex(addr)) == x - x % 4
      && GetBaseAddress(addr) == region * MEM_BYTES + (x - x % 4) * 4
  {
    AddressOfRequest(region, addr);
    SplitOf(region, MemIndex(addr));
  }

  /** A word's block determines its line. */
  lemma IndexOfBlock(tag: Word, i: nat, w: nat)
    requires i < BLOCKS && w < MEM_WORDS && BlockStart(tag, i) == w - w % 4
    ensures w / 4 % BLOCKS == i
  {
    DivModUnique(w, 4, tag % 8 * 256 + i, w % 4);
    DivModUnique(tag % 8 * 256 + i, BLOCKS, tag % 8, i);
  }

  /** Main memory after the eviction: the victim's words show through. */
  lemma EvictedWord(s: State, region: nat, addr: Word, w: nat)
    requires InRegion(s, region) && region < 0x2_0000 && w < MEM_WORDS
    ensures var i := GetIndex(addr); var victim := s.lines[i];
      Fill(s, addr).mem[w] == if victim.valid && BlockStart(victim.tag, i) == w - w % 4 then victim.data[w % 4]
        else s.mem[w]
  {
    hide GetIndex, GetTag, GetBaseAddress, BlockStart, Rebuild, WriteWords, ReadWords;
    var i := GetIndex(addr);
    var victim := s.lines[i];
    if victim.valid {
      BlockAddress(region, victim.tag, i);
      WriteBlockAt(s.mem, region, BlockStart(victim.tag, i), victim.data, w);
      StartOfWord(BlockStart(victim.tag, i), w);
    }
  }

  lemma StartOfWord(b: nat, w: nat)
    requires b % 4 == 0
    ensures b <= w < b + 4 <==> b == w - w % 4
  {
  }

  /** A miss with its fill and eviction changes nothing that a client can see, and afterwards
      the word is cached. */
  lemma FillKeepsView(s: State, region: nat, addr: Word, w: nat)
    requires InRegion(s, region) && region < 0x2_0000 && w < MEM_WORDS
    requires !s.bypass && addr % 4 == 0 && addr / MEM_BYTES == region && !Hit(s, addr)
    ensures IsState(Fill(s, addr)) && ViewWord(Fill(s, addr), region, w) == ViewWord(s, region, w)
  {
    hide GetIndex, GetTag, GetBaseAddress, GetBlockOffset, MemIndex, BlockStart, Rebuild, AddressOf, WriteWords, Hit;
    var f, i, x := Fill(s, addr), GetIndex(addr), MemIndex(addr);
    var victim := s.lines[i];
    var b := x - x % 4;
    FillInRegion(s, region, addr);
    AddressOfRequest(region, addr);
    BlockOfAddress(region, addr);
    HitIsBlock(s, region, w);
    HitIsBlock(f, region, w);
    EvictedWord(s, region, addr, w);
    if w / 4 % BLOCKS != i {
      if victim.valid && BlockStart(victim.tag, i) == w - w % 4 { IndexOfBlock(victim.tag, i, w); }
    } else if w - w % 4 == b {
      HitIsBlock(s, region, x);
      ReadBlockAt(s.mem, region, b, w % 4);
    }
  }

  lemma FillInRegion(s: State, region: nat, addr: Word)
    requires InRegion(s, region) && addr / MEM_BYTES == region
    ensures InRegion(Fill(s, addr), region)
  {
  }

  lemma FillHits(s: State, region: nat, addr: Word)
    requires InRegion(s, region) && addr / MEM_BYTES == region
    ensures Hit(Fill(s, addr), addr) && Fill(s, addr).bypass == s.bypass
  {
  }

  /** Writing a cached word changes exactly that word of the view. */
  lemma SetWordChangesView(s: State, region: nat, addr: Word, d: Word, w: nat)
    requires InRegion(s, region) && region < 0x2_0000 && w < MEM_WORDS
    requires !s.bypass && addr % 4 == 0 && addr / MEM_BYTES == region && Hit(s, addr)
    ensures InRegion(SetWord(s, addr, d), region)
    ensures ViewWord(SetWord(s, addr, d), region, w) == if w == MemIndex(addr) then d else ViewWord(s, region, w)
  {
    var x := MemIndex(addr);
    AddressOfRequest(region, addr);
    SplitOf(region, x);
    HitIsBlock(s, region, w);
    HitIsBlock(s, region, x);
    HitIsBlock(SetWord(s, addr, d), region, w);
  }

  /** What a hit reads is the view. */
  lemma HitReadsView(s: State, region: nat, addr: Word)
    requires InRegion(s, region) && region < 0x2_0000
    requires !s.bypass && addr % 4 == 0 && addr / MEM_BYTES == region && Hit(s, addr)
    ensures s.lines[GetIndex(addr)].data[GetBlockOffset(addr) / 4] == ViewWord(s, region, MemIndex(addr))
  {
    AddressOfRequest(region, addr);
    SplitOf(region, MemIndex(addr));
  }

  // --------------------------------------------------------------- the flush

  /** Main memory after n lines were written back: the lines already seen show through. */
  lemma {:induction false} FlushedWord(s: State, region: nat, n: nat, w: nat)
    requires InRegion(s, region) && region < 0x2_0000 && w < MEM_WORDS && n <= BLOCKS && !s.bypass
    ensures FlushLines(s, n)[w] == if w / 4 % BLOCKS < n then ViewWord(s, region, w) else s.mem[w]
  {
    hide WriteWords, Rebuild, AddressOf, Hit, BlockStart;
    if n > 0 {
      FlushedWord(s, region, n - 1, w);
      HitIsBlock(s, region, w);
      var line := s.lines[n - 1];
      if line.valid {
        BlockAddress(region, line.tag, n - 1);
        WriteBlockAt(FlushLines(s, n - 1), region, BlockStart(line.tag, n - 1), line.data, w);
        if w - w % 4 == BlockStart(line.tag, n - 1) { IndexOfBlock(line.tag, n - 1, w); }
      }
    }
  }

  /** A flush makes main memory equal to the view; every line stays valid. */
  lemma FlushWritesView(s: State, region: nat)
    requires InRegion(s, region) && region < 0x2_0000 && !s.bypass
    ensures FlushLines(s, BLOCKS) == View(s, region)
    ensures View(s.(mem := FlushLines(s, BLOCKS)), region) == View(s, region)
  {
    var f := s.(mem := FlushLines(s, BLOCKS));
    forall w | 0 <= w < MEM_WORDS
      ensures f.mem[w] == View(s, region)[w] && ViewWord(f, region, w) == ViewWord(s, region, w)
    {
      FlushedWord(s, region, BLOCKS, w);
    }
  }

  // -------------------------------------------------------------- flat memory

  /** The abstract machine: a flat word memory; commands are not stores. */
  function FlatStep(m: seq<Word>, r: Request): (m': seq<Word>)
    requires |m| == MEM_WORDS
    ensures |m'| == MEM_WORDS
  {
    if r.we && !IsCommand(r) then m[MemIndex(r.addr) := r.wdata] else m
  }

  /** No valid line differs from main memory. */
  ghost predicate IsClean(s: State, region: nat)
    requires IsState(s) && region < 0x2_0000
  {
    View(s.(bypass := false), region) == s.mem
  }

  /** One request in cached state refines one flat step: reads return the flat word, and hits,
      misses, evictions and flushes are invisible. */
  lemma CachedStepRefines(s: State, region: nat, r: Request)
    requires InRegion(s, region) && Legal(r, region) && !s.bypass && !IsBypass(r)
    ensures region < 0x2_0000 && InRegion(Step(s, r).0, region) && !Step(s, r).0.bypass
    ensures View(Step(s, r).0, region) == FlatStep(View(s, region), r)
    ensures !r.we ==> Step(s, r).1 == View(s, region)[MemIndex(r.addr)]
  {
    hide WriteWords, FlushLines, ReadWords, GetIndex, GetTag, GetBlockOffset, GetBaseAddress, AddressOf, ViewWord, Hit,
      Fill, SetWord, MemIndex;
    AddressOfRequest(region, r.addr);
    if IsCommand(r) {
      if r.wdata == 1 {
        FlushWritesView(s, region);
        FlushInRegion(s, region);
      }
    } else {
      var f := if Hit(s, r.addr) then s else Fill(s, r.addr);
      FilledView(s, region, r.addr);
      HitReadsView(f, region, r.addr);
      if r.we {
        WriteThroughView(f, region, r.addr, r.wdata);
      }
    }
  }

  lemma FlushInRegion(s: State, region: nat)
    requires InRegion(s, region)
    ensures InRegion(s.(mem := FlushLines(s, BLOCKS)), region)
  {
  }

  lemma FilledView(s: State, region: nat, addr: Word)
    requires InRegion(s, region) && region < 0x2_0000 && !s.bypass
    requires addr % 4 == 0 && addr / MEM_BYTES == region
    ensures var f := if Hit(s, addr) then s else Fill(s, addr);
      && InRegion(f, region) && IsState(f) && Hit(f, addr) && !f.bypass
      && View(f, region) == View(s, region)
  {
    if !Hit(s, addr) {
      FillInRegion(s, region, addr);
      FillHits(s, region, addr);
      forall w | 0 <= w < MEM_WORDS
        ensures View(Fill(s, addr), region)[w] == View(s, region)[w]
      {
        FillKeepsView(s, region, addr, w);
      }
    }
  }

  lemma WriteThroughView(s: State, region: nat, addr: Word, d: Word)
    requires InRegion(s, region) && region < 0x2_0000 && !s.bypass
    requires addr % 4 == 0 && addr / MEM_BYTES == region && Hit(s, addr)
    ensures IsState(SetWord(s, addr, d)) && InRegion(SetWord(s, addr, d), region)
    ensures View(SetWord(s, addr, d), region) == View(s, region)[MemIndex(addr) := d]
    ensures SetWord(s, addr, d).bypass == s.bypass
  {
    var v := View(s, region)[MemIndex(addr) := d];
    forall w | 0 <= w < MEM_WORDS
      ensures InRegion(SetWord(s, addr, d), region) && View(SetWord(s, addr, d), region)[w] == v[w]
    {
      SetWordChangesView(s, region, addr, d, w);
    }
  }

  // ------------------------------------------------------- bypass and handover

  /** Entering bypass state exposes main memory.  `CacheHistory' tells from the requests alone what
      that is, and when a client notices. */
  lemma BypassIffClean(s: State, region: nat, r: Request)
    requires InRegion(s, region) && Legal(r, region) && !s.bypass && IsBypass(r)
    ensures region < 0x2_0000 && InRegion(Step(s, r).0, region) && Step(s, r).0.bypass
    ensures View(Step(s, r).0, region) == s.mem
    ensures View(Step(s, r).0, region) == View(s, region) <==> IsClean(s, region)
  {
    assert s == s.(bypass := false);
    var t := Step(s, r).0;
    assert forall w :: 0 <= w < MEM_WORDS ==> View(t, region)[w] == s.mem[w];
    assert View(t, region) == s.mem;
  }

  /** In bypass state everything but a flush acts on main memory directly. */
  lemma BypassStepRefines(s: State, region: nat, r: Request)
    requires InRegion(s, region) && Legal(r, region) && s.bypass && !IsFlush(r)
    ensures region < 0x2_0000 && InRegion(Step(s, r).0, region) && Step(s, r).0.bypass
    ensures View(Step(s, r).0, region) == FlatStep(View(s, region), r)
    ensures !r.we ==> Step(s, r).1 == View(s, region)[MemIndex(r.addr)]
  {
    AddressOfRequest(region, r.addr);
    BypassView(s, region);
    BypassView(Step(s, r).0, region);
    assert WriteWords(s.mem, r.addr, []) == s.mem;
    assert [r.wdata][..0] == [];
    assert WriteWords(s.mem, r.addr, [r.wdata]) == s.mem[MemIndex(r.addr) := r.wdata];
  }

  lemma BypassView(s: State, region: nat)
    requires IsState(s) && region < 0x2_0000 && s.bypass
    ensures View(s, region) == s.mem
  {
  }

  /** A flush in bypass state writes the old lines over main memory as it would without bypass. */
  lemma {:induction false} FlushIgnoresBypass(s: State, n: nat)
    requires IsState(s) && n <= BLOCKS
    ensures FlushLines(s, n) == FlushLines(s.(bypass := false), n)
  {
    if n > 0 { FlushIgnoresBypass(s, n - 1); }
  }

  /** Evicting a clean line does not change main memory. */
  lemma FillKeepsClean(s: State, region: nat, addr: Word)
    requires InRegion(s, region) && region < 0x2_0000 && !s.bypass && IsClean(s, region)
    requires addr % 4 == 0 && addr / MEM_BYTES == region && !Hit(s, addr)
    ensures IsState(Fill(s, addr)) && IsClean(Fill(s, addr), region)
  {
    var f := Fill(s, addr);
    FilledView(s, region, addr);
    assert s == s.(bypass := false) && f == f.(bypass := false);
    forall w | 0 <= w < MEM_WORDS
      ensures f.mem[w] == s.mem[w]
    {
      assert View(s, region)[w] == s.mem[w];
      EvictCleanWord(s, region, addr, w);
    }
    assert f.mem == s.mem;
  }

  lemma EvictCleanWord(s: State, region: nat, addr: Word, w: nat)
    requires InRegion(s, region) && region < 0x2_0000 && !s.bypass && w < MEM_WORDS
    requires ViewWord(s, region, w) == s.mem[w]
    ensures Fill(s, addr).mem[w] == s.mem[w]
  {
    hide GetIndex, GetTag, GetBaseAddress, GetBlockOffset, MemIndex, BlockStart, Rebuild, AddressOf, WriteWords, Hit,
      ReadWords;
    var i := GetIndex(addr);
    var victim := s.lines[i];
    HitIsBlock(s, region, w);
    EvictedWord(s, region, addr, w);
    if victim.valid && BlockStart(victim.tag, i) == w - w % 4 { IndexOfBlock(victim.tag, i, w); }
  }

  // ----------------------------------------------------------------- whole runs

  /** Cached: words may be newer than main memory.  Clean: flushed, no write since.
      Direct: bypass state. */
  datatype Phase = Cached | Clean | Direct

  /** The phase after a request that keeps the handover rules: bypass is entered right after a
      flush (reads may intervene), and nothing is flushed after that. */
  function NextPhase(p: Phase, r: Request): Phase {
    if IsBypass(r) && p == Clean then Direct
    else if p == Direct then Direct
    else if IsFlush(r) then Clean
    else if r.we && !IsCommand(r) then Cached
    else p
  }

  predicate KeepsRules(p: Phase, r: Request) {
    (IsBypass(r) ==> p != Cached) && (IsFlush(r) ==> p != Direct)
  }

  predicate Disciplined(p: Phase, rs: seq<Request>)
    decreases |rs|
  {
    rs != [] ==> KeepsRules(p, rs[0]) && Disciplined(NextPhase(p, rs[0]), rs[1..])
  }

  ghost predicate InPhase(p: Phase, s: State, region: nat)
    requires IsState(s) && region < 0x2_0000
  {
    match p
    case Cached => !s.bypass
    case Clean => !s.bypass && IsClean(s, region)
    case Direct => s.bypass
  }

  lemma PhaseStep(p: Phase, s: State, region: nat, r: Request)
    requires InRegion(s, region) && Legal(r, region) && region < 0x2_0000
    requires InPhase(p, s, region) && KeepsRules(p, r)
    ensures InRegion(Step(s, r).0, region) && InPhase(NextPhase(p, r), Step(s, r).0, region)
    ensures View(Step(s, r).0, region) == FlatStep(View(s, region), r)
    ensures !r.we ==> Step(s, r).1 == View(s, region)[MemIndex(r.addr)]
  {
    hide WriteWords, FlushLines, ReadWords, GetIndex, GetTag, GetBlockOffset, GetBaseAddress, AddressOf, ViewWord, Hit,
      Fill, SetWord, MemIndex;
    if p == Direct {
      BypassStepRefines(s, region, r);
    } else if IsBypass(r) {
      BypassIffClean(s, region, r);
    } else {
      CachedStepRefines(s, region, r);
      assert s == s.(bypass := false);
      if IsFlush(r) {
        FlushWritesView(s, region);
      } else if p == Clean && !r.we && !Hit(s, r.addr) {
        FillKeepsClean(s, region, r.addr);
      }
    }
  }

  /** The final state and the responses of a run of requests. */
  function Run(s: State, rs: seq<Request>): (r: (State, seq<Word>))
    requires IsState(s)
    ensures IsState(r.0) && |r.1| == |rs|
    decreases |rs|
  {
    if rs == [] then (s, [])
    else
      StepIsState(s, rs[0]);
      var (s1, w) := Step(s, rs[0]);
      var (s2, ws) := Run(s1, rs[1..]);
      (s2, [w] + ws)
  }

  lemma StepIsState(s: State, r: Request)
    requires IsState(s)
    ensures IsState(Step(s, r).0)
  {
  }

  lemma {:induction false} RunAppend(s: State, rs: seq<Request>, r: Request)
    requires IsState(s)
    ensures var (t, ws) := Run(s, rs); Run(s, rs + [r]) == (Step(t, r).0, ws + [Step(t, r).1])
    decreases |rs|
  {
    hide Step;
    var q := rs + [r];
    if rs == [] {
      assert q[0] == r && q[1..] == [];
      StepIsState(s, r);
      assert Run(Step(s, r).0, []) == (Step(s, r).0, []);
      assert [Step(s, r).1] + [] == [] + [Step(s, r).1];
    } else {
      assert q[0] == rs[0] && q[1..] == rs[1..] + [r];
      StepIsState(s, rs[0]);
      RunAppend(Step(s, rs[0]).0, rs[1..], r);
      var (s1, w) := Step(s, rs[0]);
      var (t, ws) := Run(s1, rs[1..]);
      assert Run(s, rs) == (t, [w] + ws);
      assert [w] + (ws + [Step(t, r).1]) == ([w] + ws) + [Step(t, r).1];
    }
  }

  function FlatRun(m: seq<Word>, rs: seq<Request>): (m': seq<Word>)
    requires |m| == MEM_WORDS
    ensures |m'| == MEM_WORDS
    decreases |rs|
  {
    if rs == [] then m else FlatRun(FlatStep(m, rs[0]), rs[1..])
  }

  /** Whole-run refinement: along every disciplined run, each read returns what a flat memory
      holds at that point, and the client's view ends as that flat memory. */
  lemma {:induction false} RunRefinesFlat(p: Phase, s: State, region: nat, rs: seq<Request>)
    requires IsState(s) && InRegion(s, region) && region < 0x2_0000 && InPhase(p, s, region) && Disciplined(p, rs)
    requires forall r :: r in rs ==> Legal(r, region)
    ensures View(Run(s, rs).0, region) == FlatRun(View(s, region), rs)
    ensures forall k :: 0 <= k < |rs| && !rs[k].we ==>
      Run(s, rs).1[k] == FlatRun(View(s, region), rs[..k])[MemIndex(rs[k].addr)]
    decreases |rs|
  {
    hide Step, FlatStep, View, InRegion, InPhase, MemIndex, Legal;
    if rs != [] {
      var r, rest := rs[0], rs[1..];
      PhaseStep(p, s, region, r);
      StepIsState(s, r);
      var s1 := Step(s, r).0;
      RunRefinesFlat(NextPhase(p, r), s1, region, rest);
      forall k | 0 <= k < |rs| && !rs[k].we
        ensures Run(s, rs).1[k] == FlatRun(View(s, region), rs[..k])[MemIndex(rs[k].addr)]
      {
        if k > 0 {
          assert rs[..k][0] == r && rs[..k][1..] == rest[..k - 1];
          assert Run(s, rs).1[k] == Run(s1, rest).1[k - 1];
          assert rest[k - 1] == rs[k];
        }
      }
    }
  }

  /** The flat memory is the last write to each word. */
  lemma {:induction false} FlatIsLastWrite(m: seq<Word>, rs: seq<Request>, k: nat)
    requires |m| == MEM_WORDS && k < |rs| && rs[k].we && !IsCommand(rs[k])
    requires forall j :: k < j < |rs| && rs[j].we && !IsCommand(rs[j]) ==> MemIndex(rs[j].addr) != MemIndex(rs[k].addr)
    ensures FlatRun(m, rs)[MemIndex(rs[k].addr)] == rs[k].wdata
    decreases |rs|
  {
    hide MemIndex, IsCommand;
    if k > 0 {
      assert rs[1..][k - 1] == rs[k];
      FlatIsLastWrite(FlatStep(m, rs[0]), rs[1..], k - 1);
    } else {
      NeverWritten(FlatStep(m, rs[0]), rs[1..], MemIndex(rs[0].addr));
    }
  }

  lemma {:induction false} NeverWritten(m: seq<Word>, rs: seq<Request>, w: nat)
    requires |m| == MEM_WORDS && w < MEM_WORDS
    requires forall j :: 0 <= j < |rs| && rs[j].we && !IsCommand(rs[j]) ==> MemIndex(rs[j].addr) != w
    ensures FlatRun(m, rs)[w] == m[w]
    decreases |rs|
  {
    hide MemIndex, IsCommand;
    if rs != [] {
      NeverWritten(FlatStep(m, rs[0]), rs[1..], w);
    }
  }

  /** A cache without valid lines starts clean. */
  lemma EmptyIsClean(s: State, region: nat)
    requires IsState(s) && region < 0x2_0000 && forall i :: 0 <= i < BLOCKS ==> !s.lines[i].valid
    ensures InRegion(s, region) && IsClean(s, region) && View(s, region) == s.mem
  {
    var c := s.(bypass := false);
    assert View(c, region) == s.mem && View(s, region) == s.mem;
  }
}
