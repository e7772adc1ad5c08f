/// When the handover to bypass state is noticed, told from the requests alone.
///
/// From an empty cache the history of requests determines which blocks are
/// resident and when a word was last written back.  So it determines main memory
/// when bypass is entered, every answer after that, and the exact condition under
/// which the client cannot tell the system from a flat memory.

module CacheHistory {
  import opened Arithmetic
  import opened CacheModel
  import opened CacheProof

  // ------------------------------------------------------------ the history

  /** The request uses the line of word w. */
  predicate UsesLine(r: Request, w: nat) { GetIndex(r.addr) == w / 4 % BLOCKS }

  /** The request addresses the block of word w. */
  predicate InBlock(r: Request, w: nat) { MemIndex(r.addr) / 4 == w / 4 }

  /** After these requests the block of word w is cached: the last access to its line was to it. */
  predicate Resident(rs: seq<Request>, w: nat) {
    if rs == [] then false
    else
      var r := rs[|rs| - 1];
      if !IsCommand(r) && UsesLine(r, w) then InBlock(r, w) else Resident(rs[..|rs| - 1], w)
  }

  /** A resident block is written back by a flush and by an access that takes its line. */
  predicate WritesBack(r: Request, w: nat) { IsFlush(r) || (!IsCommand(r) && UsesLine(r, w) && !InBlock(r, w)) }

  /** The number of requests before word w was last written back; 0 if it never was. */
  function WrittenBack(rs: seq<Request>, w: nat): (n: nat)
    ensures n <= |rs|
  {
    if rs == [] then 0
    else
      var before := rs[..|rs| - 1];
      if Resident(before, w) && WritesBack(rs[|rs| - 1], w) then |before| else WrittenBack(before, w)
  }

  /** What main memory holds after these requests: each word as it was when last written back. */
  function Handed(m: seq<Word>, rs: seq<Request>): (h: seq<Word>)
    requires |m| == MEM_WORDS
    ensures |h| == MEM_WORDS
  {
    seq(MEM_WORDS, w requires 0 <= w < MEM_WORDS => FlatRun(m, rs[..WrittenBack(rs, w)])[w])
  }

  /** No word was stored to, with another value, since it was last written back. */
  predicate NothingPending(m: seq<Word>, rs: seq<Request>)
    requires |m| == MEM_WORDS
  {
    forall w :: 0 <= w < MEM_WORDS ==> FlatRun(m, rs)[w] == FlatRun(m, rs[..WrittenBack(rs, w)])[w]
  }

  // ------------------------------------------------------------- one request

  ghost predicate Started(s: State, region: nat) {
    IsState(s) && region < 0x2_0000 && !s.bypass && forall i :: 0 <= i < BLOCKS ==> !s.lines[i].valid
  }

  ghost predicate AllLegal(rs: seq<Request>, region: nat) { forall r :: r in rs ==> Legal(r, region) }

  predicate NoBypass(rs: seq<Request>) { forall r :: r in rs ==> !IsBypass(r) }

  lemma BlocksOfWords(region: nat, addr: Word, w: nat)
    requires region < 0x2_0000 && addr % 4 == 0 && addr / MEM_BYTES == region && w < MEM_WORDS
    ensures var x := MemIndex(addr);
      && x < MEM_WORDS && addr == AddressOf(region, x) && GetIndex(addr) == x / 4 % BLOCKS
      && BlockStart(GetTag(addr), GetIndex(addr)) == x - x % 4
      && (x - x % 4 == w - w % 4 <==> x / 4 == w / 4)
  {
    hide GetIndex, GetTag, BlockStart, AddressOf;
    AddressOfRequest(region, addr);
    BlockOfAddress(region, addr);
  }

  /** The line of an accessed address, after the access. */
  lemma AccessedLine(s: State, region: nat, r: Request)
    requires InRegion(s, region) && Legal(r, region) && !s.bypass && !IsCommand(r)
    ensures IsState(Step(s, r).0)
    ensures var i, line := GetIndex(r.addr), Step(s, r).0.lines[GetIndex(r.addr)];
      && line.valid && line.tag == GetTag(r.addr)
      && forall j :: 0 <= j < BLOCKS && j != i ==> Step(s, r).0.lines[j] == s.lines[j]
  {
    hide GetIndex, GetTag, GetBaseAddress, GetBlockOffset, Rebuild, WriteWords, ReadWords;
  }

  /** Which words are cached after a request. */
  lemma StepHit(s: State, region: nat, r: Request, w: nat)
    requires InRegion(s, region) && Legal(r, region) && region < 0x2_0000 && !s.bypass && !IsBypass(r) && w < MEM_WORDS
    ensures InRegion(Step(s, r).0, region) && !Step(s, r).0.bypass
    ensures Hit(Step(s, r).0, AddressOf(region, w))
       <==> (if !IsCommand(r) && UsesLine(r, w) then InBlock(r, w) else Hit(s, AddressOf(region, w)))
  {
    hide Step, GetIndex, GetTag, BlockStart, AddressOf, Hit, MemIndex, IsCommand;
    CachedStepRefines(s, region, r);
    HitIsBlock(s, region, w);
    HitIsBlock(Step(s, r).0, region, w);
    if IsCommand(r) {
      CommandKeepsLines(s, r);
    } else {
      BlocksOfWords(region, r.addr, w);
      AccessedLine(s, region, r);
    }
  }

  lemma CommandKeepsLines(s: State, r: Request)
    requires IsState(s) && IsCommand(r)
    ensures Step(s, r).0.lines == s.lines
  {
  }

  /** Main memory after a request: a word written back shows the client's view of it. */
  lemma StepMem(s: State, region: nat, r: Request, w: nat)
    requires InRegion(s, region) && Legal(r, region) && region < 0x2_0000 && !s.bypass && !IsBypass(r) && w < MEM_WORDS
    ensures Step(s, r).0.mem[w]
         == if Hit(s, AddressOf(region, w)) && WritesBack(r, w) then ViewWord(s, region, w) else s.mem[w]
  {
    hide GetIndex, GetTag, GetBaseAddress, GetBlockOffset, BlockStart, AddressOf, Hit, MemIndex, Rebuild, WriteWords,
      ReadWords, FlushLines, SetWord, Fill;
    HitIsBlock(s, region, w);
    if IsFlush(r) {
      FlushWritesView(s, region);
      assert FlushLines(s, BLOCKS)[w] == View(s, region)[w];
    } else if !IsCommand(r) {
      BlocksOfWords(region, r.addr, w);
      HitIsBlock(s, region, MemIndex(r.addr));
      EvictedWord(s, region, r.addr, w);
      FilledView(s, region, r.addr);
      SetWordKeepsMem(if Hit(s, r.addr) then s else Fill(s, r.addr), r.addr, r.wdata);
      var victim := s.lines[GetIndex(r.addr)];
      if victim.valid && BlockStart(victim.tag, GetIndex(r.addr)) == w - w % 4 {
        IndexOfBlock(victim.tag, GetIndex(r.addr), w);
      }
    }
  }

  lemma SetWordKeepsMem(s: State, addr: Word, d: Word)
    requires IsState(s)
    ensures SetWord(s, addr, d).mem == s.mem
  {
  }

  // -------------------------------------------------------- the cached phase

  lemma {:induction false} DisciplinedWithoutBypass(p: Phase, rs: seq<Request>)
    requires p != Direct && NoBypass(rs)
    ensures Disciplined(p, rs)
    decreases |rs|
  {
    if rs != [] { DisciplinedWithoutBypass(NextPhase(p, rs[0]), rs[1..]); }
  }

  lemma {:induction false} RunInRegion(s: State, region: nat, rs: seq<Request>)
    requires IsState(s) && InRegion(s, region) && region < 0x2_0000 && !s.bypass && AllLegal(rs, region) && NoBypass(rs)
    ensures InRegion(Run(s, rs).0, region) && !Run(s, rs).0.bypass
    decreases |rs|
  {
    hide Step, InRegion, Legal;
    if rs != [] {
      CachedStepRefines(s, region, rs[0]);
      StepIsState(s, rs[0]);
      RunInRegion(Step(s, rs[0]).0, region, rs[1..]);
    }
  }

  /** A cached run from an empty cache: its view is the flat memory, and every read answers so. */
  lemma CachedRun(s: State, region: nat, rs: seq<Request>)
    requires Started(s, region) && AllLegal(rs, region) && NoBypass(rs)
    ensures InRegion(Run(s, rs).0, region) && !Run(s, rs).0.bypass
    ensures View(Run(s, rs).0, region) == FlatRun(s.mem, rs)
    ensures forall k :: 0 <= k < |rs| && !rs[k].we ==> Run(s, rs).1[k] == FlatRun(s.mem, rs[..k])[MemIndex(rs[k].addr)]
  {
    hide Run, FlatRun, View;
    EmptyIsClean(s, region);
    RunInRegion(s, region, rs);
    DisciplinedWithoutBypass(Cached, rs);
    RunRefinesFlat(Cached, s, region, rs);
  }

  lemma NotResident(s: State, region: nat, w: nat)
    requires Started(s, region) && w < MEM_WORDS
    ensures !Hit(s, AddressOf(region, w)) && Run(s, []) == (s, []) && FlatRun(s.mem, [])[w] == s.mem[w]
  {
  }

  /** Residency and main memory after a cached run, from the requests alone. */
  lemma {:induction false} CachedHistory(s: State, region: nat, rs: seq<Request>, w: nat)
    requires Started(s, region) && AllLegal(rs, region) && NoBypass(rs) && w < MEM_WORDS
    ensures Hit(Run(s, rs).0, AddressOf(region, w)) <==> Resident(rs, w)
    ensures Run(s, rs).0.mem[w] == FlatRun(s.mem, rs[..WrittenBack(rs, w)])[w]
    decreases |rs|
  {
    hide Run, FlatRun, Hit, AddressOf, WritesBack, UsesLine, InBlock, Step, IsCommand, IsBypass;
    if rs == [] {
      NotResident(s, region, w);
      assert rs[..WrittenBack(rs, w)] == rs;
    } else {
      var before, r := rs[..|rs| - 1], rs[|rs| - 1];
      assert rs == before + [r];
      CachedHistory(s, region, before, w);
      CachedRun(s, region, before);
      RunAppend(s, before, r);
      var t := Run(s, before).0;
      StepHit(t, region, r, w);
      StepMem(t, region, r, w);
      assert View(t, region)[w] == ViewWord(t, region, w);
      var n := WrittenBack(before, w);
      assert rs[..|before|] == before && rs[..n] == before[..n];
    }
  }

  /** Main memory after a cached run. */
  lemma CachedMemory(s: State, region: nat, rs: seq<Request>)
    requires Started(s, region) && AllLegal(rs, region) && NoBypass(rs)
    ensures Run(s, rs).0.mem == Handed(s.mem, rs)
  {
    hide Run, FlatRun;
    forall w | 0 <= w < MEM_WORDS
      ensures Run(s, rs).0.mem[w] == Handed(s.mem, rs)[w]
    {
      CachedHistory(s, region, rs, w);
    }
  }

  // ------------------------------------------------------- after the handover

  /** What a flush in bypass state does: the words of resident blocks are written as they were
      when bypass was entered. */
  function Overlaid(m: seq<Word>, rs: seq<Request>, now: seq<Word>): (h: seq<Word>)
    requires |m| == |now| == MEM_WORDS
    ensures |h| == MEM_WORDS
  {
    seq(MEM_WORDS, w requires 0 <= w < MEM_WORDS => if Resident(rs, w) then FlatRun(m, rs)[w] else now[w])
  }

  /** Main memory after cached requests rs, the bypass command, and requests cs. */
  function DirectMemory(m: seq<Word>, rs: seq<Request>, cs: seq<Request>): (d: seq<Word>)
    requires |m| == MEM_WORDS
    ensures |d| == MEM_WORDS
    decreases |cs|
  {
    if cs == [] then Handed(m, rs)
    else
      var now, c := DirectMemory(m, rs, cs[..|cs| - 1]), cs[|cs| - 1];
      if IsFlush(c) then Overlaid(m, rs, now) else FlatStep(now, c)
  }

  lemma {:induction false} RunConcat(s: State, a: seq<Request>, b: seq<Request>)
    requires IsState(s)
    ensures var (t, ws) := Run(s, a); var (u, vs) := Run(t, b); Run(s, a + b) == (u, ws + vs)
    decreases |b|
  {
    hide Step;
    var (t, ws) := Run(s, a);
    if b == [] {
      assert a + b == a && ws + [] == ws;
    } else {
      hide Run;
      var c, r := b[..|b| - 1], b[|b| - 1];
      RunConcat(s, a, c);
      assert b == c + [r] && a + b == (a + c) + [r];
      RunAppend(s, a + c, r);
      RunAppend(t, c, r);
      var (u, vs) := Run(t, c);
      assert ws + vs + [Step(u, r).1] == ws + (vs + [Step(u, r).1]);
    }
  }

  lemma {:induction false} FlatConcat(m: seq<Word>, a: seq<Request>, b: seq<Request>)
    requires |m| == MEM_WORDS
    ensures FlatRun(m, a + b) == FlatRun(FlatRun(m, a), b)
    decreases |a|
  {
    if a == [] {
      assert a + b == b;
    } else {
      assert (a + b)[1..] == a[1..] + b;
      FlatConcat(FlatStep(m, a[0]), a[1..], b);
    }
  }

  /** The lines hold the resident words of a cached run. */
  ghost predicate LinesHold(s: State, region: nat, m: seq<Word>, rs: seq<Request>)
    requires IsState(s) && region < 0x2_0000 && |m| == MEM_WORDS
  {
    forall w :: 0 <= w < MEM_WORDS ==>
      && (Hit(s, AddressOf(region, w)) <==> Resident(rs, w))
      && (Resident(rs, w) ==> s.lines[w / 4 % BLOCKS].data[w % 4] == FlatRun(m, rs)[w])
  }

  lemma CachedLines(s: State, region: nat, rs: seq<Request>)
    requires Started(s, region) && AllLegal(rs, region) && NoBypass(rs)
    ensures LinesHold(Run(s, rs).0, region, s.mem, rs)
  {
    hide Run, FlatRun, Hit, AddressOf, Resident;
    var t := Run(s, rs).0;
    CachedRun(s, region, rs);
    forall w | 0 <= w < MEM_WORDS
      ensures Hit(t, AddressOf(region, w)) <==> Resident(rs, w)
      ensures Resident(rs, w) ==> t.lines[w / 4 % BLOCKS].data[w % 4] == FlatRun(s.mem, rs)[w]
    {
      CachedHistory(s, region, rs, w);
      assert View(t, region)[w] == ViewWord(t, region, w);
    }
  }

  lemma SameHit(s: State, t: State, addr: Word)
    requires |s.lines| == BLOCKS && s.lines == t.lines
    ensures Hit(s, addr) == Hit(t, addr)
  {
  }

  lemma SameLines(s: State, t: State, region: nat, m: seq<Word>, rs: seq<Request>)
    requires IsState(s) && IsState(t) && region < 0x2_0000 && |m| == MEM_WORDS && s.lines == t.lines
    requires LinesHold(s, region, m, rs) && InRegion(s, region)
    ensures LinesHold(t, region, m, rs) && InRegion(t, region)
  {
    hide Hit, FlatRun, Resident, AddressOf;
    forall w | 0 <= w < MEM_WORDS { SameHit(s, t, AddressOf(region, w)); }
  }

  /** A request in bypass state leaves the lines alone; only a flush looks at them. */
  lemma BypassStep(s: State, region: nat, r: Request, m: seq<Word>, rs: seq<Request>)
    requires IsState(s) && InRegion(s, region) && region < 0x2_0000 && s.bypass && Legal(r, region) && |m| == MEM_WORDS
    requires LinesHold(s, region, m, rs)
    ensures Step(s, r).0.bypass && Step(s, r).0.lines == s.lines
    ensures Step(s, r).0.mem == if IsFlush(r) then Overlaid(m, rs, s.mem) else FlatStep(s.mem, r)
    ensures !r.we ==> Step(s, r).1 == s.mem[MemIndex(r.addr)]
  {
    hide Hit, AddressOf, FlatRun, Resident, GetIndex, MemIndex, WriteWords;
    if IsFlush(r) {
      var c := s.(bypass := false);
      FlushIgnoresBypass(s, BLOCKS);
      forall w | 0 <= w < MEM_WORDS
        ensures FlushLines(s, BLOCKS)[w] == Overlaid(m, rs, s.mem)[w]
      {
        FlushedWord(c, region, BLOCKS, w);
        SameHit(s, c, AddressOf(region, w));
      }
    } else {
      OneWord(s.mem, r.addr, r.wdata);
    }
  }

  lemma OneWord(mem: seq<Word>, addr: Word, d: Word)
    requires |mem| == MEM_WORDS
    ensures WriteWords(mem, addr, [d]) == mem[MemIndex(addr) := d]
  {
    assert [d][..0] == [];
    assert WriteWords(mem, addr, []) == mem;
  }

  lemma BypassEntered(s: State, r: Request)
    requires IsState(s) && IsBypass(r)
    ensures Step(s, r).0 == s.(bypass := true)
  {
  }

  /** The state right after the handover, and after requests cs in bypass state. */
  lemma {:induction false} DirectState(s: State, region: nat, rs: seq<Request>, b: Request, cs: seq<Request>)
    requires Started(s, region) && AllLegal(rs, region) && NoBypass(rs) && IsBypass(b) && AllLegal(cs, region)
    ensures var t := Run(s, rs + [b] + cs).0;
      && t.bypass && t.mem == DirectMemory(s.mem, rs, cs) && InRegion(t, region) && LinesHold(t, region, s.mem, rs)
    decreases |cs|
  {
    hide Run, Step, FlatStep, Overlaid, LinesHold, InRegion, Legal, IsBypass, IsFlush, Handed;
    if cs == [] {
      assert rs + [b] + cs == rs + [b];
      var t := Run(s, rs).0;
      CachedRun(s, region, rs);
      CachedMemory(s, region, rs);
      CachedLines(s, region, rs);
      RunAppend(s, rs, b);
      BypassEntered(t, b);
      SameLines(t, t.(bypass := true), region, s.mem, rs);
    } else {
      var before, c := cs[..|cs| - 1], cs[|cs| - 1];
      assert rs + [b] + cs == (rs + [b] + before) + [c];
      DirectState(s, region, rs, b, before);
      RunAppend(s, rs + [b] + before, c);
      var t := Run(s, rs + [b] + before).0;
      BypassStep(t, region, c, s.mem, rs);
      StepIsState(t, c);
      SameLines(t, Step(t, c).0, region, s.mem, rs);
    }
  }

  lemma AnswerAt(s: State, a: seq<Request>, r: Request, rest: seq<Request>)
    requires IsState(s)
    ensures Run(s, a + [r] + rest).1[|a|] == Step(Run(s, a).0, r).1
  {
    hide Run, Step;
    RunAppend(s, a, r);
    RunConcat(s, a + [r], rest);
  }

  lemma SplitAt(a: seq<Request>, cs: seq<Request>, k: nat)
    requires k < |cs|
    ensures a + cs == (a + cs[..k]) + [cs[k]] + cs[k + 1..]
  {
    assert cs == cs[..k] + ([cs[k]] + cs[k + 1..]);
  }

  lemma NextAnswer(s: State, region: nat, rs: seq<Request>, b: Request, cs: seq<Request>, r: Request)
    requires Started(s, region) && AllLegal(rs, region) && NoBypass(rs) && IsBypass(b)
    requires AllLegal(cs, region) && Legal(r, region) && !r.we
    ensures Step(Run(s, rs + [b] + cs).0, r).1 == DirectMemory(s.mem, rs, cs)[MemIndex(r.addr)]
  {
    hide Run, Step, DirectMemory, LinesHold, MemIndex, AllLegal, Legal, NoBypass, IsBypass;
    DirectState(s, region, rs, b, cs);
    BypassStep(Run(s, rs + [b] + cs).0, region, r, s.mem, rs);
  }

  lemma MiddleAnswer(s: State, qs: seq<Request>, before: seq<Request>, r: Request, rest: seq<Request>)
    requires IsState(s) && qs == before + [r] + rest
    ensures |Run(s, qs).1| > |before| && Run(s, qs).1[|before|] == Step(Run(s, before).0, r).1
  {
    hide Run, Step;
    AnswerAt(s, before, r, rest);
  }

  lemma PartsLegal(s: State, region: nat, cs: seq<Request>, k: nat)
    requires Started(s, region) && AllLegal(cs, region) && k < |cs|
    ensures IsState(s) && Legal(cs[k], region) && AllLegal(cs[..k], region)
  {
  }

  /** Every read after the handover is answered from that memory. */
  lemma DirectAnswer(s: State, region: nat, rs: seq<Request>, b: Request, cs: seq<Request>, k: nat)
    requires Started(s, region) && AllLegal(rs, region) && NoBypass(rs) && IsBypass(b) && AllLegal(cs, region)
    requires k < |cs| && !cs[k].we
    ensures Run(s, rs + [b] + cs).1[|rs| + 1 + k] == DirectMemory(s.mem, rs, cs[..k])[MemIndex(cs[k].addr)]
  {
    hide *;
    var done, r := cs[..k], cs[k];
    PartsLegal(s, region, cs, k);
    var before := rs + [b] + done;
    NextAnswer(s, region, rs, b, done, r);
    SplitAt(rs + [b], cs, k);
    MiddleAnswer(s, rs + [b] + cs, before, r, cs[k + 1..]);
    assert |before| == |rs| + 1 + k;
  }

  // ------------------------------------------------------- who notices, and when

  /** Every read is answered as a flat memory answers it. */
  ghost predicate AnswersFlat(s: State, qs: seq<Request>)
    requires IsState(s)
  {
    forall k :: 0 <= k < |qs| && !qs[k].we ==> Run(s, qs).1[k] == FlatRun(s.mem, qs[..k])[MemIndex(qs[k].addr)]
  }

  predicate NoFlush(cs: seq<Request>) { forall c :: c in cs ==> !IsFlush(c) }

  lemma {:induction false} DirectWithoutFlush(m: seq<Word>, rs: seq<Request>, cs: seq<Request>)
    requires |m| == MEM_WORDS && NoFlush(cs)
    ensures DirectMemory(m, rs, cs) == FlatRun(Handed(m, rs), cs)
    decreases |cs|
  {
    hide Handed, FlatStep, IsFlush;
    if cs != [] {
      var before, c := cs[..|cs| - 1], cs[|cs| - 1];
      DirectWithoutFlush(m, rs, before);
      assert cs == before + [c];
      FlatConcat(Handed(m, rs), before, [c]);
      OneFlat(FlatRun(Handed(m, rs), before), c);
    }
  }

  lemma OneFlat(m: seq<Word>, r: Request)
    requires |m| == MEM_WORDS
    ensures FlatRun(m, [r]) == FlatStep(m, r)
  {
    assert [r][1..] == [];
  }

  lemma FlatIgnoresBypass(m: seq<Word>, rs: seq<Request>, b: Request, cs: seq<Request>)
    requires |m| == MEM_WORDS && IsBypass(b)
    ensures FlatRun(m, rs + [b] + cs) == FlatRun(FlatRun(m, rs), cs)
  {
    FlatConcat(m, rs + [b], cs);
    FlatConcat(m, rs, [b]);
    OneFlat(FlatRun(m, rs), b);
  }

  lemma PendingIsHanded(m: seq<Word>, rs: seq<Request>)
    requires |m| == MEM_WORDS
    ensures NothingPending(m, rs) <==> Handed(m, rs) == FlatRun(m, rs)
  {
    hide FlatRun;
    if NothingPending(m, rs) { assert forall w :: 0 <= w < MEM_WORDS ==> Handed(m, rs)[w] == FlatRun(m, rs)[w]; }
  }

  lemma EarlierAnswers(s: State, region: nat, rs: seq<Request>, b: Request, cs: seq<Request>, k: nat)
    requires Started(s, region) && AllLegal(rs, region) && NoBypass(rs) && k < |rs| && !rs[k].we
    ensures Run(s, rs + [b] + cs).1[k] == FlatRun(s.mem, rs[..k])[MemIndex(rs[k].addr)]
  {
    hide Run, FlatRun;
    CachedRun(s, region, rs);
    assert rs + [b] + cs == rs + ([b] + cs);
    RunConcat(s, rs, [b] + cs);
  }

  /** Each read after the handover finds in main memory what a flat memory would hold. */
  ghost predicate SameReads(m: seq<Word>, rs: seq<Request>, cs: seq<Request>)
    requires |m| == MEM_WORDS
  {
    forall k :: 0 <= k < |cs| && !cs[k].we ==>
      DirectMemory(m, rs, cs[..k])[MemIndex(cs[k].addr)] == FlatRun(FlatRun(m, rs), cs[..k])[MemIndex(cs[k].addr)]
  }

  lemma LaterAnswer(s: State, region: nat, rs: seq<Request>, b: Request, cs: seq<Request>, k: nat)
    requires Started(s, region) && AllLegal(rs, region) && NoBypass(rs) && IsBypass(b) && AllLegal(cs, region)
    requires k < |cs| && !cs[k].we
    ensures var qs, i := rs + [b] + cs, MemIndex(cs[k].addr);
      && Run(s, qs).1[|rs| + 1 + k] == DirectMemory(s.mem, rs, cs[..k])[i]
      && FlatRun(s.mem, qs[..|rs| + 1 + k])[i] == FlatRun(FlatRun(s.mem, rs), cs[..k])[i]
  {
    hide *;
    DirectAnswer(s, region, rs, b, cs, k);
    MemoryIsWhole(s, region);
    FlatIgnoresBypass(s.mem, rs, b, cs[..k]);
    TakeInside(rs + [b], cs, k);
  }

  lemma MemoryIsWhole(s: State, region: nat)
    requires Started(s, region)
    ensures |s.mem| == MEM_WORDS
  {
  }

  lemma TakeInside(a: seq<Request>, cs: seq<Request>, k: nat)
    requires k <= |cs|
    ensures (a + cs)[..|a| + k] == a + cs[..k]
  {
  }

  /** A run with a handover is answered as by a flat memory if and only if its later reads are of
      words at which main memory agrees with it; all of that is told from the requests. */
  lemma AnswersFlatIff(s: State, region: nat, rs: seq<Request>, b: Request, cs: seq<Request>)
    requires Started(s, region) && AllLegal(rs, region) && NoBypass(rs) && IsBypass(b) && AllLegal(cs, region)
    ensures AnswersFlat(s, rs + [b] + cs) <==> SameReads(s.mem, rs, cs)
  {
    hide Run, FlatRun, MemIndex, DirectMemory;
    var qs := rs + [b] + cs;
    forall k | 0 <= k < |cs| && !cs[k].we
      ensures var i := MemIndex(cs[k].addr);
        && Run(s, qs).1[|rs| + 1 + k] == DirectMemory(s.mem, rs, cs[..k])[i]
        && FlatRun(s.mem, qs[..|rs| + 1 + k])[i] == FlatRun(FlatRun(s.mem, rs), cs[..k])[i]
    {
      LaterAnswer(s, region, rs, b, cs, k);
    }
    if SameReads(s.mem, rs, cs) {
      forall k | 0 <= k < |qs| && !qs[k].we
        ensures Run(s, qs).1[k] == FlatRun(s.mem, qs[..k])[MemIndex(qs[k].addr)]
      {
        if k < |rs| {
          EarlierAnswers(s, region, rs, b, cs, k);
          assert qs[..k] == rs[..k];
        } else {
          assert qs[k] == cs[k - |rs| - 1];
        }
      }
    } else {
      var k :| 0 <= k < |cs| && !cs[k].we && DirectMemory(s.mem, rs, cs[..k])[MemIndex(cs[k].addr)]
        != FlatRun(FlatRun(s.mem, rs), cs[..k])[MemIndex(cs[k].addr)];
      assert qs[|rs| + 1 + k] == cs[k];
    }
  }

  /** With nothing pending, a run that goes on without a flush is answered as by a flat memory. */
  lemma UnnoticedIfNothingPending(s: State, region: nat, rs: seq<Request>, b: Request, cs: seq<Request>)
    requires Started(s, region) && AllLegal(rs, region) && NoBypass(rs) && IsBypass(b)
    requires AllLegal(cs, region) && NoFlush(cs)
    requires NothingPending(s.mem, rs)
    ensures AnswersFlat(s, rs + [b] + cs)
  {
    hide AnswersFlat, FlatRun, MemIndex, DirectMemory, NothingPending;
    PendingIsHanded(s.mem, rs);
    forall k | 0 <= k < |cs|
      ensures DirectMemory(s.mem, rs, cs[..k]) == FlatRun(FlatRun(s.mem, rs), cs[..k])
    {
      DirectWithoutFlush(s.mem, rs, cs[..k]);
    }
    AnswersFlatIff(s, region, rs, b, cs);
  }

  ghost predicate GoesOn(cs: seq<Request>, region: nat) { AllLegal(cs, region) && NoFlush(cs) }

  /** Entering bypass is unnoticed by every client that does not flush afterwards, if and only if no
      word was stored to since it was last written back by a flush or a conflicting access. */
  lemma BypassUnnoticedIff(s: State, region: nat, rs: seq<Request>, b: Request)
    requires Started(s, region) && AllLegal(rs, region) && NoBypass(rs) && IsBypass(b)
    ensures (forall cs {:trigger GoesOn(cs, region)} :: GoesOn(cs, region) ==> AnswersFlat(s, rs + [b] + cs))
       <==> NothingPending(s.mem, rs)
  {
    hide AnswersFlat, NothingPending, FlatRun, Handed;
    if NothingPending(s.mem, rs) {
      forall cs | GoesOn(cs, region) ensures AnswersFlat(s, rs + [b] + cs) {
        UnnoticedIfNothingPending(s, region, rs, b, cs);
      }
    } else {
      PendingIsHanded(s.mem, rs);
      var w :| 0 <= w < MEM_WORDS && Handed(s.mem, rs)[w] != FlatRun(s.mem, rs)[w];
      PendingIsNoticed(s, region, rs, b, w);
      assert GoesOn([Request(false, AddressOf(region, w), 0)], region);
    }
  }

  /** A pending word is noticed by reading it. */
  lemma PendingIsNoticed(s: State, region: nat, rs: seq<Request>, b: Request, w: nat)
    requires Started(s, region) && AllLegal(rs, region) && NoBypass(rs) && IsBypass(b) && w < MEM_WORDS
    requires Handed(s.mem, rs)[w] != FlatRun(s.mem, rs)[w]
    ensures var r := Request(false, AddressOf(region, w), 0);
      GoesOn([r], region) && !AnswersFlat(s, rs + [b] + [r])
  {
    hide Run, FlatRun, Handed;
    var r := Request(false, AddressOf(region, w), 0);
    var qs := rs + [b] + [r];
    SplitOf(region, w);
    ReadIsLegal(region, w);
    DirectAnswer(s, region, rs, b, [r], 0);
    assert [r][..0] == [] && qs[..|rs| + 1] == rs + [b] + [];
    FlatIgnoresBypass(s.mem, rs, b, []);
    NothingAfter(s.mem, rs);
    assert Run(s, qs).1[|rs| + 1] != FlatRun(s.mem, qs[..|rs| + 1])[MemIndex(qs[|rs| + 1].addr)];
  }

  lemma ReadIsLegal(region: nat, w: nat)
    requires region < 0x2_0000 && w < MEM_WORDS
    ensures Legal(Request(false, AddressOf(region, w), 0), region)
  {
    DivModUnique(region * MEM_BYTES + w * 4, MEM_BYTES, region, w * 4);
  }

  lemma NothingAfter(m: seq<Word>, rs: seq<Request>)
    requires |m| == MEM_WORDS
    ensures DirectMemory(m, rs, []) == Handed(m, rs) && FlatRun(FlatRun(m, rs), []) == FlatRun(m, rs)
  {
  }

  /** A flush in bypass state, whatever came between, changes nothing that a client sees, if and only
      if main memory still holds the words that the resident blocks had at the handover. */
  lemma BypassFlushUnnoticedIff(s: State, region: nat, rs: seq<Request>, b: Request, cs: seq<Request>, f: Request)
    requires Started(s, region) && AllLegal(rs, region) && NoBypass(rs) && IsBypass(b) && AllLegal(cs, region)
    requires IsFlush(f) && Legal(f, region)
    ensures View(Run(s, rs + [b] + cs + [f]).0, region) == View(Run(s, rs + [b] + cs).0, region)
       <==> (forall w :: 0 <= w < MEM_WORDS && Resident(rs, w) ==>
               DirectMemory(s.mem, rs, cs)[w] == FlatRun(s.mem, rs)[w])
  {
    hide Run, FlatRun, DirectMemory, Resident, View;
    DirectState(s, region, rs, b, cs);
    var now, t := DirectMemory(s.mem, rs, cs), Run(s, rs + [b] + cs).0;
    var after := Overlaid(s.mem, rs, now);
    RunAppend(s, rs + [b] + cs, f);
    BypassStep(t, region, f, s.mem, rs);
    BypassView(t, region);
    StepIsState(t, f);
    BypassView(Step(t, f).0, region);
    if after == now { assert forall w :: 0 <= w < MEM_WORDS ==> after[w] == now[w]; }
  }

  // ---------------------------------------------------------- runs that fail

  /** A store, bypass, and a load of the same word: the load answers what was there before the
      store, so a flat memory is refuted unless the store changed nothing. */
  lemma StoreThenBypass(s: State, region: nat, store: Request, b: Request, load: Request)
    requires Started(s, region) && Legal(store, region) && Legal(load, region) && IsBypass(b)
    requires store.we && !IsCommand(store) && !load.we && load.addr == store.addr
    ensures Run(s, [store, b, load]).1[2] == s.mem[MemIndex(store.addr)]
    ensures AnswersFlat(s, [store, b, load]) <==> store.wdata == s.mem[MemIndex(store.addr)]
  {
    hide Run, MemIndex, Legal;
    var x, qs := MemIndex(store.addr), [store, b, load];
    assert qs == [store] + [b] + [load] && [load][..0] == [];
    DirectAnswer(s, region, [store], b, [load], 0);
    FirstRequest(s.mem, store, x);
    assert qs[..2] == [store] + [b] + [];
    FlatIgnoresBypass(s.mem, [store], b, []);
    NothingAfter(s.mem, [store]);
    OneFlat(s.mem, store);
  }

  /** After one request no word has been written back yet. */
  lemma FirstRequest(m: seq<Word>, r: Request, w: nat)
    requires |m| == MEM_WORDS && w < MEM_WORDS
    ensures WrittenBack([r], w) == 0 && Handed(m, [r])[w] == m[w]
  {
    assert [r][..0] == [];
  }

  /** A load, bypass, a store to that word, and a flush: the store is lost. */
  lemma StaleFlush(s: State, region: nat, load: Request, b: Request, store: Request, flush: Request)
    requires Started(s, region) && Legal(store, region) && Legal(load, region) && Legal(flush, region)
    requires IsBypass(b) && IsFlush(flush) && store.we && !IsCommand(store) && !load.we && load.addr == store.addr
    ensures Run(s, [load, b, store, flush, load]).1[4] == s.mem[MemIndex(store.addr)]
    ensures FlatRun(s.mem, [load, b, store, flush])[MemIndex(store.addr)] == store.wdata
  {
    hide Run, MemIndex, Legal, FlatRun, Handed;
    var x, cs := MemIndex(store.addr), [store, flush, load];
    assert [load, b, store, flush, load] == [load] + [b] + cs;
    DirectAnswer(s, region, [load], b, cs, 2);
    assert cs[..2] == [store] + [flush] && cs[..2][..1] == [store];
    LoadIsResident(region, load);
    OneFlat(s.mem, load);
    assert [load, b, store, flush] == [load] + [b] + [store, flush];
    FlatIgnoresBypass(s.mem, [load], b, [store, flush]);
    FlatConcat(s.mem, [store], [flush]);
    assert [store] + [flush] == [store, flush];
    OneFlat(s.mem, store);
    OneFlat(FlatStep(s.mem, store), flush);
  }

  lemma LoadIsResident(region: nat, load: Request)
    requires Legal(load, region) && !load.we && region < 0x2_0000
    ensures MemIndex(load.addr) < MEM_WORDS && Resident([load], MemIndex(load.addr))
  {
    hide GetIndex, MemIndex;
    BlocksOfWords(region, load.addr, MemIndex(load.addr));
  }
}
