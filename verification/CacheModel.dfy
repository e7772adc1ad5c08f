/// What the SystemC cache, its request loop and its main memory compute
/// (tb/systemc_tb/Cache.h, MemoryRequest.h, MainMemory.h), as functions on values.
///
/// One request is one atomic step.  Addresses are word aligned, byte enables are
/// 0xF, and all addresses of a run share the bits above bit 14 (the `region'):
/// tags keep those bits, the 32 KiB memory does not.

module CacheModel {
  import opened Arithmetic

  const BLOCK_BYTES := 16

  const BLOCK_WORDS := 4

  const BLOCKS := 256

  const MEM_WORDS := 8192

  const MEM_BYTES := 0x8000

  const COMMAND := 0x7FFC

  // -------------------------------------------------------- address split

  function GetIndex(address: Word): (i: nat)
    ensures i < BLOCKS
  {
    address / BLOCK_BYTES % BLOCKS
  }

  function GetBlockOffset(address: Word): (o: nat)
    ensures o < BLOCK_BYTES
  {
    address % BLOCK_BYTES
  }

  function GetBaseAddress(address: Word): Word { address / BLOCK_BYTES * BLOCK_BYTES }

  function GetTag(address: Word): Word { address / (BLOCK_BYTES * BLOCKS) }

  /** The address that a tag and an index stand for. */
  function Rebuild(tag: Word, index: nat): Word {
    (tag * (BLOCK_BYTES * BLOCKS) + index * BLOCK_BYTES) % 0x1_0000_0000
  }

  /** Tag, index and offset determine the address, and rebuilding gives the block base. */
  lemma SplitRebuild(address: Word)
    ensures Rebuild(GetTag(address), GetIndex(address)) == GetBaseAddress(address)
    ensures GetBaseAddress(address) + GetBlockOffset(address) == address
  {
  }

  /** The default geometry: 256 lines of 16 bytes in front of 8192 words.  The quotients are the only ones. */
  lemma DefaultGeometry(address: Word)
    ensures address == GetTag(address) * 0x1000 + GetIndex(address) * 0x10 + GetBlockOffset(address)
    ensures GetIndex(address) < 0x100 && GetBlockOffset(address) < 0x10
    ensures MemIndex(address) < 0x2000 && 0 <= address % 0x8000 - 4 * MemIndex(address) < 4
  {
    QuotientTwice(address, 0x10, 0x100);
  }

  lemma SameBlock(a: Word, b: Word)
    ensures GetTag(a) == GetTag(b) && GetIndex(a) == GetIndex(b) <==> GetBaseAddress(a) == GetBaseAddress(b)
  {
  }

  /** The memory word behind an address: the address is masked to 15 bits. */
  function MemIndex(address: int): (w: nat)
    ensures w < MEM_WORDS
  {
    address % MEM_BYTES / 4
  }

  // ------------------------------------------------------------- the state

  datatype Line = Line(tag: Word, valid: bool, data: seq<Word>)

  datatype State = State(lines: seq<Line>, mem: seq<Word>, bypass: bool)

  datatype Request = Request(we: bool, addr: Word, wdata: Word)

  ghost predicate IsState(s: State) {
    && |s.lines| == BLOCKS && |s.mem| == MEM_WORDS
    && forall i :: 0 <= i < BLOCKS ==> |s.lines[i].data| == BLOCK_WORDS
  }

  /** Every valid line caches a block of the region. */
  ghost predicate InRegion(s: State, region: nat) {
    IsState(s) && forall i :: 0 <= i < BLOCKS && s.lines[i].valid ==> s.lines[i].tag / 8 == region
  }

  ghost predicate Legal(r: Request, region: nat) {
    r.addr % 4 == 0 && r.addr / MEM_BYTES == region
  }

  predicate IsCommand(r: Request) { r.we && r.addr % MEM_BYTES == COMMAND }

  predicate IsFlush(r: Request) { IsCommand(r) && r.wdata == 1 }

  predicate IsBypass(r: Request) { IsCommand(r) && r.wdata == 2 }

  predicate Hit(s: State, addr: Word)
    requires |s.lines| == BLOCKS
  {
    s.lines[GetIndex(addr)].valid && s.lines[GetIndex(addr)].tag == GetTag(addr)
  }

  // -------------------------------------------------------- block transfer

  function ReadWords(mem: seq<Word>, addr: int, n: nat): (r: seq<Word>)
    requires |mem| == MEM_WORDS
    ensures |r| == n
  {
    seq(n, k requires 0 <= k < n => mem[MemIndex(addr + k * 4)])
  }

  function WriteWords(mem: seq<Word>, addr: int, data: seq<Word>): (r: seq<Word>)
    requires |mem| == MEM_WORDS
    ensures |r| == MEM_WORDS
    decreases |data|
  {
    if data == [] then mem
    else
      var n := |data| - 1;
      WriteWords(mem, addr, data[..n])[MemIndex(addr + n * 4) := data[n]]
  }

  /** Writes back the valid ones of the first n lines. */
  function FlushLines(s: State, n: nat): (mem: seq<Word>)
    requires |s.lines| == BLOCKS && |s.mem| == MEM_WORDS && n <= BLOCKS
    ensures |mem| == MEM_WORDS
  {
    if n == 0 then s.mem
    else
      var mem := FlushLines(s, n - 1);
      var line := s.lines[n - 1];
      if line.valid then WriteWords(mem, Rebuild(line.tag, n - 1), line.data) else mem
  }

  /** The state after a miss on addr has been filled: the block is read first, then the line
      that is replaced is written back if it is valid. */
  function Fill(s: State, addr: Word): State
    requires IsState(s)
  {
    var i := GetIndex(addr);
    var victim := s.lines[i];
    var block := ReadWords(s.mem, GetBaseAddress(addr), BLOCK_WORDS);
    s.(mem := if victim.valid then WriteWords(s.mem, Rebuild(victim.tag, i), victim.data) else s.mem,
       lines := s.lines[i := Line(GetTag(addr), true, block)])
  }

  function SetWord(s: State, addr: Word, w: Word): State
    requires IsState(s)
  {
    var i := GetIndex(addr);
    var data := s.lines[i].data[GetBlockOffset(addr) / 4 := w];
    s.(lines := s.lines[i := Line(GetTag(addr), true, data)])
  }

  /** One request: the new state and the word left in `rwdata_io'. */
  function Step(s: State, r: Request): (State, Word)
    requires IsState(s)
  {
    if IsCommand(r) then
      if r.wdata == 1 then (s.(mem := FlushLines(s, BLOCKS)), r.wdata)
      else if r.wdata == 2 then (s.(bypass := true), r.wdata)
      else (s, r.wdata)
    else if s.bypass then
      if r.we then (s.(mem := WriteWords(s.mem, r.addr, [r.wdata])), r.wdata)
      else (s, s.mem[MemIndex(r.addr)])
    else if Hit(s, r.addr) then
      if r.we then (SetWord(s, r.addr, r.wdata), r.wdata)
      else (s, s.lines[GetIndex(r.addr)].data[GetBlockOffset(r.addr) / 4])
    else
      var f := Fill(s, r.addr);
      (if r.we then SetWord(f, r.addr, r.wdata) else f,
       f.lines[GetIndex(r.addr)].data[GetBlockOffset(r.addr) / 4])
  }

  /** What is written to the last word of the 32 KiB is no store: 1 writes all valid lines back and keeps
      them, 2 switches to bypass for good, anything else does nothing; nothing else is a command. */
  lemma Commands(s: State, r: Request)
    requires IsState(s)
    ensures var command := r.we && r.addr % 0x8000 == 0x7FFC; var after := Step(s, r).0;
      && (after.bypass <==> s.bypass || (command && r.wdata == 2))
      && (IsFlush(r) <==> command && r.wdata == 1) && (IsBypass(r) <==> command && r.wdata == 2)
      && (command ==> after.lines == s.lines && |after.mem| == |s.mem|)
      && (command && r.wdata != 1 ==> after.mem == s.mem)
      && (r.we && !command && s.bypass ==> after.mem == s.mem[MemIndex(r.addr) := r.wdata])
      && (r.we && !command && !s.bypass ==>
            Hit(after, r.addr) && after.lines[GetIndex(r.addr)].data[r.addr % 0x10 / 4] == r.wdata)
  {
    if r.we && s.bypass && !IsCommand(r) { OneWord(s.mem, r.addr, r.wdata); }
  }

  lemma OneWord(mem: seq<Word>, addr: int, w: Word)
    requires |mem| == MEM_WORDS
    ensures WriteWords(mem, addr, [w]) == mem[MemIndex(addr) := w]
  {
    assert WriteWords(mem, addr, [w][..0]) == mem;
  }
}
