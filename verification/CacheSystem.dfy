/// The cache, the main memory and the request loop as objects that are updated in
/// place, proved against the functions of `CacheModel`.

module CacheSystem {
  import opened Arithmetic
  import opened CacheModel
  import CacheProof

  /** The word array behind the cache. */
  class MainMemory {
    const mem: array<Word>

    constructor (initial: seq<Word>)
      requires |initial| == MEM_WORDS
      ensures mem.Length == MEM_WORDS && mem[..] == initial && fresh(mem)
    {
      mem := new Word[MEM_WORDS](i requires 0 <= i < MEM_WORDS => initial[i]);
      new;
      assert mem[..] == initial;
    }

    /** One blocking four-byte transfer; returns the word that the data pointer then holds. */
    method Transport(write: bool, address: nat, word: Word) returns (r: Word)
      requires mem.Length == MEM_WORDS && address < MEM_BYTES
      modifies mem
      ensures mem[..] == if write then old(mem[..])[address / 4 := word] else old(mem[..])
      ensures r == if write then word else old(mem[address / 4])
    {
      var adr := address / 4;
      r := word;
      if write {
        mem[adr] := word;
      } else {
        r := mem[adr];
      }
    }
  }

  /** The direct-mapped cache. */
  class CacheMemory {
    const cacheArray: array<Line>

    /** create_cache and initialize_cache: every line invalid, with patterned data. */
    constructor ()
      ensures cacheArray.Length == BLOCKS && fresh(cacheArray)
      ensures forall i :: 0 <= i < BLOCKS ==>
          !cacheArray[i].valid && cacheArray[i].tag == 0 && |cacheArray[i].data| == BLOCK_WORDS
    {
      cacheArray := new Line[BLOCKS](i => Line(0, false, InitialBlock(i)));
    }

    ghost predicate Valid()
      reads cacheArray
    {
      cacheArray.Length == BLOCKS && forall i :: 0 <= i < BLOCKS ==> |cacheArray[i].data| == BLOCK_WORDS
    }

    method CacheHit(address: Word) returns (hit: bool)
      requires Valid()
      ensures hit <==> cacheArray[GetIndex(address)].valid && cacheArray[GetIndex(address)].tag == GetTag(address)
    {
      var index, tag := GetIndex(address), GetTag(address);
      hit := cacheArray[index].valid && tag == cacheArray[index].tag;
    }

    method AddEntry(address: Word, newData: seq<Word>)
      requires Valid() && |newData| == BLOCK_WORDS
      modifies cacheArray
      ensures Valid()
      ensures cacheArray[..] == old(cacheArray[..])[GetIndex(address) := Line(GetTag(address), true, newData)]
    {
      var index, tag := GetIndex(address), GetTag(address);
      cacheArray[index] := Line(tag, true, newData);
    }

    method GetWord(address: Word) returns (word: Word)
      requires Valid() && address % 4 == 0
      ensures word == cacheArray[GetIndex(address)].data[GetBlockOffset(address) / 4]
    {
      var newData := cacheArray[GetIndex(address)].data;
      word := newData[GetBlockOffset(address) / 4];
    }

    /** Reads the block, changes one word and adds the entry again, once per byte of the block. */
    method SetWord(address: Word, word: Word)
      requires Valid() && address % 4 == 0
      modifies cacheArray
      ensures Valid()
      ensures cacheArray[..] == old(cacheArray[..])[GetIndex(address) :=
        Line(GetTag(address), true, old(cacheArray[GetIndex(address)].data)[GetBlockOffset(address) / 4 := word])]
    {
      ghost var before := cacheArray[..];
      var newData := cacheArray[GetIndex(address)].data[GetBlockOffset(address) / 4 := word];
      ghost var after := before[GetIndex(address) := Line(GetTag(address), true, newData)];
      AddEntry(address, newData);
      var i := 1;
      while i < BLOCK_BYTES
        invariant Valid() && cacheArray[..] == after
      {
        AddEntry(address, newData);
        i := i + 1;
      }
    }

    method GetAddressAtIndex(index: nat) returns (address: Word)
      requires Valid() && index < BLOCKS
      ensures address == Rebuild(cacheArray[index].tag, index)
    {
      address := (cacheArray[index].tag * (BLOCK_BYTES * BLOCKS) + index * BLOCK_BYTES) % 0x1_0000_0000;
    }
  }

  /** Byte j of line i starts as i*j truncated to eight bits; words are little-endian. */
  function InitialBlock(i: nat): (data: seq<Word>)
    ensures |data| == BLOCK_WORDS
  {
    seq(BLOCK_WORDS, k requires 0 <= k < BLOCK_WORDS =>
      i * (4 * k) % 0x100 + i * (4 * k + 1) % 0x100 * 0x100
      + i * (4 * k + 2) % 0x100 * 0x1_0000 + i * (4 * k + 3) % 0x100 * 0x100_0000)
  }

  /** The request side: cache, memory and bypass state, and the word exchanged with the bus. */
  class MemoryRequest {
    const cache: CacheMemory
    const memory: MainMemory
    var bypassState: bool
    var rwdata: Word
    var hits: nat
    var misses: nat

    ghost predicate Valid()
      reads this, cache.cacheArray, memory.mem
    {
      cache.Valid() && memory.mem.Length == MEM_WORDS
    }

    ghost function Snapshot(): (s: State)
      requires Valid()
      reads this, cache.cacheArray, memory.mem
      ensures IsState(s)
    {
      State(cache.cacheArray[..], memory.mem[..], bypassState)
    }

    constructor (initial: seq<Word>)
      requires |initial| == MEM_WORDS
      ensures Valid() && !bypassState && memory.mem[..] == initial && fresh(cache.cacheArray) && fresh(memory.mem)
      ensures forall i :: 0 <= i < BLOCKS ==> !cache.cacheArray[i].valid
    {
      cache := new CacheMemory();
      memory := new MainMemory(initial);
      bypassState := false;
      rwdata, hits, misses := 0, 0, 0;
    }

    /** Reads n words into a buffer, one transfer each. */
    method ReadBuffer(addr: Word, n: nat) returns (buffer: seq<Word>)
      requires Valid()
      modifies memory.mem
      ensures Valid() && memory.mem[..] == old(memory.mem[..])
      ensures buffer == ReadWords(memory.mem[..], addr, n)
    {
      buffer := [];
      var i := 0;
      while i < n
        invariant 0 <= i <= n && Valid() && memory.mem[..] == old(memory.mem[..])
        invariant buffer == ReadWords(memory.mem[..], addr, i)
      {
        var w := memory.Transport(false, (addr + i * 4) % MEM_BYTES, 0);
        buffer := buffer + [w];
        i := i + 1;
      }
    }

    /** Writes a buffer to memory, one transfer each. */
    method WriteBuffer(addr: Word, buffer: seq<Word>)
      requires Valid()
      modifies memory.mem
      ensures Valid() && memory.mem[..] == WriteWords(old(memory.mem[..]), addr, buffer)
    {
      var i := 0;
      while i < |buffer|
        invariant 0 <= i <= |buffer| && Valid()
        invariant memory.mem[..] == WriteWords(old(memory.mem[..]), addr, buffer[..i])
      {
        var _ := memory.Transport(true, (addr + i * 4) % MEM_BYTES, buffer[i]);
        assert buffer[..i + 1][..i] == buffer[..i];
        i := i + 1;
      }
      assert buffer[..i] == buffer;
    }

    /** Writes every valid line back; the lines stay valid. */
    method Flush()
      requires Valid()
      modifies memory.mem
      ensures Valid() && memory.mem[..] == FlushLines(old(Snapshot()), BLOCKS)
    {
      ghost var s := Snapshot();
      var i := 0;
      while i < BLOCKS
        invariant 0 <= i <= BLOCKS && Valid() && cache.cacheArray[..] == s.lines
        invariant memory.mem[..] == FlushLines(s, i)
      {
        if cache.cacheArray[i].valid {
          var address := cache.GetAddressAtIndex(i);
          WriteBuffer(address, cache.cacheArray[i].data);
        }
        i := i + 1;
      }
    }

    /** A miss: read the block, write the victim back if valid, replace the entry. */
    method Miss(addr: Word) returns (block: seq<Word>)
      requires Valid() && addr % 4 == 0
      modifies cache.cacheArray, memory.mem, this`misses
      ensures Valid() && Snapshot() == Fill(old(Snapshot()), addr)
      ensures block == Fill(old(Snapshot()), addr).lines[GetIndex(addr)].data && misses == old(misses) + 1
    {
      misses := misses + 1;
      block := ReadBuffer(GetBaseAddress(addr), BLOCK_WORDS);
      var index := GetIndex(addr);
      if cache.cacheArray[index].valid {
        var address := cache.GetAddressAtIndex(index);
        WriteBuffer(address, cache.cacheArray[index].data);
      }
      cache.AddEntry(addr, block);
    }

    /** One request, as thread_process serves it. */
    method Serve(r: Request)
      requires Valid() && r.addr % 4 == 0
      modifies this`bypassState, this`rwdata, this`hits, this`misses, cache.cacheArray, memory.mem
      ensures Valid() && Snapshot() == Step(old(Snapshot()), r).0 && rwdata == Step(old(Snapshot()), r).1
      ensures var cached := !IsCommand(r) && !old(bypassState); var hit := Hit(old(Snapshot()), r.addr);
        hits == old(hits) + (if cached && hit then 1 else 0)
        && misses == old(misses) + (if cached && !hit then 1 else 0)
    {
      ghost var s := Snapshot();
      rwdata := r.wdata;
      if r.we && r.addr % MEM_BYTES == COMMAND {
        if rwdata == 1 {
          Flush();
        } else if rwdata == 2 {
          bypassState := true;
        }
      } else if bypassState {
        if r.we {
          WriteBuffer(r.addr, [rwdata]);
        } else {
          var buffer := ReadBuffer(r.addr, 1);
          rwdata := buffer[0];
        }
      } else {
        var hit := cache.CacheHit(r.addr);
        if hit {
          hits := hits + 1;
          var word := cache.GetWord(r.addr);
          if r.we {
            cache.SetWord(r.addr, rwdata);
          } else {
            rwdata := word;
          }
        } else {
          var block := Miss(r.addr);
          if r.we {
            cache.SetWord(r.addr, rwdata);
          }
          rwdata := block[GetBlockOffset(r.addr) / 4];
        }
      }
    }

    /** The request loop: the run of the step function. From an empty cache, every disciplined run of
        requests in one region is answered as a flat memory answers it. */
    method Process(rs: seq<Request>, ghost region: nat) returns (responses: seq<Word>)
      requires Valid() && region < 0x2_0000
      requires !bypassState && forall i :: 0 <= i < BLOCKS ==> !cache.cacheArray[i].valid
      requires forall r :: r in rs ==> Legal(r, region)
      modifies this`bypassState, this`rwdata, this`hits, this`misses, cache.cacheArray, memory.mem
      ensures Valid() && |responses| == |rs| && (Snapshot(), responses) == CacheProof.Run(old(Snapshot()), rs)
      ensures CacheProof.Disciplined(CacheProof.Clean, rs) ==>
        && CacheProof.View(Snapshot(), region) == CacheProof.FlatRun(old(memory.mem[..]), rs)
        && forall k :: 0 <= k < |rs| && !rs[k].we ==>
          responses[k] == CacheProof.FlatRun(old(memory.mem[..]), rs[..k])[MemIndex(rs[k].addr)]
    {
      ghost var s := Snapshot();
      responses := [];
      var i := 0;
      while i < |rs|
        invariant 0 <= i <= |rs| && Valid()
        invariant CacheProof.Run(s, rs[..i]) == (Snapshot(), responses)
      {
        assert Legal(rs[i], region);
        Serve(rs[i]);
        responses := responses + [rwdata];
        CacheProof.RunAppend(s, rs[..i], rs[i]);
        assert rs[..i + 1] == rs[..i] + [rs[i]];
        i := i + 1;
      }
      assert rs[..i] == rs;
      if CacheProof.Disciplined(CacheProof.Clean, rs) {
        CacheProof.EmptyIsClean(s, region);
        CacheProof.RunRefinesFlat(CacheProof.Clean, s, region, rs);
      }
    }
  }
}
