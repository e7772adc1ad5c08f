/// The state-machine benchmark of core_state.c: the text buffer it is given, the
/// corruption of every step-th byte and its undoing, and the two scans.

module StateBench {
  import opened Arithmetic
  import opened Scanner
  import Crc
  import ListCells

  // ---------------------------------------------------------- corruption

  /** The byte a 16-bit seed is cut to. */
  function LowByte(seed: Short): bv8 { (seed % 0x100) as bv8 }

  /** A visited byte is XORed with the seed, unless it is a comma. */
  function Flipped(c: bv8, seed: bv8): bv8 { if c != COMMA then Xored(c, seed) else c }

  function Xored(c: bv8, seed: bv8): bv8 { c ^ seed }

  /** Every step-th byte is visited. */
  function Corrupted(b: Text, seed: bv8, step: nat): (c: Text)
    requires step > 0
    ensures |c| == |b|
  {
    seq(|b|, i requires 0 <= i < |b| => if i % step == 0 then Flipped(b[i], seed) else b[i])
  }

  predicate HasZero(b: Text) { exists i :: 0 <= i < |b| && b[i] == 0 }

  /** The text before the first zero byte. */
  function UntilZero(b: Text): (s: Text)
    requires HasZero(b)
    ensures |s| < |b| && s == b[..|s|] && b[|s|] == 0 && 0 !in s
  {
    if b[0] == 0 then [] else
      var i :| 0 <= i < |b| && b[i] == 0;
      assert b[1..][i - 1] == 0;
      [b[0]] + UntilZero(b[1..])
  }

  lemma XorBack(c: bv8, x: bv8)
    ensures (c ^ x) ^ x == c
  {
  }

  lemma XorBackOnly(c: bv8, x: bv8, y: bv8)
    requires (c ^ x) ^ y == c
    ensures x == y
  {
  }

  lemma XorSwap(c: bv8, x: bv8, k: bv8)
    requires c ^ x == k
    ensures c == k ^ x
  {
  }

  /** XOR with one byte, then with another. */
  lemma XorTwice(c: bv8, x: bv8, y: bv8)
    ensures (c ^ x) ^ y == c <==> x == y
    ensures (c ^ x) == COMMA <==> c == COMMA ^ x
  {
    XorBack(c, x);
    XorBack(COMMA, x);
    if (c ^ x) ^ y == c { XorBackOnly(c, x, y); }
    if (c ^ x) == COMMA { XorSwap(c, x, COMMA); }
  }

  lemma FlippedTwice(c: bv8, x: bv8, y: bv8)
    ensures Flipped(Flipped(c, x), y) == c <==> c == COMMA || (x == y && c != COMMA ^ x)
  {
    hide Xored;
    XoredTwice(c, x, y);
  }

  lemma XoredTwice(c: bv8, x: bv8, y: bv8)
    ensures Xored(Xored(c, x), y) == c <==> x == y
    ensures Xored(c, x) == COMMA <==> c == COMMA ^ x
  {
    XorTwice(c, x, y);
  }

  ghost predicate SurvivesAt(b: Text, x: bv8, y: bv8, i: int)
    requires 0 <= i < |b|
  {
    b[i] == COMMA || (x == y && b[i] != COMMA ^ x)
  }

  lemma ByteRestored(b: Text, x: bv8, y: bv8, step: nat, i: nat)
    requires step > 0 && i < |b|
    ensures Corrupted(Corrupted(b, x, step), y, step)[i] == b[i] <==> (i % step == 0 ==> SurvivesAt(b, x, y, i))
  {
    hide Flipped;
    FlippedTwice(b[i], x, y);
  }

  /** The second pass undoes the first exactly when the two bytes are equal and no byte that is
      visited turns into a comma (or when all visited bytes are commas). */
  lemma RestoredIff(b: Text, x: bv8, y: bv8, step: nat)
    requires step > 0
    ensures Corrupted(Corrupted(b, x, step), y, step) == b
       <==> (forall i :: 0 <= i < |b| && i % step == 0 ==> SurvivesAt(b, x, y, i))
  {
    hide Corrupted, SurvivesAt;
    var c := Corrupted(Corrupted(b, x, step), y, step);
    forall i | 0 <= i < |b|
      ensures c[i] == b[i] <==> (i % step == 0 ==> SurvivesAt(b, x, y, i))
    {
      ByteRestored(b, x, y, step, i);
    }
    if c == b {
      forall i | 0 <= i < |b| && i % step == 0 ensures SurvivesAt(b, x, y, i) { assert c[i] == b[i]; }
    }
  }

  ghost predicate TwoZeros(b: Text) { |b| >= 2 && b[|b| - 1] == 0 && b[|b| - 2] == 0 }

  /** Of two neighbouring bytes, a step of at least two visits only one. */
  lemma ZeroSurvives(b: Text, x: bv8, step: nat)
    requires TwoZeros(b) && step >= 2
    ensures HasZero(b) && HasZero(Corrupted(b, x, step))
  {
    var i, c := |b| - 2, Corrupted(b, x, step);
    if i % step == 0 {
      DivModUnique(i + 1, step, i / step, 1);
      assert c[i + 1] == 0;
    } else {
      assert c[i] == 0;
    }
    assert b[i] == 0;
  }

  /** No byte becomes a comma, whichever are visited. */
  ghost predicate NoFalseComma(b: Text, x: bv8) {
    forall i :: 0 <= i < |b| ==> SurvivesAt(b, x, x, i)
  }

  /** The buffer after calls with the given steps. */
  function AfterCalls(b: Text, x: bv8, y: bv8, steps: seq<nat>): (c: Text)
    requires forall i :: 0 <= i < |steps| ==> steps[i] > 0
    ensures |c| == |b|
  {
    if steps == [] then b
    else
      var c := AfterCalls(b, x, y, steps[..|steps| - 1]);
      var n := steps[|steps| - 1];
      Corrupted(Corrupted(c, x, n), y, n)
  }

  /** With equal seed bytes and no byte that turns into a comma, any number of calls leave the
      buffer as it was, and both scans of every call end inside it. */
  lemma {:induction false} CallsKeepBuffer(b: Text, x: bv8, steps: seq<nat>)
    requires TwoZeros(b) && NoFalseComma(b, x) && forall i :: 0 <= i < |steps| ==> steps[i] >= 2
    ensures AfterCalls(b, x, x, steps) == b
    ensures forall i :: 0 <= i < |steps| ==>
      HasZero(AfterCalls(b, x, x, steps[..i])) && HasZero(Corrupted(AfterCalls(b, x, x, steps[..i]), x, steps[i]))
    decreases |steps|
  {
    hide Corrupted, HasZero, TwoZeros;
    if steps != [] {
      var rest, n := steps[..|steps| - 1], steps[|steps| - 1];
      CallsKeepBuffer(b, x, rest);
      RestoredIff(b, x, x, n);
      ZeroSurvives(b, x, n);
      assert forall i :: 0 <= i < |rest| ==> rest[..i] == steps[..i] && rest[i] == steps[i];
    }
  }

  /** A step that the list benchmark can pass: 0x22, 0x33, up to 0xff. */
  predicate IsStep(n: int) { n % 0x11 == 0 && 0x22 <= n <= 0xff }

  /** Those are the steps that data words give, no more and no less. */
  lemma StepsOfWords(n: int)
    ensures IsStep(n) <==> exists d: Half :: ListCells.StepOf(d) == n
  {
    if IsStep(n) {
      var d: Half := n / 0x11 * 8;
      assert d / 8 % 0x10 == n / 0x11;
      assert ListCells.StepOf(d) == n;
    } else if exists d: Half :: ListCells.StepOf(d) == n {
      var d: Half :| ListCells.StepOf(d) == n;
      StepFromWord(d);
    }
  }

  lemma StepFromWord(d: Half)
    ensures IsStep(ListCells.StepOf(d))
  {
  }

  predicate Visits(n: int, i: int)
    requires n > 0
  {
    i % n == 0
  }

  /** Every byte that some step visits survives it. */
  ghost predicate VisitedSurvive(b: Text, x: bv8, y: bv8) {
    forall n: int, i: int {:trigger Visits(n, i)} ::
      IsStep(n) && 0 <= i < |b| && Visits(n, i) ==> SurvivesAt(b, x, y, i)
  }

  ghost predicate AllSteps(steps: seq<nat>) { forall i :: 0 <= i < |steps| ==> IsStep(steps[i]) }

  lemma {:induction false} CallsRestore(b: Text, x: bv8, y: bv8, steps: seq<nat>)
    requires VisitedSurvive(b, x, y) && AllSteps(steps)
    ensures AfterCalls(b, x, y, steps) == b
    decreases |steps|
  {
    hide Corrupted, SurvivesAt;
    if steps != [] {
      var n := steps[|steps| - 1];
      CallsRestore(b, x, y, steps[..|steps| - 1]);
      forall i | 0 <= i < |b| && i % n == 0
        ensures SurvivesAt(b, x, y, i)
      {
        assert Visits(n, i);
      }
      RestoredIff(b, x, y, n);
    }
  }

  /** A zero at an offset that no step visits stays. */
  lemma UnvisitedZero(b: Text, x: bv8, n: int, z: nat)
    requires IsStep(n) && z < |b| && z % 0x11 != 0 && b[z] == 0
    ensures Corrupted(b, x, n)[z] == 0
  {
    if z % n == 0 { DivModUnique(z, 0x11, n / 0x11 * (z / n), 0); }
  }

  lemma {:induction false} UnvisitedZeroStays(b: Text, x: bv8, y: bv8, steps: seq<nat>, z: nat)
    requires AllSteps(steps) && z < |b| && z % 0x11 != 0 && b[z] == 0
    ensures AfterCalls(b, x, y, steps)[z] == 0
    decreases |steps|
  {
    hide Corrupted;
    if steps != [] {
      var rest, n := steps[..|steps| - 1], steps[|steps| - 1];
      UnvisitedZeroStays(b, x, y, rest, z);
      var c := AfterCalls(b, x, y, rest);
      UnvisitedZero(c, x, n, z);
      UnvisitedZero(Corrupted(c, x, n), y, n, z);
    }
  }

  /** Whatever the seeds, both scans of every call end inside the buffer: of two neighbouring zeros one
      lies at an offset that is no multiple of 0x11. */
  lemma ScansEndInside(b: Text, x: bv8, y: bv8, steps: seq<nat>, n: int)
    requires TwoZeros(b) && AllSteps(steps) && IsStep(n)
    ensures HasZero(AfterCalls(b, x, y, steps)) && HasZero(Corrupted(AfterCalls(b, x, y, steps), x, n))
  {
    hide Corrupted, AfterCalls;
    var z := if (|b| - 1) % 0x11 == 0 then |b| - 2 else |b| - 1;
    UnvisitedZeroStays(b, x, y, steps, z);
    UnvisitedZero(AfterCalls(b, x, y, steps), x, n, z);
  }

  lemma OneCallRestores(b: Text, x: bv8, y: bv8, n: nat)
    requires n > 0
    ensures AfterCalls(b, x, y, [n]) == Corrupted(Corrupted(b, x, n), y, n)
  {
    assert [n][..0] == [];
  }

  /** All sequences of calls with the steps of the list benchmark leave the buffer as it was if and
      only if each byte that one of these steps visits is a comma, or the two seeds' low bytes agree
      and do not turn it into one. */
  lemma RestoredByCallsIff(b: Text, x: bv8, y: bv8)
    ensures (forall steps: seq<nat> {:trigger AllSteps(steps)} :: AllSteps(steps) ==> AfterCalls(b, x, y, steps) == b)
       <==> VisitedSurvive(b, x, y)
  {
    hide AfterCalls, Corrupted, SurvivesAt;
    if VisitedSurvive(b, x, y) {
      forall steps: seq<nat> | AllSteps(steps)
        ensures AfterCalls(b, x, y, steps) == b
      {
        CallsRestore(b, x, y, steps);
      }
    } else {
      var n: int, i: int :| IsStep(n) && 0 <= i < |b| && Visits(n, i) && !SurvivesAt(b, x, y, i);
      OneCallRestores(b, x, y, n);
      RestoredIff(b, x, y, n);
      assert AllSteps([n]);
    }
  }

  /** One pass over the buffer. */
  method Corrupt(block: array<bv8>, seed: bv8, step: nat)
    requires step > 0
    modifies block
    ensures block[..] == Corrupted(old(block[..]), seed, step)
    ensures forall i :: 0 <= i < block.Length ==>
      block[i] == if i % step == 0 && old(block[i]) != COMMA then old(block[i]) ^ seed else old(block[i])
  {
    ghost var b := block[..];
    ghost var visits := 0;
    var p := 0;
    while p < block.Length
      invariant p == visits * step
      invariant forall i :: 0 <= i < block.Length ==> block[i] == if i < p then Corrupted(b, seed, step)[i] else b[i]
      decreases block.Length - p
    {
      DivModUnique(p, step, visits, 0);
      if block[p] != COMMA { block[p] := Xored(block[p], seed); }
      forall i | p < i < p + step && i < block.Length
        ensures Corrupted(b, seed, step)[i] == b[i]
      {
        DivModUnique(i, step, visits, i - p);
      }
      MulDistributes(visits, 1, step);
      p, visits := p + step, visits + 1;
    }
  }

  // ------------------------------------------------------------- the call

  /** State number i of the source's enumeration. */
  function StateAt(i: nat): (t: State)
    requires i < 8
    ensures Index(t) == i
  {
    match i
    case 0 => Start
    case 1 => Invalid
    case 2 => S1
    case 3 => S2
    case 4 => Int
    case 5 => Float
    case 6 => Exponent
    case 7 => Scientific
  }

  function WordBits(n: nat): Crc.Bits {
    Crc.LongBits((n % 0x1_0000_0000) as bv32)
  }

  /** How often the two scans ended in state t. */
  function FinalCount(s: Text, c: Text, t: State): nat { Occurrences(Calls(s), t) + Occurrences(Calls(c), t) }

  function TrackCount(s: Text, c: Text, t: State): nat { Track(s, t) + Track(c, t) }

  /** The bits of the first i pairs of counters, in the order they are hashed. */
  function CounterBits(s: Text, c: Text, i: nat): Crc.Bits
    requires i <= 8
  {
    if i == 0 then []
    else
      var t := StateAt(i - 1);
      CounterBits(s, c, i - 1) + (WordBits(FinalCount(s, c, t)) + WordBits(TrackCount(s, c, t)))
  }

  lemma ZeroEndsText(block: array<bv8>)
    requires HasZero(block[..])
    ensures IsText(block, 0, UntilZero(block[..]))
  {
    var s := UntilZero(block[..]);
    forall i | 0 <= i < |s| ensures block[0 + i] == s[i] && s[i] != 0 { assert s[i] in s; }
  }

  method HashWord(n: nat, crc: bv16) returns (r: bv16)
    ensures Crc.BitsOf(r, 16) == Crc.Feed(WordBits(n), Crc.BitsOf(crc, 16))
  {
    r := Crc.CrcU32((n % 0x1_0000_0000) as bv32, crc);
  }

  method HashCounters(finals: array<nat>, track: array<nat>, crc: bv16, ghost s: Text, ghost c: Text) returns (r: bv16)
    requires finals.Length == track.Length == 8
    requires forall t :: finals[Index(t)] == FinalCount(s, c, t) && track[Index(t)] == TrackCount(s, c, t)
    ensures Crc.BitsOf(r, 16) == Crc.Feed(CounterBits(s, c, 8), Crc.BitsOf(crc, 16))
  {
    hide Crc.BitsOf, FinalCount, TrackCount, WordBits, Crc.Feed, Crc.Step, StateAt, Index;
    r := crc;
    CountersBegin(s, c, r);
    var i := 0;
    while i < 8
      invariant 0 <= i <= 8
      invariant Crc.BitsOf(r, 16) == Crc.Feed(CounterBits(s, c, i), Crc.BitsOf(crc, 16))
    {
      ghost var t := StateAt(i);
      CountersStep(s, c, i, Crc.BitsOf(crc, 16));
      assert finals[Index(t)] == FinalCount(s, c, t) && track[Index(t)] == TrackCount(s, c, t);
      r := HashWord(finals[i], r);
      r := HashWord(track[i], r);
      i := i + 1;
    }
  }

  function PairBits(s: Text, c: Text, t: State): Crc.Bits {
    WordBits(FinalCount(s, c, t)) + WordBits(TrackCount(s, c, t))
  }

  /** All sixteen counters in the order of the enumeration, each final count before its transition count. */
  lemma CountersInOrder(s: Text, c: Text)
    ensures CounterBits(s, c, 8)
         == PairBits(s, c, Start) + PairBits(s, c, Invalid) + PairBits(s, c, S1) + PairBits(s, c, S2)
          + PairBits(s, c, Int) + PairBits(s, c, Float) + PairBits(s, c, Exponent) + PairBits(s, c, Scientific)
  {
    hide WordBits, FinalCount, TrackCount, PairBits;
    PairAdded(s, c, 0);
    PairAdded(s, c, 1);
    PairAdded(s, c, 2);
    PairAdded(s, c, 3);
    PairAdded(s, c, 4);
    PairAdded(s, c, 5);
    PairAdded(s, c, 6);
    PairAdded(s, c, 7);
    assert CounterBits(s, c, 0) + PairBits(s, c, Start) == PairBits(s, c, Start);
  }

  lemma PairAdded(s: Text, c: Text, i: nat)
    requires i < 8
    ensures CounterBits(s, c, i + 1) == CounterBits(s, c, i) + PairBits(s, c, StateAt(i)) && CounterBits(s, c, 0) == []
  {
  }

  lemma CountersBegin(s: Text, c: Text, crc: bv16)
    ensures Crc.Feed(CounterBits(s, c, 0), Crc.BitsOf(crc, 16)) == Crc.BitsOf(crc, 16)
  {
  }

  lemma CountersStep(s: Text, c: Text, i: nat, r: Crc.Register)
    requires i < 8
    ensures Crc.Feed(CounterBits(s, c, i + 1), r)
         == Crc.Feed(WordBits(TrackCount(s, c, StateAt(i))),
                     Crc.Feed(WordBits(FinalCount(s, c, StateAt(i))), Crc.Feed(CounterBits(s, c, i), r)))
  {
    hide Crc.Feed, WordBits, FinalCount, TrackCount;
    var first, second := WordBits(FinalCount(s, c, StateAt(i))), WordBits(TrackCount(s, c, StateAt(i)));
    Crc.FeedConcat(CounterBits(s, c, i), first + second, r);
    Crc.FeedConcat(first, second, Crc.Feed(CounterBits(s, c, i), r));
  }

  /** Scan, corrupt, scan, undo, hash the counters. */
  method CoreBenchState(block: array<bv8>, seed1: Short, seed2: Short, step: nat, crc: bv16) returns (r: bv16)
    requires step > 0 && HasZero(block[..]) && HasZero(Corrupted(block[..], LowByte(seed1), step))
    modifies block
    ensures block[..] == Corrupted(Corrupted(old(block[..]), LowByte(seed1), step), LowByte(seed2), step)
    ensures var b := old(block[..]); var c := Corrupted(b, LowByte(seed1), step);
      Crc.BitsOf(r, 16) == Crc.Feed(CounterBits(UntilZero(b), UntilZero(c), 8), Crc.BitsOf(crc, 16))
  {
    hide Corrupted, HasZero, UntilZero, LowByte, Crc.BitsOf, CounterBits, Index, IsText, Track, Calls, Occurrences;
    var finals, track := new nat[8](i => 0), new nat[8](i => 0);
    ghost var s := UntilZero(block[..]);
    ZeroEndsText(block);
    ScanText(block, finals, track, s);
    Corrupt(block, LowByte(seed1), step);
    ghost var c := UntilZero(block[..]);
    ZeroEndsText(block);
    ScanText(block, finals, track, c);
    Corrupt(block, LowByte(seed2), step);
    r := HashCounters(finals, track, crc, s, c);
  }

  // ----------------------------------------------------- the initial text

  const INTS: seq<Text> := [
    [0x35, 0x30, 0x31, 0x32],
    [0x31, 0x32, 0x33, 0x34],
    [0x2D, 0x38, 0x37, 0x34],
    [0x2B, 0x31, 0x32, 0x32]
  ] // 5012, 1234, -874, +122

  const FLOATS: seq<Text> := [
    [0x33, 0x35, 0x2E, 0x35, 0x34, 0x34, 0x30, 0x30],
    [0x2E, 0x31, 0x32, 0x33, 0x34, 0x35, 0x30, 0x30],
    [0x2D, 0x31, 0x31, 0x30, 0x2E, 0x37, 0x30, 0x30],
    [0x2B, 0x30, 0x2E, 0x36, 0x34, 0x34, 0x30, 0x30]
  ] // 35.54400, .1234500, -110.700, +0.64400

  const SCIENTIFICS: seq<Text> := [
    [0x35, 0x2E, 0x35, 0x30, 0x30, 0x65, 0x2B, 0x33],
    [0x2D, 0x2E, 0x31, 0x32, 0x33, 0x65, 0x2D, 0x32],
    [0x2D, 0x38, 0x37, 0x65, 0x2B, 0x38, 0x33, 0x32],
    [0x2B, 0x30, 0x2E, 0x36, 0x65, 0x2D, 0x31, 0x32]
  ] // 5.500e+3, -.123e-2, -87e+832, +0.6e-12

  const ERRORS: seq<Text> := [
    [0x54, 0x30, 0x2E, 0x33, 0x65, 0x2D, 0x31, 0x46],
    [0x2D, 0x54, 0x2E, 0x54, 0x2B, 0x2B, 0x54, 0x71],
    [0x31, 0x54, 0x33, 0x2E, 0x34, 0x65, 0x34, 0x7A],
    [0x33, 0x34, 0x2E, 0x30, 0x65, 0x2D, 0x54, 0x5E]
  ] // T0.3e-1F, -T.T++Tq, 1T3.4e4z, 34.0e-T^

  /** The pattern that a seed value selects. */
  function PatternAt(seed: Short): (p: Text)
    ensures |p| == 4 || |p| == 8
  {
    var kind, n := seed % 8, seed / 8 % 4;
    if kind <= 2 then INTS[n] else if kind <= 4 then FLOATS[n] else if kind <= 6 then SCIENTIFICS[n] else ERRORS[n]
  }

  lemma IntStrings()
    ensures Spells(INTS[0], "5012") && Spells(INTS[1], "1234")
    ensures Spells(INTS[2], "-874") && Spells(INTS[3], "+122")
  {
  }

  lemma FloatStrings()
    ensures Spells(FLOATS[0], "35.54400") && Spells(FLOATS[1], ".1234500")
    ensures Spells(FLOATS[2], "-110.700") && Spells(FLOATS[3], "+0.64400")
  {
  }

  lemma ScientificStrings()
    ensures Spells(SCIENTIFICS[0], "5.500e+3") && Spells(SCIENTIFICS[1], "-.123e-2")
    ensures Spells(SCIENTIFICS[2], "-87e+832") && Spells(SCIENTIFICS[3], "+0.6e-12")
  {
  }

  lemma ErrorStrings()
    ensures Spells(ERRORS[0], "T0.3e-1F") && Spells(ERRORS[1], "-T.T++Tq")
    ensures Spells(ERRORS[2], "1T3.4e4z") && Spells(ERRORS[3], "34.0e-T^")
  {
  }

  /** The pattern of a seed as a string, by the seed's low three bits and the two above them. */
  lemma PatternStrings(seed: Short)
    ensures var kind, n := seed % 8, seed / 8 % 4;
      Spells(PatternAt(seed),
        if kind <= 2 then
          (if n == 0 then "5012" else if n == 1 then "1234" else if n == 2 then "-874" else "+122")
        else if kind <= 4 then
          (if n == 0 then "35.54400" else if n == 1 then ".1234500" else if n == 2 then "-110.700" else "+0.64400")
        else if kind <= 6 then
          (if n == 0 then "5.500e+3" else if n == 1 then "-.123e-2" else if n == 2 then "-87e+832" else "+0.6e-12")
        else
          (if n == 0 then "T0.3e-1F" else if n == 1 then "-T.T++Tq" else if n == 2 then "1T3.4e4z" else "34.0e-T^"))
  {
    hide Spells, INTS, FLOATS, SCIENTIFICS, ERRORS;
    IntStrings();
    FloatStrings();
    ScientificStrings();
    ErrorStrings();
  }

  function NextSeed(seed: Short): Short { if seed == 0x7fff then -0x8000 else seed + 1 }

  function SeedAfter(seed: Short, n: nat): Short
    decreases n
  {
    if n == 0 then seed else NextSeed(SeedAfter(seed, n - 1))
  }

  /** The seed counts up on 16 bits. */
  lemma {:induction false} SeedAfterIs(seed: Short, n: nat)
    ensures SeedAfter(seed, n) == Wrap16(seed + n)
    decreases n
  {
    if n > 0 { SeedAfterIs(seed, n - 1); }
  }

  /** The first n patterns after a seed. */
  function Patterns(seed: Short, n: nat): (r: seq<Text>)
    ensures |r| == n
    decreases n
  {
    if n == 0 then [] else Patterns(seed, n - 1) + [PatternAt(SeedAfter(seed, n))]
  }

  function ZeroBytes(n: nat): (z: Text)
    ensures |z| == n
  {
    seq(n, _ => 0)
  }

  lemma {:induction false} JoinedLast(fields: seq<Text>, f: Text)
    ensures Joined(fields + [f]) == Joined(fields) + f + [COMMA]
  {
    if fields == [] {
      assert [f][1..] == [];
      assert f + [COMMA] + [] == [] + f + [COMMA];
    } else {
      JoinedLast(fields[1..], f);
      assert (fields + [f])[1..] == fields[1..] + [f];
      assert Joined(fields + [f]) == fields[0] + [COMMA] + (Joined(fields[1..]) + f + [COMMA]);
    }
  }

  lemma RunFour(s: Text)
    requires |s| == 4
    ensures Run(Start, s) == Next(Next(Next(Next(Start, s[0]), s[1]), s[2]), s[3])
  {
    assert s[..3][..2] == s[..2] && s[..2][..1] == s[..1] && s[..1][..0] == [];
    assert Run(Start, s[..1]) == Next(Start, s[0]);
    assert Run(Start, s[..2]) == Next(Run(Start, s[..1]), s[1]);
    assert Run(Start, s[..3]) == Next(Run(Start, s[..2]), s[2]);
  }

  lemma RunEight(s: Text)
    requires |s| == 8
    ensures Run(Start, s) == Next(Next(Next(Next(Run(Start, s[..4]), s[4]), s[5]), s[6]), s[7])
  {
    assert s[..7][..6] == s[..6] && s[..6][..5] == s[..5] && s[..5][..4] == s[..4];
    assert Run(Start, s[..5]) == Next(Run(Start, s[..4]), s[4]);
    assert Run(Start, s[..6]) == Next(Run(Start, s[..5]), s[5]);
    assert Run(Start, s[..7]) == Next(Run(Start, s[..6]), s[6]);
  }

  lemma {:induction false} IntPatterns(n: nat)
    requires n < 4
    ensures Run(Start, INTS[n]) == Int
  {
    hide Run;
    RunFour(INTS[n]);
  }

  lemma {:induction false} FloatPatterns(n: nat)
    requires n < 4
    ensures Run(Start, FLOATS[n]) == Float
  {
    hide Run;
    RunFour(FLOATS[n][..4]);
    RunEight(FLOATS[n]);
  }

  /** The third "scientific" pattern has no point, so the scanner rejects it at its e. */
  lemma {:induction false} ScientificPatterns(n: nat)
    requires n < 4
    ensures Run(Start, SCIENTIFICS[n]) == if n == 2 then Invalid else Scientific
  {
    hide Run;
    RunFour(SCIENTIFICS[n][..4]);
    RunEight(SCIENTIFICS[n]);
  }

  lemma {:induction false} ErrorPatterns(n: nat)
    requires n < 4
    ensures Run(Start, ERRORS[n]) == Invalid
  {
    hide Run;
    RunFour(ERRORS[n][..4]);
    RunEight(ERRORS[n]);
  }

  /** What the scanner makes of the pattern of a seed. */
  lemma PatternKinds(seed: Short)
    ensures var kind, n, t := seed % 8, seed / 8 % 4, Run(Start, PatternAt(seed));
      && (kind <= 2 <==> t == Int)
      && (3 <= kind <= 4 <==> t == Float)
      && (5 <= kind <= 6 && n != 2 <==> t == Scientific)
      && (kind == 7 || (5 <= kind <= 6 && n == 2) <==> t == Invalid)
  {
    hide Run, INTS, FLOATS, SCIENTIFICS, ERRORS;
    var n := seed / 8 % 4;
    IntPatterns(n);
    FloatPatterns(n);
    ScientificPatterns(n);
    ErrorPatterns(n);
  }

  /** No pattern holds a comma or a zero byte. */
  lemma PatternBytes(seed: Short)
    ensures COMMA !in PatternAt(seed) && 0 !in PatternAt(seed)
  {
  }

  lemma {:induction false} PatternsHaveNoZero(seed: Short, n: nat)
    ensures 0 !in Joined(Patterns(seed, n))
    decreases n
  {
    hide PatternAt;
    if n > 0 {
      PatternsHaveNoZero(seed, n - 1);
      PatternBytes(SeedAfter(seed, n));
      JoinedLast(Patterns(seed, n - 1), PatternAt(SeedAfter(seed, n)));
    }
  }

  lemma {:induction false} TextBeforeZeros(t: Text, n: nat)
    requires 0 !in t && n > 0
    ensures HasZero(t + ZeroBytes(n)) && UntilZero(t + ZeroBytes(n)) == t
    decreases |t|
  {
    var b := t + ZeroBytes(n);
    assert b[|t|] == 0;
    if t != [] {
      TextBeforeZeros(t[1..], n);
      assert b[1..] == t[1..] + ZeroBytes(n);
      assert t[0] in t;
    }
  }

  /** The scan of the initial buffer: pattern after pattern, each on its own. */
  lemma {:induction false} InitialCalls(seed: Short, n: nat)
    ensures Calls(Joined(Patterns(seed, n))) == FlatCalls(Patterns(seed, n))
  {
    forall f | f in Patterns(seed, n) ensures COMMA !in f { PatternOf(seed, n, f); }
    CallsOfFields(Patterns(seed, n));
  }

  /** The first scan of an initial buffer makes the calls of its patterns, one pattern after the other. */
  lemma InitialScan(seed: Short, n: nat, zeros: nat, c: Text, t: State)
    requires zeros > 0
    ensures var b := Joined(Patterns(seed, n)) + ZeroBytes(zeros);
      && HasZero(b) && Calls(UntilZero(b)) == FlatCalls(Patterns(seed, n))
      && FinalCount(UntilZero(b), c, t) == Occurrences(FlatCalls(Patterns(seed, n)), t) + Occurrences(Calls(c), t)
  {
    hide Joined, Patterns, Calls, FlatCalls, HasZero, UntilZero, Occurrences;
    PatternsHaveNoZero(seed, n);
    TextBeforeZeros(Joined(Patterns(seed, n)), zeros);
    InitialCalls(seed, n);
  }

  lemma {:induction false} PatternOf(seed: Short, n: nat, f: Text)
    requires f in Patterns(seed, n)
    ensures COMMA !in f
    decreases n
  {
    hide PatternAt;
    if f == PatternAt(SeedAfter(seed, n)) {
      PatternBytes(SeedAfter(seed, n));
    } else {
      PatternOf(seed, n - 1, f);
    }
  }

  function FlatCalls(fields: seq<Text>): seq<State> {
    if fields == [] then [] else Calls(fields[0] + [COMMA]) + FlatCalls(fields[1..])
  }

  lemma {:induction false} CallsOfFields(fields: seq<Text>)
    requires forall f :: f in fields ==> COMMA !in f
    ensures Calls(Joined(fields)) == FlatCalls(fields)
  {
    if fields != [] {
      CommaResynchronises(fields[0], Joined(fields[1..]));
      CallsOfFields(fields[1..]);
    }
  }

  /** Writes a pattern and a comma. */
  method PutPattern(p: array<bv8>, total: nat, buf: Text)
    requires total + |buf| < p.Length
    modifies p
    ensures p[..total + |buf| + 1] == old(p[..total]) + buf + [COMMA]
    ensures p[total + |buf| + 1..] == old(p[total + |buf| + 1..])
  {
    var i := 0;
    while i < |buf|
      invariant 0 <= i <= |buf|
      invariant p[..total + i] == old(p[..total]) + buf[..i]
      invariant p[total + |buf| + 1..] == old(p[total + |buf| + 1..])
    {
      p[total + i] := buf[i];
      i := i + 1;
    }
    p[total + i] := COMMA;
  }

  method FillZeros(p: array<bv8>, total0: nat, size: nat)
    requires total0 <= size <= p.Length
    modifies p
    ensures p[..size] == old(p[..total0]) + ZeroBytes(size - total0) && p[size..] == old(p[size..])
  {
    var total := total0;
    while total < size
      invariant total0 <= total <= size
      invariant p[..total] == old(p[..total0]) + ZeroBytes(total - total0) && p[size..] == old(p[size..])
    {
      p[total] := 0;
      total := total + 1;
    }
  }

  /** Fills the buffer with comma-separated patterns, then with zeros. */
  method CoreInitState(size: nat, seed0: Short, p: array<bv8>) returns (ghost n: nat)
    requires 1 <= size <= p.Length
    modifies p
    ensures |Joined(Patterns(seed0, n))| <= size
    ensures p[..size] == Joined(Patterns(seed0, n)) + ZeroBytes(size - |Joined(Patterns(seed0, n))|)
    ensures p[size..] == old(p[size..])
    ensures size >= 2 ==> TwoZeros(p[..size])
    ensures size >= 2 ==> HasZero(p[..size]) && UntilZero(p[..size]) == Joined(Patterns(seed0, n))
    ensures |Joined(Patterns(seed0, n + 1))| > size - 2
  {
    hide PatternAt, Patterns, Joined, SeedAfter, HasZero, UntilZero;
    ghost var rest := p[size..];
    var total, next, seed := 0, 0, seed0;
    var buf: Text := [];
    n := 0;
    FirstPattern(seed0);
    while total + next + 1 < size - 1
      invariant next == |buf| && total == |Joined(Patterns(seed0, n))| <= size && (size >= 2 ==> total <= size - 2)
      invariant p[..total] == Joined(Patterns(seed0, n)) && p[size..] == rest
      invariant if next == 0 then n == 0 && seed == seed0
                else seed == SeedAfter(seed0, n + 1) && buf == PatternAt(seed)
      decreases size - total, if next == 0 then 1 else 0
    {
      if next > 0 {
        PutPattern(p, total, buf);
        assert p[size..] == rest;
        OneMorePattern(seed0, n);
        total := total + next + 1;
        n := n + 1;
      }
      seed := NextSeed(seed);
      buf := PatternAt(seed);
      next := |buf|;
      SeedStep(seed0, n);
    }
    OneMorePattern(seed0, n);
    ghost var t := Joined(Patterns(seed0, n));
    FillZeros(p, total, size);
    assert p[..size] == t + ZeroBytes(size - |t|);
    if size >= 2 {
      PatternsHaveNoZero(seed0, n);
      TextBeforeZeros(t, size - |t|);
    }
  }

  lemma FirstPattern(seed: Short)
    ensures Joined(Patterns(seed, 0)) == []
    ensures SeedAfter(seed, 0) == seed
  {
  }

  lemma SeedStep(seed: Short, n: nat)
    ensures SeedAfter(seed, n + 1) == NextSeed(SeedAfter(seed, n))
  {
  }

  lemma OneMorePattern(seed: Short, n: nat)
    ensures Joined(Patterns(seed, n + 1)) == Joined(Patterns(seed, n)) + PatternAt(SeedAfter(seed, n + 1)) + [COMMA]
  {
    JoinedLast(Patterns(seed, n), PatternAt(SeedAfter(seed, n + 1)));
  }

  // ---------------------------------------------------- the official seeds

  /** Low bytes of the seeds of the performance, profile and validation runs. */
  const OFFICIAL: set<bv8> := {0x00, 0x08, 0x15}

  /** The byte that turns into a comma. */
  function FalseComma(x: bv8): bv8 { COMMA ^ x }

  lemma OfficialFalseCommas(x: bv8)
    requires x in OFFICIAL
    ensures FalseComma(x) in {COMMA, 0x24, 0x39}
  {
  }

  lemma PatternAvoids(seed: Short, c: bv8)
    requires c == COMMA || c == 0x24 || c == 0x39
    ensures c !in PatternAt(seed)
  {
  }

  lemma {:induction false} TextAvoids(seed: Short, n: nat, c: bv8)
    requires c == COMMA || c == 0x24 || c == 0x39
    ensures c == COMMA || c !in Joined(Patterns(seed, n))
    decreases n
  {
    hide PatternAt;
    if n > 0 {
      TextAvoids(seed, n - 1, c);
      PatternAvoids(SeedAfter(seed, n), c);
      JoinedLast(Patterns(seed, n - 1), PatternAt(SeedAfter(seed, n)));
    }
  }

  /** With an official seed, every initial buffer survives any number of calls with the steps that
      the list benchmark uses. */
  lemma OfficialRunsKeepBuffer(seed: Short, n: nat, zeros: nat, x: bv8, steps: seq<nat>)
    requires x in OFFICIAL && zeros >= 2 && forall i :: 0 <= i < |steps| ==> 0x22 <= steps[i] <= 0xff
    ensures AfterCalls(Joined(Patterns(seed, n)) + ZeroBytes(zeros), x, x, steps)
         == Joined(Patterns(seed, n)) + ZeroBytes(zeros)
  {
    hide PatternAt, Patterns, Joined, AfterCalls;
    var t := Joined(Patterns(seed, n));
    var b := t + ZeroBytes(zeros);
    OfficialFalseCommas(x);
    TextAvoids(seed, n, FalseComma(x));
    forall i | 0 <= i < |b|
      ensures SurvivesAt(b, x, x, i)
    {
      if i < |t| { assert t[i] in t; }
    }
    CallsKeepBuffer(b, x, steps);
  }

  // ------------------------------------------------ a seed that is not safe

  lemma SmallSeed(n: nat)
    requires n < 0x7ffe
    ensures SeedAfter(1, n) == n + 1
    decreases n
  {
    if n > 0 { SmallSeed(n - 1); }
  }

  /** The patterns after seed 1 take 5 or 9 bytes, by the kind of the seed. */
  lemma NextLength(n: nat)
    requires n < 0x7ffd
    ensures |Joined(Patterns(1, n + 1))| == |Joined(Patterns(1, n))| + if (n + 2) % 8 <= 2 then 5 else 9
  {
    hide Joined, Patterns, SeedAfter, INTS, FLOATS, SCIENTIFICS, ERRORS;
    OneMorePattern(1, n);
    SmallSeed(n + 1);
    PatternLength(n + 2);
  }

  lemma PatternLength(seed: Short)
    ensures |PatternAt(seed)| == if seed % 8 <= 2 then 4 else 8
  {
  }

  /** Eight patterns take 60 bytes. */
  lemma {:induction false} PeriodLength(k: nat)
    requires k < 0x100
    ensures |Joined(Patterns(1, 8 * k))| == 60 * k
  {
    hide Joined, Patterns;
    if k == 0 {
      FirstPattern(1);
    } else {
      var n := 8 * (k - 1);
      PeriodLength(k - 1);
      NextLength(n);
      NextLength(n + 1);
      NextLength(n + 2);
      NextLength(n + 3);
      NextLength(n + 4);
      NextLength(n + 5);
      NextLength(n + 6);
      NextLength(n + 7);
    }
  }

  /** Later patterns leave the earlier text alone. */
  lemma {:induction false} TextGrows(seed: Short, n: nat, m: nat)
    requires n <= m
    ensures |Joined(Patterns(seed, n))| <= |Joined(Patterns(seed, m))|
    ensures Joined(Patterns(seed, n)) == Joined(Patterns(seed, m))[..|Joined(Patterns(seed, n))|]
    decreases m - n
  {
    hide Joined, Patterns, PatternAt;
    if n < m {
      TextGrows(seed, n, m - 1);
      OneMorePattern(seed, m - 1);
    }
  }

  /** The text of seed 1 has a minus sign at offset 374, which is 11 times 0x22. */
  lemma MinusAt374()
    ensures |Joined(Patterns(1, 51))| == 383 && Joined(Patterns(1, 51))[374] == 0x2D
  {
    hide Joined, Patterns, SeedAfter, INTS, SCIENTIFICS, ERRORS;
    PeriodLength(6);
    NextLength(48);
    NextLength(49);
    NextLength(50);
    OneMorePattern(1, 50);
    SmallSeed(51);
    assert PatternAt(52) == FLOATS[2];
  }

  /** Seeds 1 and 1, 666 bytes, step 0x22: the second pass does not undo the first. */
  lemma MinusBecomesComma(b: Text)
    requires |b| > 374 && b[374] == 0x2D
    ensures Corrupted(Corrupted(b, LowByte(1), 0x22), LowByte(1), 0x22) != b
  {
    hide Corrupted;
    assert LowByte(1) == 1;
    assert 374 % 0x22 == 0 && !SurvivesAt(b, 1, 1, 374);
    RestoredIff(b, 1, 1, 0x22);
  }

  lemma InitialMinus(n: nat, zeros: Text)
    requires |Joined(Patterns(1, n + 1))| > 664 && |Joined(Patterns(1, n)) + zeros| == 666
    ensures (Joined(Patterns(1, n)) + zeros)[374] == 0x2D
  {
    hide Joined, Patterns;
    MinusAt374();
    if n < 51 { TextGrows(1, n + 1, 51); } else { TextGrows(1, 51, n); }
  }

  /** The benchmark on the initial text of seed 1, with a step of the list benchmark, changes it
      for good. */
  method NotUndone(block: array<bv8>, crc: bv16) returns (r: bv16, ghost n: nat)
    requires block.Length == 666
    modifies block
    ensures IsStep(0x22) && 664 - 9 < |Joined(Patterns(1, n))| <= 666
    ensures block[..] != Joined(Patterns(1, n)) + ZeroBytes(666 - |Joined(Patterns(1, n))|)
  {
    hide Joined, Patterns, HasZero, Corrupted, UntilZero, CounterBits, LowByte, Crc.BitsOf, Crc.Feed, SeedAfter,
      ZeroBytes, INTS, FLOATS, SCIENTIFICS, ERRORS;
    n := CoreInitState(666, 1, block);
    ghost var initial := block[..666];
    assert block[..] == initial;
    OneMorePattern(1, n);
    ZeroSurvives(initial, LowByte(1), 0x22);
    InitialMinus(n, ZeroBytes(666 - |Joined(Patterns(1, n))|));
    MinusBecomesComma(initial);
    r := CoreBenchState(block, 1, 1, 0x22, crc);
  }
}
