/// The number scanner of core_state.c: a state machine over the bytes of a field,
/// and the language it accepts.

module Scanner {

  datatype State = Start | Invalid | S1 | S2 | Int | Float | Exponent | Scientific

  type Text = seq<bv8>

  const COMMA: bv8 := 0x2C

  predicate IsDigit(c: bv8) { 0x30 <= c <= 0x39 }

  /** Plus or minus. */
  predicate IsSign(c: bv8) { c == 0x2B || c == 0x2D }

  predicate IsPoint(c: bv8) { c == 0x2E }

  /** The letter e, upper or lower case. */
  predicate IsE(c: bv8) { c == 0x45 || c == 0x65 }

  /** The bytes are the characters of the string. */
  predicate Spells(t: Text, s: string) { |t| == |s| && forall i :: 0 <= i < |t| ==> t[i] as int == s[i] as int }

  /** The classes by their characters. */
  lemma CharClasses(c: bv8)
    ensures IsDigit(c) <==> '0' as int <= c as int <= '9' as int
    ensures IsSign(c) <==> c as int == '+' as int || c as int == '-' as int
    ensures IsPoint(c) <==> c as int == '.' as int
    ensures IsE(c) <==> c as int == 'e' as int || c as int == 'E' as int
    ensures COMMA as int == ',' as int
  {
  }

  // ---------------------------------------------------------- the language

  predicate Digits(s: Text) { forall i :: 0 <= i < |s| ==> IsDigit(s[i]) }

  function Unsigned(s: Text): Text { if s != [] && IsSign(s[0]) then s[1..] else s }

  /** [+-]?D+ */
  predicate IsInt(s: Text) { Unsigned(s) != [] && Digits(Unsigned(s)) }

  predicate PointAt(s: Text, i: nat) { i < |s| && IsPoint(s[i]) && Digits(s[..i]) && Digits(s[i + 1..]) }

  /** [+-]?D*.D* */
  ghost predicate IsFloat(s: Text) { exists i: nat :: PointAt(Unsigned(s), i) }

  ghost predicate ExponentAt(s: Text, i: nat) {
    i + 2 < |s| && IsFloat(s[..i]) && IsE(s[i]) && IsSign(s[i + 1]) && Digits(s[i + 2..])
  }

  /** A float, then [eE][+-]D+ */
  ghost predicate IsScientific(s: Text) { exists i: nat :: ExponentAt(s, i) }

  ghost predicate IsNumber(s: Text) { IsInt(s) || IsFloat(s) || IsScientific(s) }

  /** Some continuation makes it a number. */
  ghost predicate Viable(s: Text) { exists rest: Text :: IsNumber(s + rest) }

  // ----------------------------------------------------- the state machine

  /** One character that is not a comma. */
  function Next(state: State, c: bv8): State {
    match state
    case Start => if IsDigit(c) then Int else if IsSign(c) then S1 else if IsPoint(c) then Float else Invalid
    case S1 => if IsDigit(c) then Int else if IsPoint(c) then Float else Invalid
    case Int => if IsPoint(c) then Float else if IsDigit(c) then Int else Invalid
    case Float => if IsE(c) then S2 else if IsDigit(c) then Float else Invalid
    case S2 => if IsSign(c) then Exponent else Invalid
    case Exponent => if IsDigit(c) then Scientific else Invalid
    case Scientific => if IsDigit(c) then Scientific else Invalid
    case Invalid => Invalid
  }

  function Run(state: State, s: Text): State {
    if s == [] then state else Next(Run(state, s[..|s| - 1]), s[|s| - 1])
  }

  lemma {:induction false} RunConcat(state: State, a: Text, b: Text)
    ensures Run(state, a + b) == Run(Run(state, a), b)
    decreases |b|
  {
    if b == [] {
      assert a + b == a;
    } else {
      var c := b[..|b| - 1];
      RunConcat(state, a, c);
      assert (a + b)[..|a + b| - 1] == a + c;
    }
  }

  /** What has been read when the machine is in a state. */
  ghost predicate Shape(t: State, s: Text) {
    match t
    case Start => s == []
    case S1 => |s| == 1 && IsSign(s[0])
    case Int => IsInt(s)
    case Float => IsFloat(s)
    case S2 => |s| >= 1 && IsFloat(s[..|s| - 1]) && IsE(s[|s| - 1])
    case Exponent => |s| >= 2 && IsFloat(s[..|s| - 2]) && IsE(s[|s| - 2]) && IsSign(s[|s| - 1])
    case Scientific => IsScientific(s)
    case Invalid => true
  }

  lemma StartStep(s: Text, c: bv8)
    requires s == []
    ensures Shape(Next(Start, c), s + [c])
  {
    assert s + [c] == [c];
    if IsPoint(c) { assert PointAt(Unsigned([c]), 0); }
  }

  lemma SignStep(s: Text, c: bv8)
    requires Shape(S1, s)
    ensures Shape(Next(S1, c), s + [c])
  {
    assert Unsigned(s + [c]) == [c];
    if IsPoint(c) { assert PointAt([c], 0); }
  }

  lemma IntStep(s: Text, c: bv8)
    requires IsInt(s)
    ensures Shape(Next(Int, c), s + [c])
  {
    var u := Unsigned(s);
    assert Unsigned(s + [c]) == u + [c];
    if IsPoint(c) {
      assert (u + [c])[..|u|] == u;
      assert PointAt(u + [c], |u|);
    }
  }

  lemma FloatStep(s: Text, c: bv8)
    requires IsFloat(s)
    ensures Shape(Next(Float, c), s + [c])
  {
    var u, r := Unsigned(s), s + [c];
    var i: nat :| PointAt(u, i);
    assert r[..|r| - 1] == s;
    if IsDigit(c) {
      assert Unsigned(r) == u + [c];
      assert (u + [c])[..i] == u[..i] && (u + [c])[i + 1..] == u[i + 1..] + [c];
      assert PointAt(u + [c], i);
    }
  }

  lemma ExponentStep(s: Text, c: bv8)
    requires Shape(Exponent, s)
    ensures Shape(Next(Exponent, c), s + [c])
  {
    hide IsFloat;
    if IsDigit(c) {
      var r, i := s + [c], |s| - 2;
      assert r[..i] == s[..i] && r[i + 2..] == [c];
      assert ExponentAt(r, i);
    }
  }

  lemma ScientificStep(s: Text, c: bv8)
    requires IsScientific(s)
    ensures Shape(Next(Scientific, c), s + [c])
  {
    hide IsFloat;
    if IsDigit(c) {
      var r := s + [c];
      var i: nat :| ExponentAt(s, i);
      assert r[..i] == s[..i] && r[i + 2..] == s[i + 2..] + [c];
      assert ExponentAt(r, i);
    }
  }

  lemma ShapeStep(t: State, s: Text, c: bv8)
    requires Shape(t, s)
    ensures Shape(Next(t, c), s + [c])
  {
    hide IsFloat, IsInt, IsScientific;
    match t {
      case Start => StartStep(s, c);
      case S1 => SignStep(s, c);
      case Int => IntStep(s, c);
      case Float => FloatStep(s, c);
      case S2 => assert (s + [c])[..|s| - 1] == s[..|s| - 1];
      case Exponent => ExponentStep(s, c);
      case Scientific => ScientificStep(s, c);
      case Invalid =>
    }
  }

  /** Whatever state the machine reaches, the text read has the shape of that state. */
  lemma {:induction false} RunShape(s: Text)
    ensures Shape(Run(Start, s), s)
    decreases |s|
  {
    if s != [] {
      var r, c := s[..|s| - 1], s[|s| - 1];
      RunShape(r);
      ShapeStep(Run(Start, r), r, c);
      assert r + [c] == s;
    }
  }

  lemma {:induction false} RunDigits(t: State, s: Text)
    requires Digits(s) && t in {Int, Float, Scientific}
    ensures Run(t, s) == t
    decreases |s|
  {
    if s != [] { RunDigits(t, s[..|s| - 1]); }
  }

  lemma RunOne(t: State, c: bv8)
    ensures Run(t, [c]) == Next(t, c)
  {
    assert [c][..0] == [];
    assert Run(t, []) == t;
  }

  /** The machine after an optional sign. */
  lemma RunSign(s: Text) returns (t: State)
    ensures t in {Start, S1} && Run(Start, s) == Run(t, Unsigned(s))
  {
    if s != [] && IsSign(s[0]) {
      assert s == [s[0]] + s[1..];
      RunConcat(Start, [s[0]], s[1..]);
      RunOne(Start, s[0]);
      t := S1;
    } else {
      t := Start;
    }
  }

  lemma RunFirstDigits(t: State, s: Text)
    requires Digits(s) && s != [] && t in {Start, S1}
    ensures Run(t, s) == Int
  {
    assert s == [s[0]] + s[1..];
    RunConcat(t, [s[0]], s[1..]);
    RunOne(t, s[0]);
    RunDigits(Int, s[1..]);
  }

  lemma RunInt(s: Text)
    requires IsInt(s)
    ensures Run(Start, s) == Int
  {
    var t := RunSign(s);
    RunFirstDigits(t, Unsigned(s));
  }

  lemma RunPoint(t: State, u: Text, i: nat)
    requires PointAt(u, i) && t in {Start, S1}
    ensures Run(t, u) == Float
  {
    hide Digits, Run;
    assert u == u[..i] + [u[i]] + u[i + 1..];
    RunConcat(t, u[..i] + [u[i]], u[i + 1..]);
    RunConcat(t, u[..i], [u[i]]);
    RunOne(Run(t, u[..i]), u[i]);
    RunDigits(Float, u[i + 1..]);
    RunPart(t, u[..i]);
  }

  lemma RunPart(t: State, s: Text)
    requires Digits(s) && t in {Start, S1}
    ensures Run(t, s) in {Start, S1, Int}
  {
    if s != [] { RunFirstDigits(t, s); }
  }

  lemma RunFloat(s: Text)
    requires IsFloat(s)
    ensures Run(Start, s) == Float
  {
    hide PointAt, Unsigned, Run;
    var t := RunSign(s);
    var i: nat :| PointAt(Unsigned(s), i);
    RunPoint(t, Unsigned(s), i);
  }

  lemma RunScientific(s: Text)
    requires IsScientific(s)
    ensures Run(Start, s) == Scientific
  {
    var i: nat :| ExponentAt(s, i);
    RunFloat(s[..i]);
    RunExponent(s, i);
  }

  lemma RunExponent(s: Text, i: nat)
    requires i + 2 < |s| && Run(Start, s[..i]) == Float && IsE(s[i]) && IsSign(s[i + 1]) && Digits(s[i + 2..])
    ensures Run(Start, s) == Scientific
  {
    assert s == s[..i] + [s[i]] + [s[i + 1]] + [s[i + 2]] + s[i + 3..];
    RunConcat(Start, s[..i] + [s[i]] + [s[i + 1]] + [s[i + 2]], s[i + 3..]);
    RunConcat(Start, s[..i] + [s[i]] + [s[i + 1]], [s[i + 2]]);
    RunConcat(Start, s[..i] + [s[i]], [s[i + 1]]);
    RunConcat(Start, s[..i], [s[i]]);
    RunOne(Float, s[i]);
    RunOne(S2, s[i + 1]);
    assert IsDigit(s[i + 2..][0]);
    RunOne(Exponent, s[i + 2]);
    assert s[i + 2..][1..] == s[i + 3..];
    RunDigits(Scientific, s[i + 3..]);
  }

  /** The three kinds of number are exactly what the machine accepts in its three final states. */
  lemma RunMeaning(s: Text)
    ensures Run(Start, s) == Int <==> IsInt(s)
    ensures Run(Start, s) == Float <==> IsFloat(s)
    ensures Run(Start, s) == Scientific <==> IsScientific(s)
  {
    RunShape(s);
    if IsInt(s) { RunInt(s); }
    if IsFloat(s) { RunFloat(s); }
    if IsScientific(s) { RunScientific(s); }
  }

  lemma {:induction false} RunInvalid(s: Text)
    ensures Run(Invalid, s) == Invalid
    decreases |s|
  {
    if s != [] { RunInvalid(s[..|s| - 1]); }
  }

  /** A way to finish a number from each state. */
  function Finish(t: State): (r: Text) {
    match t
    case Start => [0x30]
    case S1 => [0x30]
    case S2 => [0x2B, 0x30]
    case Exponent => [0x30]
    case _ => []
  }

  lemma FinishRuns(t: State)
    requires t != Invalid
    ensures Run(t, Finish(t)) in {Int, Float, Scientific}
  {
    if t == S2 {
      assert Finish(t) == [0x2B] + [0x30];
      RunConcat(t, [0x2B], [0x30]);
      RunOne(t, 0x2B);
      RunOne(Exponent, 0x30);
    } else if Finish(t) != [] {
      RunOne(t, 0x30);
    }
  }

  /** The machine gives up exactly when no continuation is a number. */
  lemma InvalidIsHopeless(s: Text)
    ensures Run(Start, s) != Invalid <==> Viable(s)
  {
    var t := Run(Start, s);
    if t != Invalid {
      FinishRuns(t);
      RunConcat(Start, s, Finish(t));
      RunMeaning(s + Finish(t));
      assert IsNumber(s + Finish(t));
    }
    if Viable(s) {
      var rest :| IsNumber(s + rest);
      RunMeaning(s + rest);
      RunConcat(Start, s, rest);
      RunInvalid(rest);
    }
  }

  // -------------------------------------------------------- transition counts

  /** How a character read in a state changes the counter of state t. */
  function Bump(state: State, c: bv8, t: State): nat {
    var to := Next(state, c);
    if state == t && to != t && state != Scientific then 1
    else if t == Invalid && to == Invalid && state in {Start, Scientific} then 1
    else 0
  }

  /** The change of counter t over a field. */
  function Tally(s: Text, t: State): nat {
    if s == [] then 0
    else Tally(s[..|s| - 1], t) + Bump(Run(Start, s[..|s| - 1]), s[|s| - 1], t)
  }

  ghost predicate Visited(s: Text, t: State) { exists i: nat :: i <= |s| && Run(Start, s[..i]) == t }

  function Rank(t: State): nat {
    match t
    case Start => 0
    case S1 => 1
    case Int => 2
    case Float => 3
    case S2 => 4
    case Exponent => 5
    case Scientific => 6
    case Invalid => 7
  }

  lemma VisitedStep(s: Text, t: State)
    requires s != []
    ensures Visited(s, t) <==> Visited(s[..|s| - 1], t) || Run(Start, s) == t
  {
    hide Run;
    var r := s[..|s| - 1];
    if Visited(s, t) {
      var i: nat :| i <= |s| && Run(Start, s[..i]) == t;
      if i < |s| { assert r[..i] == s[..i]; } else { assert s[..i] == s; }
    }
    if Visited(r, t) {
      var i: nat :| i <= |r| && Run(Start, r[..i]) == t;
      assert s[..i] == r[..i];
    }
    assert s[..|s|] == s;
  }

  /** States come in one order, and none is entered again after it was left. */
  lemma {:induction false} VisitedRanks(s: Text, t: State)
    requires Visited(s, t)
    ensures Rank(t) <= Rank(Run(Start, s))
    decreases |s|
  {
    if s != [] {
      VisitedStep(s, t);
      if Run(Start, s) != t { VisitedRanks(s[..|s| - 1], t); }
    }
  }

  /** A call raises a counter by one if it passed through that state and did not stop in it.
      Two counters are special: the scientific one never moves, and the invalid one counts only
      numbers given up at their first character or inside the exponent's digits. */
  lemma {:induction false} TallyMeaning(s: Text, t: State)
    ensures t != Scientific && t != Invalid ==> Tally(s, t) == if Visited(s, t) && Run(Start, s) != t then 1 else 0
    ensures Tally(s, Scientific) == 0
    ensures Tally(s, Invalid)
         == if Run(Start, s) == Invalid && (Run(Start, s[..1]) == Invalid || Visited(s, Scientific)) then 1 else 0
    decreases |s|
  {
    if s != [] {
      var r := s[..|s| - 1];
      TallyMeaning(r, t);
      VisitedStep(s, t);
      VisitedStep(s, Scientific);
      if Visited(r, t) { VisitedRanks(r, t); }
      if Visited(r, Scientific) { VisitedRanks(r, Scientific); }
      if |s| == 1 { assert s[..1] == s; } else { assert r[..1] == s[..1]; FirstInvalid(r); }
    }
  }

  lemma FirstInvalid(s: Text)
    requires s != []
    ensures Run(Start, s[..1]) == Invalid ==> Run(Start, s) == Invalid
    ensures Run(Start, s) != Start
  {
    assert s == s[..1] + s[1..];
    RunConcat(Start, s[..1], s[1..]);
    RunInvalid(s[1..]);
    RunShape(s);
  }

  // ------------------------------------------------------------- one call

  /** The text up to the first comma. */
  function Field(s: Text): (f: Text)
    ensures |f| <= |s| && f == s[..|f|]
    ensures COMMA !in f && (|f| < |s| ==> s[|f|] == COMMA)
  {
    if s == [] || s[0] == COMMA then [] else [s[0]] + Field(s[1..])
  }

  function TokenState(s: Text): State { Run(Start, Field(s)) }

  /** The length of the shortest prefix that is not the beginning of a number. */
  function Offending(f: Text): (n: nat)
    requires Run(Start, f) == Invalid
    ensures 0 < n <= |f| && Run(Start, f[..n]) == Invalid
    ensures forall i :: 0 <= i < n ==> Run(Start, f[..i]) != Invalid
  {
    assert f[..|f|] == f;
    var r := f[..|f| - 1];
    if Run(Start, r) == Invalid then
      var n := Offending(r);
      assert forall i :: 0 <= i <= |r| ==> r[..i] == f[..i];
      n
    else
      NotBefore(f);
      |f|
  }

  lemma NotBefore(f: Text)
    requires f != [] && Run(Start, f[..|f| - 1]) != Invalid
    ensures forall i :: 0 <= i < |f| ==> Run(Start, f[..i]) != Invalid
  {
    forall i | 0 <= i < |f|
      ensures Run(Start, f[..i]) != Invalid
    {
      if Run(Start, f[..i]) == Invalid { InvalidStays(f, i, |f| - 1); }
    }
  }

  lemma InvalidStays(f: Text, i: nat, j: nat)
    requires i <= j <= |f| && Run(Start, f[..i]) == Invalid
    ensures Run(Start, f[..j]) == Invalid
  {
    assert f[..j] == f[..i] + f[i..j];
    RunConcat(Start, f[..i], f[i..j]);
    RunInvalid(f[i..j]);
  }

  /** How far a call gets: past the field and its comma, or past the offending character. */
  function TokenLength(s: Text): (n: nat)
    ensures n <= |s|
    ensures s != [] ==> n > 0
  {
    var f := Field(s);
    if Run(Start, f) == Invalid then Offending(f) else if |f| < |s| then |f| + 1 else |f|
  }

  /** Scanning past the point of failure changes no counter. */
  lemma {:induction false} TallyStops(f: Text, n: nat, t: State)
    requires n <= |f| && Run(Start, f[..n]) == Invalid
    ensures Tally(f[..n], t) == Tally(f, t)
    decreases |f|
  {
    if n == |f| {
      assert f[..n] == f;
    } else {
      var r := f[..|f| - 1];
      assert r[..n] == f[..n];
      TallyStops(r, n, t);
      InvalidStays(f, n, |f| - 1);
    }
  }

  function Index(t: State): (i: nat)
    ensures i < 8
  {
    match t
    case Start => 0
    case Invalid => 1
    case S1 => 2
    case S2 => 3
    case Int => 4
    case Float => 5
    case Exponent => 6
    case Scientific => 7
  }

  /** The counters are those of `before' plus what `more' says. */
  ghost predicate Raised(counts: array<nat>, before: seq<nat>, more: State -> nat)
    reads counts
  {
    counts.Length == |before| == 8 && forall t :: counts[Index(t)] == before[Index(t)] + more(t)
  }

  method Count(counts: array<nat>, t: State)
    requires counts.Length == 8
    modifies counts
    ensures Raised(counts, old(counts[..]), u => if u == t then 1 else 0)
  {
    counts[Index(t)] := counts[Index(t)] + 1;
  }

  /** The bytes from p on are s, then a zero byte; s has none. */
  ghost predicate IsText(block: array<bv8>, p: nat, s: Text)
    reads block
  {
    p + |s| < block.Length && block[p + |s|] == 0 && (forall i :: 0 <= i < |s| ==> block[p + i] == s[i] && s[i] != 0)
  }

  /** The inner part of the loop: one character. */
  method Transition(state: State, c: bv8, counts: array<nat>) returns (to: State)
    requires counts.Length == 8 && state != Invalid
    modifies counts
    ensures to == Next(state, c)
    ensures Raised(counts, old(counts[..]), t => Bump(state, c, t))
  {
    to := state;
    match state {
      case Start =>
        if IsDigit(c) {
          to := Int;
        } else if IsSign(c) {
          to := S1;
        } else if IsPoint(c) {
          to := Float;
        } else {
          to := Invalid;
          Count(counts, Invalid);
        }
        Count(counts, Start);
      case S1 =>
        if IsDigit(c) {
          to := Int;
        } else if IsPoint(c) {
          to := Float;
        } else {
          to := Invalid;
        }
        Count(counts, S1);
      case Int =>
        if IsPoint(c) {
          to := Float;
          Count(counts, Int);
        } else if !IsDigit(c) {
          to := Invalid;
          Count(counts, Int);
        }
      case Float =>
        if IsE(c) {
          to := S2;
          Count(counts, Float);
        } else if !IsDigit(c) {
          to := Invalid;
          Count(counts, Float);
        }
      case S2 =>
        to := if IsSign(c) then Exponent else Invalid;
        Count(counts, S2);
      case Exponent =>
        to := if IsDigit(c) then Scientific else Invalid;
        Count(counts, Exponent);
      case Scientific =>
        if !IsDigit(c) {
          to := Invalid;
          Count(counts, Invalid);
        }
    }
  }

  /** What one call does, in terms of the field it starts at. */
  ghost predicate Scanned(s: Text, state: State, n: nat) { state == TokenState(s) && n == TokenLength(s) }

  /** One call on the text s at p: the state of the field, and how far it gets. */
  method CoreStateTransition(block: array<bv8>, p: nat, counts: array<nat>, ghost s: Text)
    returns (state: State, q: nat)
    requires IsText(block, p, s) && counts.Length == 8 && (block as object) != counts
    modifies counts
    ensures IsText(block, p, s)
    ensures p <= q && Scanned(s, state, q - p)
    ensures Raised(counts, old(counts[..]), t => Tally(Field(s), t))
  {
    hide Tally, Bump, Next, Run, Index;
    ghost var f := Field(s);
    ghost var before := counts[..];
    NothingRead(f);
    state, q := Start, p;
    while block[q] != 0 && state != Invalid
      invariant p <= q <= p + |f| && IsText(block, p, s)
      invariant state == Run(Start, f[..q - p])
      invariant Raised(counts, before, t => Tally(f[..q - p], t))
      invariant forall i :: 0 <= i < q - p ==> Run(Start, f[..i]) != Invalid
      decreases p + |f| - q
    {
      assert q - p < |s| && block[q] == s[q - p];
      if block[q] == COMMA {
        assert q - p == |f|;
        FieldRead(s, |f|, state);
        q := q + 1;
        return;
      }
      assert q - p < |f|;
      TallySteps(f, q - p);
      state := Transition(state, block[q], counts);
      q := q + 1;
    }
    if q - p < |s| { assert block[p + (q - p)] == s[q - p] != 0; }
    FieldRead(s, q - p, state);
  }

  /** A field read to its end, or up to its offending character. */
  lemma FieldRead(s: Text, n: nat, state: State)
    requires n <= |Field(s)| && state == Run(Start, Field(s)[..n])
    requires forall i :: 0 <= i < n ==> Run(Start, Field(s)[..i]) != Invalid
    requires state != Invalid ==> n == |Field(s)|
    ensures state == TokenState(s)
    ensures TokenLength(s) == if state != Invalid && n < |s| then n + 1 else n
    ensures forall t :: Tally(Field(s)[..n], t) == Tally(Field(s), t)
  {
    hide Tally, Run;
    var f := Field(s);
    if state == Invalid {
      InvalidStays(f, n, |f|);
      assert f[..|f|] == f;
      var m := Offending(f);
      assert m == n;
      forall t ensures Tally(f[..n], t) == Tally(f, t) { TallyStops(f, n, t); }
    } else {
      assert f[..n] == f;
    }
  }

  lemma NothingRead(f: Text)
    ensures Run(Start, f[..0]) == Start && forall t :: Tally(f[..0], t) == 0
  {
  }

  lemma TallySteps(f: Text, n: nat)
    requires n < |f|
    ensures Run(Start, f[..n + 1]) == Next(Run(Start, f[..n]), f[n])
    ensures forall t :: Tally(f[..n + 1], t) == Tally(f[..n], t) + Bump(Run(Start, f[..n]), f[n], t)
  {
    assert f[..n + 1][..n] == f[..n];
  }

  // ------------------------------------------------------- a whole text

  /** The results of the calls that use up the text. */
  function Calls(s: Text): seq<State>
    decreases |s|
  {
    if s == [] then [] else [TokenState(s)] + Calls(s[TokenLength(s)..])
  }

  /** The pieces those calls use up. */
  function Pieces(s: Text): seq<Text>
    decreases |s|
  {
    if s == [] then [] else [s[..TokenLength(s)]] + Pieces(s[TokenLength(s)..])
  }

  function Flatten(parts: seq<Text>): Text {
    if parts == [] then [] else parts[0] + Flatten(parts[1..])
  }

  /** How often a result occurs. */
  function Occurrences(calls: seq<State>, t: State): nat {
    if calls == [] then 0 else (if calls[0] == t then 1 else 0) + Occurrences(calls[1..], t)
  }

  /** The change of a transition counter over the whole text. */
  function Track(s: Text, t: State): nat
    decreases |s|
  {
    if s == [] then 0 else Tally(Field(s), t) + Track(s[TokenLength(s)..], t)
  }

  /** The calls cut the text into nonempty pieces, one each, with nothing skipped or read twice. */
  lemma {:induction false} CallsPartition(s: Text)
    ensures Flatten(Pieces(s)) == s && |Pieces(s)| == |Calls(s)|
    ensures forall i :: 0 <= i < |Pieces(s)| ==> Pieces(s)[i] != []
    decreases |s|
  {
    if s != [] {
      CallsPartition(s[TokenLength(s)..]);
      assert s == s[..TokenLength(s)] + s[TokenLength(s)..];
    }
  }

  /** The final counts add up to the number of calls. */
  lemma {:induction false} CountsAddUp(calls: seq<State>)
    ensures Occurrences(calls, Start) + Occurrences(calls, Invalid) + Occurrences(calls, S1) + Occurrences(calls, S2)
            + Occurrences(calls, Int) + Occurrences(calls, Float) + Occurrences(calls, Exponent)
            + Occurrences(calls, Scientific) == |calls|
  {
    if calls != [] { CountsAddUp(calls[1..]); }
  }

  function Joined(fields: seq<Text>): Text {
    if fields == [] then [] else fields[0] + [COMMA] + Joined(fields[1..])
  }

  lemma {:induction false} FieldOfJoined(f: Text, rest: Text)
    requires COMMA !in f
    ensures Field(f + [COMMA] + rest) == f
    decreases |f|
  {
    var s := f + [COMMA] + rest;
    if f != [] {
      FieldOfJoined(f[1..], rest);
      assert s[1..] == f[1..] + [COMMA] + rest;
    }
  }

  /** Fields that are not hopeless take one call each, and the result tells their kind. */
  lemma {:induction false} CleanFields(fields: seq<Text>)
    requires forall i :: 0 <= i < |fields| ==> COMMA !in fields[i] && Viable(fields[i])
    ensures |Calls(Joined(fields))| == |fields|
    ensures forall i :: 0 <= i < |fields| ==> Calls(Joined(fields))[i] == Run(Start, fields[i])
    decreases |fields|
  {
    hide Viable, Run;
    if fields != [] {
      var f, rest := fields[0], Joined(fields[1..]);
      InvalidIsHopeless(f);
      FieldOfJoined(f, rest);
      CleanFields(fields[1..]);
      var s := f + [COMMA] + rest;
      assert s[|f| + 1..] == rest;
      assert TokenLength(s) == |f| + 1;
      assert Calls(s) == [Run(Start, f)] + Calls(rest);
    }
  }

  lemma CallsOf(s: Text)
    requires s != []
    ensures 0 < TokenLength(s) <= |s| && Calls(s) == [TokenState(s)] + Calls(s[TokenLength(s)..])
  {
  }

  /** A comma brings the scanner back in step: what follows is scanned on its own, whatever was
      wrong before. */
  lemma {:induction false} CommaResynchronises(f: Text, rest: Text)
    requires COMMA !in f
    ensures Calls(f + [COMMA] + rest) == Calls(f + [COMMA]) + Calls(rest)
    decreases |f|
  {
    hide Calls, Field;
    var s, t := f + [COMMA] + rest, f + [COMMA];
    assert t == f + [COMMA] + [];
    FieldOfJoined(f, rest);
    FieldOfJoined(f, []);
    CallsOf(s);
    CallsOf(t);
    var n := TokenLength(s);
    assert TokenLength(t) == n;
    if Run(Start, f) == Invalid {
      assert s[n..] == f[n..] + [COMMA] + rest && t[n..] == f[n..] + [COMMA];
      CommaResynchronises(f[n..], rest);
    } else {
      assert s[n..] == rest && t[n..] == [];
      NoCalls();
    }
  }

  lemma NoCalls()
    ensures Calls([]) == []
  {
  }

  /** All eight counters together. */
  function Total(counters: seq<nat>): nat
    requires |counters| == 8
  {
    counters[0] + counters[1] + counters[2] + counters[3] + counters[4] + counters[5] + counters[6] + counters[7]
  }

  /** Counters that are raised by the occurrences of each state grow by the number of calls. */
  lemma TotalRaised(finals: array<nat>, before: seq<nat>, calls: seq<State>)
    requires finals.Length == |before| == 8 && Raised(finals, before, t => Occurrences(calls, t))
    ensures Total(finals[..]) == Total(before) + |calls|
  {
    hide Occurrences;
    CountsAddUp(calls);
    forall t: State
      ensures finals[Index(t)] == before[Index(t)] + Occurrences(calls, t)
    {
    }
    assert Index(Start) == 0 && Index(Invalid) == 1 && Index(S1) == 2 && Index(S2) == 3;
    assert Index(Int) == 4 && Index(Float) == 5 && Index(Exponent) == 6 && Index(Scientific) == 7;
  }

  /** Runs the scanner over a text, as both passes of the benchmark do; the final counters together
      grow by one for each call. */
  method ScanText(block: array<bv8>, finals: array<nat>, track: array<nat>, ghost s: Text)
    requires IsText(block, 0, s) && finals.Length == track.Length == 8 && finals != track
    requires (block as object) != finals && (block as object) != track
    modifies finals, track
    ensures IsText(block, 0, s)
    ensures Raised(finals, old(finals[..]), t => Occurrences(Calls(s), t))
    ensures Raised(track, old(track[..]), t => Track(s, t))
    ensures Total(finals[..]) == old(Total(finals[..])) + |Calls(s)|
  {
    hide Index, Calls, Track, Tally, TokenState, TokenLength, Occurrences, Total;
    ghost var before, tracked := finals[..], track[..];
    var p := 0;
    AllToRead(s);
    while block[p] != 0
      invariant 0 <= p <= |s| && IsText(block, 0, s)
      invariant forall t ::
        Occurrences(Calls(s), t) + before[Index(t)] == finals[Index(t)] + Occurrences(Calls(s[p..]), t)
      invariant forall t :: Track(s, t) + tracked[Index(t)] == track[Index(t)] + Track(s[p..], t)
      decreases |s| - p
    {
      ghost var rest := s[p..];
      CallStep(rest);
      var state, q := CoreStateTransition(block, p, track, rest);
      Count(finals, state);
      assert rest[TokenLength(rest)..] == s[q..];
      p := q;
    }
    if p < |s| { InsideText(block, s, p); }
    NothingLeft(s[p..]);
    TotalRaised(finals, before, Calls(s));
  }

  lemma InsideText(block: array<bv8>, s: Text, i: nat)
    requires IsText(block, 0, s) && i < |s|
    ensures block[i] != 0
  {
    assert block[0 + i] == s[i];
  }

  lemma AllToRead(s: Text)
    ensures s[0..] == s
  {
  }

  lemma CallStep(s: Text)
    requires s != []
    ensures 0 < TokenLength(s) <= |s|
    ensures forall t ::
      Occurrences(Calls(s), t) == (if TokenState(s) == t then 1 else 0) + Occurrences(Calls(s[TokenLength(s)..]), t)
    ensures forall t :: Track(s, t) == Tally(Field(s), t) + Track(s[TokenLength(s)..], t)
  {
    assert Calls(s)[1..] == Calls(s[TokenLength(s)..]);
  }

  lemma NothingLeft(s: Text)
    requires s == []
    ensures forall t :: Occurrences(Calls(s), t) == 0 && Track(s, t) == 0
  {
  }
}
