/**
 * `MeterArithmeticGroup.parse`: a meter written as arithmetic over integers
 * with `+`, `*` and parentheses, read into a tree in which addition is not
 * associative. `4+2+3` is one sum of three groups, while `(4+2)+3` is a sum
 * whose first member is itself a sum. Parsing strips spaces, runs the
 * source's sanity assertions (each a distinct `ParseError` here), splits the
 * text at top-level operators and parentheses, merges each run of `*` into
 * one product, and parses every chunk again.
 */
module MeterParser {
  import opened Wrappers
  import opened Builtins
  import opened MetricLayers

  datatype Op = Plus | Times

  /** A parsed group: a plain number (operation `None`), or a sum or product of groups. */
  datatype MeterGroup = Number(value: nat) | Group(op: Op, elements: seq<MeterGroup>)

  /** The assertion that fails, in the order the parser checks them. */
  datatype ParseError =
    | EmptyInput                  // nothing left after removing spaces
    | IllegalCharacter            // a character other than digits, `+`, `*`, `(`, `)`
    | LeadingOrTrailingOperator   // first or last character is not a digit or the matching parenthesis
    | AdjacentOperators           // one of `++`, `+*`, `*+`, `**`
    | StrayCloseParenthesis       // a `)` with no open `(` before it
    | MissingCloseParenthesis     // the parentheses do not balance at the end
    | IndexOutOfRange             // `chunks[i + 1]` read past the end while merging products

  // ---------------------------------------------------------------------
  // Characters and the sanity checks
  // ---------------------------------------------------------------------

  predicate IsOperator(c: char)
  {
    c == '+' || c == '*'
  }

  /** One of the four characters whose presence makes the input a compound expression. */
  predicate IsSpecial(c: char)
  {
    IsOperator(c) || c == '(' || c == ')'
  }

  predicate IsLegal(c: char)
  {
    IsDigit(c) || IsSpecial(c)
  }

  predicate AllLegal(s: string)
  {
    forall i :: 0 <= i < |s| ==> IsLegal(s[i])
  }

  /** Some character among the first `k` is special. */
  predicate HasSpecialBefore(s: string, k: nat)
    requires k <= |s|
  {
    exists i :: 0 <= i < k && IsSpecial(s[i])
  }

  /** Starts with `(` or a digit and ends with `)` or a digit. */
  predicate WellDelimited(s: string)
    requires |s| > 0
  {
    (s[0] == '(' || IsDigit(s[0])) && (s[|s| - 1] == ')' || IsDigit(s[|s| - 1]))
  }

  /** One of the substrings `++`, `+*`, `*+`, `**` occurs. */
  predicate HasAdjacentOperators(s: string)
  {
    exists i :: 0 <= i < |s| - 1 && IsOperator(s[i]) && IsOperator(s[i + 1])
  }

  /** `s.replace(" ", "")` */
  function RemoveSpaces(s: string): (r: string)
    ensures |r| <= |s|
    ensures forall i :: 0 <= i < |r| ==> r[i] != ' '
  {
    if s == [] then []
    else if s[0] == ' ' then RemoveSpaces(s[1..])
    else [s[0]] + RemoveSpaces(s[1..])
  }

  /** Removing spaces keeps every other character, in order. */
  lemma {:induction false} RemoveSpacesKeeps(s: string)
    ensures RemoveSpaces(s) == s <==> ' ' !in s
    ensures multiset(RemoveSpaces(s)) == multiset(s)[' ' := 0]
  {
    if s != [] {
      RemoveSpacesKeeps(s[1..]);
      assert s == [s[0]] + s[1..];
      if s[0] == ' ' {
        assert |RemoveSpaces(s)| < |s|;
      }
    }
  }

  /** Removing spaces twice is removing them once. */
  lemma RemoveSpacesIdempotent(s: string)
    ensures RemoveSpaces(RemoveSpaces(s)) == RemoveSpaces(s)
  {
    RemoveSpacesKeeps(RemoveSpaces(s));
  }

  // ---------------------------------------------------------------------
  // Splitting into chunks
  // ---------------------------------------------------------------------

  /** The variables of the chunking loop: `paren_level`, `chunks`, `current_chunk`. */
  datatype ChunkState = ChunkState(level: nat, chunks: seq<string>, current: string)

  /** One pass of the chunking loop's body on character `c`. */
  function Step(st: ChunkState, c: char): Result<ChunkState, ParseError>
  {
    if st.level == 0 && IsOperator(c) then
      var done := if |st.current| > 0 then st.chunks + [st.current] else st.chunks;
      Success(ChunkState(0, done + [[c]], ""))
    else if c == '(' then
      // the outermost parenthesis is not part of the chunk
      if st.level == 0 then Success(st.(level := 1))
      else Success(ChunkState(st.level + 1, st.chunks, st.current + [c]))
    else if c == ')' then
      if st.level == 0 then Failure(StrayCloseParenthesis)
      else if st.level == 1 then Success(ChunkState(0, st.chunks + [st.current], ""))
      else Success(ChunkState(st.level - 1, st.chunks, st.current + [c]))
    else
      Success(st.(current := st.current + [c]))
  }

  /** The loop's state after the first `k` characters. */
  function ScanPrefix(s: string, k: nat): Result<ChunkState, ParseError>
    requires k <= |s|
  {
    if k == 0 then Success(ChunkState(0, [], ""))
    else
      var st :- ScanPrefix(s, k - 1);
      Step(st, s[k - 1])
  }

  /** The chunks of `s`, or the parenthesis error the loop or the check after it raises. */
  function Chunks(s: string): Result<seq<string>, ParseError>
  {
    var st :- ScanPrefix(s, |s|);
    var chunks := if |st.current| > 0 then st.chunks + [st.current] else st.chunks;
    if st.level != 0 then Failure(MissingCloseParenthesis) else Success(chunks)
  }

  /** Once the scan fails it stays failed with the same error. */
  lemma {:induction false} ScanFailureStays(s: string, k: nat, m: nat)
    requires k <= m <= |s| && ScanPrefix(s, k).Failure?
    ensures ScanPrefix(s, m) == ScanPrefix(s, k)
    decreases m
  {
    if m > k {
      ScanFailureStays(s, k, m - 1);
    }
  }

  /** The chunking loop. */
  method SplitChunks(s: string) returns (r: Result<seq<string>, ParseError>)
    ensures r == Chunks(s)
  {
    var level: nat := 0;
    var chunks: seq<string> := [];
    var current: string := "";
    for k := 0 to |s|
      invariant ScanPrefix(s, k) == Success(ChunkState(level, chunks, current))
    {
      var c := s[k];
      if level == 0 && (c == '+' || c == '*') {
        if |current| > 0 {
          chunks := chunks + [current];
        }
        current := "";
        chunks := chunks + [[c]];
        continue;
      }
      if c == '(' {
        level := level + 1;
        if level == 1 {
          continue;
        }
      } else if c == ')' {
        if level == 0 {
          ScanFailureStays(s, k + 1, |s|);
          return Failure(StrayCloseParenthesis);
        }
        level := level - 1;
        if level == 0 {
          chunks := chunks + [current];
          current := "";
          continue;
        }
      }
      current := current + [c];
    }
    if |current| > 0 {
      chunks := chunks + [current];
    }
    if level != 0 {
      return Failure(MissingCloseParenthesis);
    }
    return Success(chunks);
  }

  /** Open parentheses minus close parentheses among the first `k` characters. */
  function Balance(s: string, k: nat): int
    requires k <= |s|
  {
    if k == 0 then 0
    else Balance(s, k - 1) + (if s[k - 1] == '(' then 1 else if s[k - 1] == ')' then -1 else 0)
  }

  /** No prefix of the first `k` characters closes more parentheses than it opens. */
  predicate NeverNegative(s: string, k: nat)
    requires k <= |s|
  {
    forall j :: 0 <= j <= k ==> Balance(s, j) >= 0
  }

  /**
   * The loop's `paren_level` is the parenthesis balance of what it has read,
   * and the loop raises exactly when that balance first drops below zero.
   */
  lemma {:induction false} ScanTracksBalance(s: string, k: nat)
    requires k <= |s|
    ensures ScanPrefix(s, k).Success? <==> NeverNegative(s, k)
    ensures ScanPrefix(s, k).Success? ==> ScanPrefix(s, k).value.level == Balance(s, k)
    ensures ScanPrefix(s, k).Failure? ==> ScanPrefix(s, k).error == StrayCloseParenthesis
  {
    if k > 0 {
      ScanTracksBalance(s, k - 1);
      if NeverNegative(s, k - 1) && Balance(s, k) >= 0 {
        forall j | 0 <= j <= k ensures Balance(s, j) >= 0 {
          if j < k {
            assert Balance(s, j) >= 0;
          }
        }
      }
    }
  }

  /** The chunking fails exactly on unbalanced parentheses, with the error of the check that catches them. */
  lemma ChunksParentheses(s: string)
    ensures !NeverNegative(s, |s|) ==> Chunks(s) == Failure(StrayCloseParenthesis)
    ensures NeverNegative(s, |s|) && Balance(s, |s|) != 0 ==> Chunks(s) == Failure(MissingCloseParenthesis)
    ensures Chunks(s).Success? <==> NeverNegative(s, |s|) && Balance(s, |s|) == 0
  {
    ScanTracksBalance(s, |s|);
  }

  /**
   * While scanning an input that does not start with an operator, every
   * finished chunk is shorter than the input, and the chunk being built is
   * shorter than what has been read once a special character has been seen.
   */
  lemma {:induction false} ScanChunkLengths(s: string, k: nat)
    requires k <= |s| && |s| > 0 && !IsOperator(s[0])
    requires ScanPrefix(s, k).Success?
    ensures forall i :: 0 <= i < |ScanPrefix(s, k).value.chunks| ==> |ScanPrefix(s, k).value.chunks[i]| < |s|
    ensures ScanPrefix(s, k).value.level > 0 ==> HasSpecialBefore(s, k)
    ensures |ScanPrefix(s, k).value.current| + (if HasSpecialBefore(s, k) then 1 else 0) <= k
  {
    if k > 0 {
      var st := ScanPrefix(s, k - 1).value;
      ScanChunkLengths(s, k - 1);
      var c := s[k - 1];
      if IsSpecial(c) {
        assert HasSpecialBefore(s, k);
      } else if HasSpecialBefore(s, k - 1) {
        var i :| 0 <= i < k - 1 && IsSpecial(s[i]);
        assert HasSpecialBefore(s, k);
      }
      if HasSpecialBefore(s, k) && !HasSpecialBefore(s, k - 1) {
        assert IsSpecial(c);
      }
      if HasSpecialBefore(s, k - 1) {
        var i :| 0 <= i < k - 1 && IsSpecial(s[i]);
        assert HasSpecialBefore(s, k);
      }
    }
  }

  /** Every chunk of a compound expression is shorter than the expression, so parsing chunks again terminates. */
  lemma ChunksShorter(s: string)
    requires |s| > 0 && !IsOperator(s[0]) && HasSpecialBefore(s, |s|)
    requires Chunks(s).Success?
    ensures forall i :: 0 <= i < |Chunks(s).value| ==> |Chunks(s).value[i]| < |s|
  {
    ScanChunkLengths(s, |s|);
  }

  // ---------------------------------------------------------------------
  // Merging runs of `*` and parsing
  // ---------------------------------------------------------------------

  /** Every product has at least one factor, at every level; `functools.reduce` needs this. */
  predicate WellFormed(g: MeterGroup)
  {
    match g
    case Number(_) => true
    case Group(op, es) => (op == Times ==> |es| > 0) && forall k :: 0 <= k < |es| ==> WellFormed(es[k])
  }

  /** All strings shorter than `t`; parsing them again terminates. */
  predicate Shorter(xs: seq<string>, t: string)
  {
    forall k :: 0 <= k < |xs| ==> |xs[k]| < |t|
  }

  /**
   * The inner loop of the merge: while `chunks[i]` is `*`, take `chunks[i + 1]`
   * as one more factor. Reading past the end is Python's IndexError.
   */
  function CollectFactors(chunks: seq<string>, factors: seq<string>, i: nat): (r: Result<(seq<string>, nat), ParseError>)
    ensures r.Success? ==> r.value.1 >= i && |r.value.0| >= |factors| && r.value.0[..|factors|] == factors
    ensures r.Success? ==> forall k :: |factors| <= k < |r.value.0| ==> r.value.0[k] in chunks
    decreases |chunks| - i
  {
    if i < |chunks| && chunks[i] == "*" then
      if i + 1 < |chunks| then CollectFactors(chunks, factors + [chunks[i + 1]], i + 2)
      else Failure(IndexOutOfRange)
    else Success((factors, i))
  }

  /** A nonzero balance means some parenthesis was read, so the text is compound. */
  lemma {:induction false} UnbalancedIsSpecial(s: string, k: nat)
    requires k <= |s| && Balance(s, k) != 0
    ensures HasSpecialBefore(s, k)
  {
    if Balance(s, k - 1) != 0 {
      UnbalancedIsSpecial(s, k - 1);
    } else {
      assert IsSpecial(s[k - 1]);
    }
  }

  /**
   * `parse` raises the first assertion that fails, checked on the text
   * without spaces: empty, an illegal character, a leading or trailing
   * operator, adjacent operators, then a stray or a missing close parenthesis.
   */
  lemma ParseErrors(s: string, t: string)
    requires t == RemoveSpaces(s)
    ensures t == [] ==> Parse(s) == Failure(EmptyInput)
    ensures t != [] && !AllLegal(t) ==> Parse(s) == Failure(IllegalCharacter)
    ensures t != [] && AllLegal(t) && !WellDelimited(t) ==> Parse(s) == Failure(LeadingOrTrailingOperator)
    ensures t != [] && AllLegal(t) && WellDelimited(t) && HasAdjacentOperators(t) ==> Parse(s) == Failure(AdjacentOperators)
    ensures t != [] && AllLegal(t) && WellDelimited(t) && !HasAdjacentOperators(t) && !NeverNegative(t, |t|) ==>
      Parse(s) == Failure(StrayCloseParenthesis)
    ensures (t != [] && AllLegal(t) && WellDelimited(t) && !HasAdjacentOperators(t) && NeverNegative(t, |t|) &&
             Balance(t, |t|) != 0) ==> Parse(s) == Failure(MissingCloseParenthesis)
  {
    if t != [] && AllLegal(t) && WellDelimited(t) && !HasAdjacentOperators(t) {
      ChunksParentheses(t);
      if !NeverNegative(t, |t|) {
        var j :| 0 <= j <= |t| && Balance(t, j) < 0;
        UnbalancedIsSpecial(t, j);
        assert HasSpecialBefore(t, |t|);
      } else if Balance(t, |t|) != 0 {
        UnbalancedIsSpecial(t, |t|);
      }
    }
  }

  /** An entry of `merged_multiplies`: a chunk left to parse, or a parsed product. */
  datatype Merged = Pending(chunk: string) | Done(group: MeterGroup)

  /** `MeterArithmeticGroup.parse(s)` */
  function Parse(s: string): (r: Result<MeterGroup, ParseError>)
    ensures r.Success? ==> WellFormed(r.value)
    decreases |s|, 3
  {
    ParseCompact(RemoveSpaces(s))
  }

  /** Parsing once spaces are gone. */
  function ParseCompact(t: string): (r: Result<MeterGroup, ParseError>)
    ensures r.Success? ==> WellFormed(r.value)
    decreases |t|, 2
  {
    if |t| == 0 then Failure(EmptyInput)
    else if !AllLegal(t) then Failure(IllegalCharacter)
    else if !WellDelimited(t) then Failure(LeadingOrTrailingOperator)
    else if HasAdjacentOperators(t) then Failure(AdjacentOperators)
    else if HasSpecialBefore(t, |t|) then
      var chunks :- Chunks(t);
      ChunksShorter(t);
      var merged :- MergeFrom(t, chunks, 0);
      var elements :- ParseRemaining(t, merged);
      Success(Group(Plus, elements))
    else
      assert AllDigits(t) by {
        forall i | 0 <= i < |t| ensures IsDigit(t[i]) {
          assert !IsSpecial(t[i]);
        }
      }
      Success(Number(DigitsValue(t)))
  }

  /**
   * The merge loop from position `i`: each `a * b * ...` becomes one product
   * whose factors are parsed on the spot, every other chunk is kept for later.
   */
  function MergeFrom(t: string, chunks: seq<string>, i: nat): (r: Result<seq<Merged>, ParseError>)
    requires Shorter(chunks, t)
    ensures r.Success? ==> forall k :: 0 <= k < |r.value| ==>
      match r.value[k]
      case Pending(c) => c in chunks
      case Done(g) => WellFormed(g)
    decreases |t|, 1, |chunks| - i
  {
    if i >= |chunks| then Success([])
    else if i + 1 < |chunks| && chunks[i + 1] == "*" then
      // `chunks[i:i + 3:2]`
      var first := [chunks[i]] + (if i + 2 < |chunks| then [chunks[i + 2]] else []);
      var (factors, j) :- CollectFactors(chunks, first, i + 3);
      assert forall k :: 0 <= k < |first| ==> factors[k] == first[k];
      assert forall k :: 0 <= k < |factors| ==> factors[k] in chunks;
      var gs :- ParseFactors(t, factors);
      var rest :- MergeFrom(t, chunks, j);
      Success([Done(Group(Times, gs))] + rest)
    else
      var rest :- MergeFrom(t, chunks, i + 1);
      Success([Pending(chunks[i])] + rest)
  }

  /** `[MeterArithmeticGroup.parse(x) for x in multiplied_elements]` */
  function ParseFactors(t: string, fs: seq<string>): (r: Result<seq<MeterGroup>, ParseError>)
    requires Shorter(fs, t)
    ensures r.Success? ==> |r.value| == |fs| && forall k :: 0 <= k < |fs| ==> WellFormed(r.value[k])
    decreases |t|, 0, |fs|
  {
    if fs == [] then Success([])
    else
      var g :- Parse(fs[0]);
      var rest :- ParseFactors(t, fs[1..]);
      Success([g] + rest)
  }

  /** The final comprehension: parsed products kept, `+` chunks dropped, other chunks parsed, in order. */
  function ParseRemaining(t: string, ms: seq<Merged>): (r: Result<seq<MeterGroup>, ParseError>)
    requires forall k :: 0 <= k < |ms| ==> ms[k].Pending? ==> |ms[k].chunk| < |t|
    requires forall k :: 0 <= k < |ms| ==> ms[k].Done? ==> WellFormed(ms[k].group)
    ensures r.Success? ==> forall k :: 0 <= k < |r.value| ==> WellFormed(r.value[k])
    decreases |t|, 1, |ms|
  {
    if ms == [] then Success([])
    else
      match ms[0]
      case Done(g) =>
        var rest :- ParseRemaining(t, ms[1..]);
        Success([g] + rest)
      case Pending(c) =>
        if c == "+" then ParseRemaining(t, ms[1..])
        else
          var g :- Parse(c);
          var rest :- ParseRemaining(t, ms[1..]);
          Success([g] + rest)
  }

  /** `rest` with `done` in front, or the failure. */
  function Prepend(done: seq<Merged>, rest: Result<seq<Merged>, ParseError>): Result<seq<Merged>, ParseError>
  {
    if rest.Success? then Success(done + rest.value) else rest
  }

  lemma PrependAssociates(done: seq<Merged>, m: Merged, rest: Result<seq<Merged>, ParseError>)
    ensures Prepend(done, Prepend([m], rest)) == Prepend(done + [m], rest)
  {
    if rest.Success? {
      assert done + ([m] + rest.value) == done + [m] + rest.value;
    }
  }

  /** The merge loop of `parse(t)`. */
  method MergeMultiplies(t: string, chunks: seq<string>) returns (r: Result<seq<Merged>, ParseError>)
    requires Shorter(chunks, t)
    ensures r == MergeFrom(t, chunks, 0)
  {
    var merged: seq<Merged> := [];
    var i: nat := 0;
    assert Prepend(merged, MergeFrom(t, chunks, i)) == MergeFrom(t, chunks, 0) by {
      if MergeFrom(t, chunks, 0).Success? {
        assert [] + MergeFrom(t, chunks, 0).value == MergeFrom(t, chunks, 0).value;
      }
    }
    while i < |chunks|
      invariant MergeFrom(t, chunks, 0) == Prepend(merged, MergeFrom(t, chunks, i))
      decreases |chunks| - i
    {
      ghost var i0 := i;
      var m: Merged;
      if i + 1 < |chunks| && chunks[i + 1] == "*" {
        var factors := [chunks[i]] + (if i + 2 < |chunks| then [chunks[i + 2]] else []);
        ghost var first := factors;
        i := i + 3;
        while i < |chunks| && chunks[i] == "*"
          invariant CollectFactors(chunks, first, i0 + 3) == CollectFactors(chunks, factors, i)
          decreases |chunks| - i
        {
          if i + 1 >= |chunks| {
            return Failure(IndexOutOfRange);
          }
          factors := factors + [chunks[i + 1]];
          i := i + 2;
        }
        assert forall k :: 0 <= k < |factors| ==> factors[k] in chunks by {
          assert forall k :: 0 <= k < |first| ==> factors[k] == first[k];
        }
        var gs := ParseFactors(t, factors);
        if gs.Failure? {
          return Failure(gs.error);
        }
        m := Done(Group(Times, gs.value));
      } else {
        m := Pending(chunks[i]);
        i := i + 1;
      }
      assert MergeFrom(t, chunks, i0) == Prepend([m], MergeFrom(t, chunks, i));
      PrependAssociates(merged, m, MergeFrom(t, chunks, i));
      merged := merged + [m];
    }
    assert merged + [] == merged;
    r := Success(merged);
  }

  // ---------------------------------------------------------------------
  // to_metric_layer
  // ---------------------------------------------------------------------

  /** `functools.reduce` over no items raises a TypeError. */
  datatype ReduceError = ReduceOfEmptyProduct

  /** The number of beats an expression stands for: its arithmetic value. */
  function Value(g: MeterGroup): nat
    decreases g, 1
  {
    match g
    case Number(n) => n
    case Group(Plus, es) => SumValues(es)
    case Group(Times, es) => ProductValues(es)
  }

  function SumValues(es: seq<MeterGroup>): nat
    decreases es, 0
  {
    if es == [] then 0 else Value(es[0]) + SumValues(es[1..])
  }

  function ProductValues(es: seq<MeterGroup>): nat
    decreases es, 0
  {
    if es == [] then 1 else Value(es[0]) * ProductValues(es[1..])
  }

  /** Each layer as a group of its parent: `MetricLayer(*layers)` receives MetricLayer objects. */
  function AsGroups(layers: seq<seq<Group>>): (r: seq<Group>)
    ensures |r| == |layers| && forall k :: 0 <= k < |r| ==> r[k] == Layer(layers[k])
  {
    if layers == [] then [] else [Layer(layers[0])] + AsGroups(layers[1..])
  }

  /** `functools.reduce(operator.mul, rest, acc)`: multiply from the left. */
  function MultiplyAll(acc: seq<Group>, rest: seq<seq<Group>>): seq<Group>
    decreases |rest|
  {
    if rest == [] then acc else MultiplyAll(Mul(acc, rest[0]), rest[1..])
  }

  /** `g.to_metric_layer(break_up_large_numbers=breakUp)`, as the groups of the layer built. */
  function ToMetricLayer(g: MeterGroup, breakUp: bool): Result<seq<Group>, ReduceError>
    decreases g, 1
  {
    match g
    case Number(n) => Success(NewLayer([Beats(n)], breakUp))
    case Group(Plus, es) =>
      var layers :- ToMetricLayers(es, breakUp);
      Success(NewLayer(AsGroups(layers), breakUp))
    case Group(Times, es) =>
      if es == [] then Failure(ReduceOfEmptyProduct)
      else
        var layers :- ToMetricLayers(es, breakUp);
        Success(MultiplyAll(layers[0], layers[1..]))
  }

  /** The children's layers, in order. */
  function ToMetricLayers(es: seq<MeterGroup>, breakUp: bool): (r: Result<seq<seq<Group>>, ReduceError>)
    ensures r.Success? ==> |r.value| == |es|
    decreases es, 0
  {
    if es == [] then Success([])
    else
      var first :- ToMetricLayer(es[0], breakUp);
      var rest :- ToMetricLayers(es[1..], breakUp);
      Success([first] + rest)
  }

  lemma {:induction false} AsGroupsCount(layers: seq<seq<Group>>, es: seq<MeterGroup>)
    requires |layers| == |es| && forall k :: 0 <= k < |es| ==> CountAll(layers[k]) == Value(es[k])
    ensures CountAll(AsGroups(layers)) == SumValues(es)
  {
    if layers != [] {
      AsGroupsCount(layers[1..], es[1..]);
      assert AsGroups(layers)[1..] == AsGroups(layers[1..]);
    }
  }

  lemma {:induction false} MultiplyAllCount(acc: seq<Group>, rest: seq<seq<Group>>, es: seq<MeterGroup>)
    requires |rest| == |es| && forall k :: 0 <= k < |es| ==> CountAll(rest[k]) == Value(es[k])
    ensures CountAll(MultiplyAll(acc, rest)) == CountAll(acc) * ProductValues(es)
    decreases |rest|
  {
    if rest != [] {
      MulCount(acc, rest[0]);
      assert forall k :: 1 <= k < |es| ==> rest[1..][k - 1] == rest[k] && es[1..][k - 1] == es[k];
      MultiplyAllCount(Mul(acc, rest[0]), rest[1..], es[1..]);
      MultiplyAssociates(CountAll(acc), Value(es[0]), ProductValues(es[1..]));
    }
  }

  lemma MultiplyAssociates(a: nat, b: nat, c: nat)
    ensures a * b * c == a * (b * c)
  {
  }

  /** The layer has exactly as many beats as the expression's value: `+` adds beats, `*` multiplies them. */
  lemma {:induction false} ToMetricLayerCount(g: MeterGroup, breakUp: bool)
    requires ToMetricLayer(g, breakUp).Success?
    ensures CountAll(ToMetricLayer(g, breakUp).value) == Value(g)
    decreases g, 1
  {
    match g
    case Number(n) =>
      NewLayerNormal([Beats(n)], breakUp);
    case Group(op, es) =>
      var layers := ToMetricLayers(es, breakUp).value;
      ToMetricLayersCount(es, breakUp);
      if op == Plus {
        AsGroupsCount(layers, es);
        NewLayerNormal(AsGroups(layers), breakUp);
      } else {
        MultiplyAllCount(layers[0], layers[1..], es[1..]);
        assert forall k :: 1 <= k < |es| ==> es[1..][k - 1] == es[k];
      }
  }

  lemma {:induction false} ToMetricLayersCount(es: seq<MeterGroup>, breakUp: bool)
    requires ToMetricLayers(es, breakUp).Success?
    ensures forall k :: 0 <= k < |es| ==> CountAll(ToMetricLayers(es, breakUp).value[k]) == Value(es[k])
    decreases es, 0
  {
    if es != [] {
      ToMetricLayerCount(es[0], breakUp);
      ToMetricLayersCount(es[1..], breakUp);
      var r := ToMetricLayers(es, breakUp).value;
      assert forall k :: 1 <= k < |es| ==> r[k] == ToMetricLayers(es[1..], breakUp).value[k - 1] && es[k] == es[1..][k - 1];
    }
  }

  /** `to_metric_layer` raises only on an empty product, so never on what `parse` returns. */
  lemma {:induction false} ToMetricLayerSucceeds(g: MeterGroup, breakUp: bool)
    ensures ToMetricLayer(g, breakUp).Success? <==> WellFormed(g)
    decreases g, 1
  {
    match g
    case Number(_) =>
    case Group(op, es) =>
      ToMetricLayersSucceeds(es, breakUp);
  }

  lemma {:induction false} ToMetricLayersSucceeds(es: seq<MeterGroup>, breakUp: bool)
    ensures ToMetricLayers(es, breakUp).Success? <==> forall k :: 0 <= k < |es| ==> WellFormed(es[k])
    decreases es, 0
  {
    if es != [] {
      ToMetricLayerSucceeds(es[0], breakUp);
      ToMetricLayersSucceeds(es[1..], breakUp);
      assert forall k :: 1 <= k < |es| ==> es[k] == es[1..][k - 1];
    }
  }

  // ---------------------------------------------------------------------
  // What `parse` makes of numbers and of products of numbers
  // ---------------------------------------------------------------------

  /** A string of digits parses to the number it spells. */
  lemma ParseDigits(s: string)
    requires |s| > 0 && AllDigits(s)
    ensures Parse(s) == Success(Number(DigitsValue(s)))
  {
    NoOperatorsInDigits(s);
    RemoveSpacesKeeps(s);
    ParseCompactDigits(s);
  }

  lemma ParseCompactDigits(t: string)
    requires |t| > 0 && AllDigits(t)
    ensures ParseCompact(t) == Success(Number(DigitsValue(t)))
  {
    NoOperatorsInDigits(t);
    assert !HasSpecialBefore(t, |t|) by {
      forall i | 0 <= i < |t| ensures !IsSpecial(t[i]) {
        assert IsDigit(t[i]);
      }
    }
  }

  /** `parse(str(n))` is the plain number `n`. */
  lemma ParseNatToString(n: nat)
    ensures Parse(NatToString(n)) == Success(Number(n))
  {
    ParseDigits(NatToString(n));
    DigitsValueOfNatToString(n);
  }

  /** `[str(n) for n in ns]` */
  function Numerals(ns: seq<nat>): (r: seq<string>)
    ensures |r| == |ns| && forall k :: 0 <= k < |ns| ==> r[k] == NatToString(ns[k])
  {
    if ns == [] then [] else [NatToString(ns[0])] + Numerals(ns[1..])
  }

  function Numbers(ns: seq<nat>): (r: seq<MeterGroup>)
    ensures |r| == |ns| && forall k :: 0 <= k < |ns| ==> r[k] == Number(ns[k])
  {
    if ns == [] then [] else [Number(ns[0])] + Numbers(ns[1..])
  }

  /** The chunks of `n0*n1*...*nk`: the numerals with `*` between them. */
  function OpChunks(op: char, ns: seq<nat>): (r: seq<string>)
    requires |ns| > 0
    ensures |r| == 2 * |ns| - 1
  {
    if |ns| == 1 then [NatToString(ns[0])]
    else [NatToString(ns[0]), [op]] + OpChunks(op, ns[1..])
  }

  lemma {:induction false} OpChunksAt(op: char, ns: seq<nat>, k: nat)
    requires |ns| > 0
    ensures k < |ns| ==> OpChunks(op, ns)[2 * k] == NatToString(ns[k])
    ensures k + 1 < |ns| ==> OpChunks(op, ns)[2 * k + 1] == [op]
  {
    if k > 0 && |ns| > 1 {
      OpChunksAt(op, ns[1..], k - 1);
    }
  }

  /** The chunking loop, run from state `st` over all of `s`. */
  function ScanFrom(st: ChunkState, s: string): Result<ChunkState, ParseError>
    decreases s
  {
    if s == [] then Success(st)
    else
      var next :- Step(st, s[0]);
      ScanFrom(next, s[1..])
  }

  lemma {:induction false} ScanFromAppend(st: ChunkState, a: string, b: string)
    ensures ScanFrom(st, a + b) == (if ScanFrom(st, a).Success? then ScanFrom(ScanFrom(st, a).value, b) else ScanFrom(st, a))
    decreases a
  {
    if a != [] {
      assert (a + b)[0] == a[0] && (a + b)[1..] == a[1..] + b;
      if Step(st, a[0]).Success? {
        ScanFromAppend(Step(st, a[0]).value, a[1..], b);
      }
    } else {
      assert a + b == b;
    }
  }

  /** Scanning a prefix of `s` is scanning it from the initial state. */
  lemma {:induction false} ScanPrefixFrom(s: string, k: nat)
    requires k <= |s|
    ensures ScanPrefix(s, k) == ScanFrom(ChunkState(0, [], ""), s[..k])
  {
    if k > 0 {
      ScanPrefixFrom(s, k - 1);
      assert s[..k] == s[..k - 1] + [s[k - 1]];
      ScanFromAppend(ChunkState(0, [], ""), s[..k - 1], [s[k - 1]]);
    }
  }

  /** Digits only lengthen the current chunk. */
  lemma {:induction false} ScanDigits(st: ChunkState, d: string)
    requires AllDigits(d)
    ensures ScanFrom(st, d) == Success(st.(current := st.current + d))
    decreases d
  {
    if d != [] {
      assert IsDigit(d[0]);
      assert Step(st, d[0]) == Success(st.(current := st.current + [d[0]]));
      var next := st.(current := st.current + [d[0]]);
      ScanDigits(next, d[1..]);
      assert ScanFrom(st, d) == ScanFrom(next, d[1..]);
      assert st.current + [d[0]] + d[1..] == st.current + d;
      assert next.(current := next.current + d[1..]) == st.(current := st.current + d);
    } else {
      assert st.current + d == st.current;
    }
  }

  /** A numeral followed by an operator at level 0 becomes two finished chunks. */
  lemma ScanNumeralOp(op: char, done: seq<string>, first: string, tail: string)
    requires IsOperator(op)
    requires |first| > 0 && AllDigits(first)
    ensures ScanFrom(ChunkState(0, done, ""), first + ([op] + tail)) == ScanFrom(ChunkState(0, done + [first, [op]], ""), tail)
  {
    ScanDigits(ChunkState(0, done, ""), first);
    assert "" + first == first;
    ScanFromAppend(ChunkState(0, done, ""), first, [op] + tail);
    assert ([op] + tail)[0] == op && ([op] + tail)[1..] == tail;
    assert Step(ChunkState(0, done, first), op) == Success(ChunkState(0, done + [first] + [[op]], ""));
    assert done + [first] + [[op]] == done + [first, [op]];
  }

  /** Scanning `n0 op n1 op ... op nk` from a fresh chunk at level 0 emits every numeral but the last, each followed by the operator. */
  lemma {:induction false} ScanJoin(op: char, done: seq<string>, ns: seq<nat>)
    requires IsOperator(op) && |ns| > 0
    ensures ScanFrom(ChunkState(0, done, ""), Join([op], Numerals(ns))) ==
      Success(ChunkState(0, done + OpChunks(op, ns)[..2 * |ns| - 2], NatToString(ns[|ns| - 1])))
    decreases ns, 1
  {
    if |ns| > 1 {
      ScanJoinCons(op, done, ns);
    } else {
      var first := NatToString(ns[0]);
      ScanDigits(ChunkState(0, done, ""), first);
      assert Join([op], Numerals(ns)) == first;
      assert done + OpChunks(op, ns)[..0] == done;
      assert "" + first == first;
    }
  }

  lemma {:induction false} ScanJoinCons(op: char, done: seq<string>, ns: seq<nat>)
    requires IsOperator(op) && |ns| > 1
    ensures ScanFrom(ChunkState(0, done, ""), Join([op], Numerals(ns))) ==
      Success(ChunkState(0, done + OpChunks(op, ns)[..2 * |ns| - 2], NatToString(ns[|ns| - 1])))
    decreases ns, 0
  {
    var first := NatToString(ns[0]);
    var rest := ns[1..];
    var tail := Join([op], Numerals(rest));
    var emitted := done + [first, [op]] + OpChunks(op, rest)[..2 * |rest| - 2];
    assert Join([op], Numerals(ns)) == first + ([op] + tail) by {
      assert Numerals(ns)[1..] == Numerals(rest);
    }
    assert ScanFrom(ChunkState(0, done, ""), first + ([op] + tail)) == ScanFrom(ChunkState(0, done + [first, [op]], ""), tail) by {
      ScanNumeralOp(op, done, first, tail);
    }
    assert ScanFrom(ChunkState(0, done + [first, [op]], ""), tail) == Success(ChunkState(0, emitted, NatToString(ns[|ns| - 1]))) by {
      ScanJoin(op, done + [first, [op]], rest);
      assert rest[|rest| - 1] == ns[|ns| - 1];
    }
    assert emitted == done + OpChunks(op, ns)[..2 * |ns| - 2] by {
      assert OpChunks(op, ns)[..2 * |ns| - 2] == [first, [op]] + OpChunks(op, rest)[..2 * |rest| - 2];
    }
  }

  /** `n0 op n1 op ... op nk` splits into the numerals with operator chunks between them. */
  lemma ChunksOfJoin(op: char, ns: seq<nat>)
    requires IsOperator(op) && |ns| > 0
    ensures Chunks(Join([op], Numerals(ns))) == Success(OpChunks(op, ns))
  {
    var t := Join([op], Numerals(ns));
    var sc := OpChunks(op, ns);
    var last := NatToString(ns[|ns| - 1]);
    assert ScanPrefix(t, |t|) == Success(ChunkState(0, sc[..2 * |ns| - 2], last)) by {
      ScanPrefixFrom(t, |t|);
      assert t[..|t|] == t;
      ScanJoin(op, [], ns);
      assert [] + sc[..2 * |ns| - 2] == sc[..2 * |ns| - 2];
    }
    assert sc[..2 * |ns| - 2] + [last] == sc by {
      OpChunksAt(op, ns, |ns| - 1);
      DropLastAppend(sc);
    }
  }

  lemma DropLastAppend<T>(s: seq<T>)
    requires |s| > 0
    ensures s[..|s| - 1] + [s[|s| - 1]] == s
  {
  }

  /** Numerals joined by an operator pass every sanity check, and hold a special character once there are two. */
  lemma {:induction false} JoinTextChecks(op: char, ns: seq<nat>)
    requires IsOperator(op) && |ns| > 0
    ensures var t := Join([op], Numerals(ns));
      |t| > 0 && ' ' !in t && AllLegal(t) && IsDigit(t[0]) && IsDigit(t[|t| - 1]) && !HasAdjacentOperators(t) &&
      (|ns| > 1 ==> HasSpecialBefore(t, |t|))
    decreases ns
  {
    var t := Join([op], Numerals(ns));
    var first := NatToString(ns[0]);
    if |ns| == 1 {
      assert t == first;
      NoOperatorsInDigits(first);
    } else {
      var tail := Join([op], Numerals(ns[1..]));
      assert t == first + ([op] + tail) by {
        assert Numerals(ns)[1..] == Numerals(ns[1..]);
      }
      JoinTextChecks(op, ns[1..]);
      NoOperatorsInDigits(first);
      OpConcatChecks(op, first, tail);
    }
  }

  /** Digits hold no space, no operator and nothing special, and are legal. */
  lemma NoOperatorsInDigits(d: string)
    requires |d| > 0 && AllDigits(d)
    ensures ' ' !in d && AllLegal(d) && IsDigit(d[0]) && IsDigit(d[|d| - 1]) && !HasAdjacentOperators(d)
  {
    assert forall i :: 0 <= i < |d| ==> d[i] != ' ' && !IsOperator(d[i]) by {
      forall i | 0 <= i < |d| ensures d[i] != ' ' && !IsOperator(d[i]) {
        assert IsDigit(d[i]);
      }
    }
  }

  /** Joining a numeral and a checked text with an operator gives a checked text. */
  lemma OpConcatChecks(op: char, first: string, tail: string)
    requires IsOperator(op)
    requires |first| > 0 && AllDigits(first)
    requires |tail| > 0 && ' ' !in tail && AllLegal(tail) && IsDigit(tail[0]) && IsDigit(tail[|tail| - 1]) && !HasAdjacentOperators(tail)
    ensures var t := first + ([op] + tail);
      |t| > 0 && ' ' !in t && AllLegal(t) && IsDigit(t[0]) && IsDigit(t[|t| - 1]) && !HasAdjacentOperators(t) &&
      HasSpecialBefore(t, |t|)
  {
    var t := first + ([op] + tail);
    var n := |first|;
    assert forall i :: 0 <= i < n ==> t[i] == first[i];
    assert t[n] == op;
    assert forall j :: 0 <= j < |tail| ==> t[n + 1 + j] == tail[j];
    assert HasSpecialBefore(t, |t|) by {
      assert IsSpecial(t[n]);
    }
    forall i | 0 <= i < |t| ensures t[i] != ' ' && IsLegal(t[i]) {
      if i > n {
        assert t[i] == tail[i - n - 1];
      }
    }
    forall i | 0 <= i < |t| - 1 ensures !(IsOperator(t[i]) && IsOperator(t[i + 1])) {
      if i < n {
        assert IsDigit(first[i]);
      } else if i == n {
        assert t[i + 1] == tail[0];
      } else {
        assert t[i] == tail[i - n - 1] && t[i + 1] == tail[i - n];
      }
    }
    assert t[|t| - 1] == tail[|tail| - 1];
  }

  /** The inner merge loop takes every remaining numeral of `n0*n1*...*nk` as a factor. */
  lemma {:induction false} CollectStarFactors(ns: seq<nat>, j: nat)
    requires 2 <= j <= |ns|
    ensures CollectFactors(OpChunks('*', ns), Numerals(ns)[..j], 2 * j - 1) == Success((Numerals(ns), 2 * |ns| - 1))
    decreases |ns| - j
  {
    var chunks := OpChunks('*', ns);
    var numerals := Numerals(ns);
    if j == |ns| {
      assert numerals[..j] == numerals;
    } else {
      StarStep(ns, j);
      CollectStarFactors(ns, j + 1);
    }
  }

  /** One pass of the inner merge loop over `n0*n1*...*nk` takes the next numeral. */
  lemma StarStep(ns: seq<nat>, j: nat)
    requires 2 <= j < |ns|
    ensures CollectFactors(OpChunks('*', ns), Numerals(ns)[..j], 2 * j - 1)
         == CollectFactors(OpChunks('*', ns), Numerals(ns)[..j + 1], 2 * j + 1)
  {
    var chunks := OpChunks('*', ns);
    var numerals := Numerals(ns);
    var i := 2 * j - 1;
    OpChunksAt('*', ns, j - 1);
    OpChunksAt('*', ns, j);
    assert chunks[i] == "*" && chunks[i + 1] == NatToString(ns[j]);
    assert numerals[..j] + [chunks[i + 1]] == numerals[..j + 1];
  }

  lemma {:induction false} ParseNumerals(t: string, ns: seq<nat>)
    requires Shorter(Numerals(ns), t)
    ensures ParseFactors(t, Numerals(ns)) == Success(Numbers(ns))
  {
    if ns != [] {
      ParseNatToString(ns[0]);
      assert Numerals(ns)[1..] == Numerals(ns[1..]);
      ParseNumerals(t, ns[1..]);
      assert Numbers(ns) == [Number(ns[0])] + Numbers(ns[1..]);
    }
  }

  /** All of `n0*n1*...*nk` merges into one product of the numbers. */
  lemma MergeStarChunks(t: string, ns: seq<nat>)
    requires |ns| > 1 && Shorter(OpChunks('*', ns), t)
    ensures MergeFrom(t, OpChunks('*', ns), 0) == Success([Done(Group(Times, Numbers(ns)))])
  {
    var chunks := OpChunks('*', ns);
    OpChunksAt('*', ns, 0);
    OpChunksAt('*', ns, 1);
    assert [chunks[0]] + [chunks[2]] == Numerals(ns)[..2];
    CollectStarFactors(ns, 2);
    assert Shorter(Numerals(ns), t) by {
      forall k | 0 <= k < |ns| ensures |Numerals(ns)[k]| < |t| {
        OpChunksAt('*', ns, k);
      }
    }
    ParseNumerals(t, ns);
    var first := [chunks[0]] + (if 2 < |chunks| then [chunks[2]] else []);
    assert first == Numerals(ns)[..2];
    assert CollectFactors(chunks, first, 3) == Success((Numerals(ns), |chunks|));
    assert MergeFrom(t, chunks, |chunks|) == Success([]);
    assert [Done(Group(Times, Numbers(ns)))] + [] == [Done(Group(Times, Numbers(ns)))];
  }

  /**
   * `"*".join(str(n) for n in ns)` parses to the single number when there is
   * one, and otherwise to a sum holding one product of all the numbers.
   */
  lemma ParseProduct(ns: seq<nat>)
    requires |ns| > 0
    ensures Parse(Join("*", Numerals(ns))) ==
      Success(if |ns| == 1 then Number(ns[0]) else Group(Plus, [Group(Times, Numbers(ns))]))
  {
    var t := Join("*", Numerals(ns));
    if |ns| == 1 {
      assert t == NatToString(ns[0]);
      ParseNatToString(ns[0]);
    } else {
      JoinTextChecks('*', ns);
      RemoveSpacesKeeps(t);
      ParseCompactProduct(t, ns);
    }
  }

  lemma ParseCompactProduct(t: string, ns: seq<nat>)
    requires |ns| > 1 && t == Join("*", Numerals(ns))
    requires |t| > 0 && AllLegal(t) && IsDigit(t[0]) && IsDigit(t[|t| - 1]) && !HasAdjacentOperators(t) && HasSpecialBefore(t, |t|)
    ensures ParseCompact(t) == Success(Group(Plus, [Group(Times, Numbers(ns))]))
  {
    var g := Group(Times, Numbers(ns));
    var chunks := OpChunks('*', ns);
    assert Chunks(t) == Success(chunks) by {
      ChunksOfJoin('*', ns);
    }
    assert Shorter(chunks, t) by {
      ChunksShorter(t);
    }
    assert MergeFrom(t, chunks, 0) == Success([Done(g)]) by {
      MergeStarChunks(t, ns);
    }
    assert ParseRemaining(t, [Done(g)]) == Success([g]) by {
      assert [Done(g)][1..] == [];
      assert [g] + [] == [g];
    }
    ParseCompactChunked(t, chunks, [Done(g)], [g]);
  }

  /** A legal, well-delimited text with a special character parses as the sum of what its chunks merge and parse to. */
  lemma ParseCompactChunked(t: string, chunks: seq<string>, merged: seq<Merged>, elements: seq<MeterGroup>)
    requires |t| > 0 && AllLegal(t) && WellDelimited(t) && !HasAdjacentOperators(t) && HasSpecialBefore(t, |t|)
    requires Chunks(t) == Success(chunks) && Shorter(chunks, t)
    requires MergeFrom(t, chunks, 0) == Success(merged)
    requires ParseRemaining(t, merged) == Success(elements)
    ensures ParseCompact(t) == Success(Group(Plus, elements))
  {
  }

  /** Every chunk kept for later parsing. */
  function Pendings(cs: seq<string>): (r: seq<Merged>)
    ensures |r| == |cs| && forall k :: 0 <= k < |cs| ==> r[k] == Pending(cs[k])
  {
    if cs == [] then [] else [Pending(cs[0])] + Pendings(cs[1..])
  }

  /** Without any `*` chunk, the merge loop keeps every chunk as it is. */
  lemma {:induction false} MergeWithoutProducts(t: string, chunks: seq<string>, i: nat)
    requires Shorter(chunks, t) && i <= |chunks|
    requires forall k :: 0 <= k < |chunks| ==> chunks[k] != "*"
    ensures MergeFrom(t, chunks, i) == Success(Pendings(chunks[i..]))
    decreases |chunks| - i
  {
    if i < |chunks| {
      MergeWithoutProducts(t, chunks, i + 1);
      assert chunks[i] != "*" && !(i + 1 < |chunks| && chunks[i + 1] == "*");
      MergeKeeps(t, chunks, i);
      PendingsCons(chunks[i..]);
      assert chunks[i..][1..] == chunks[i + 1..];
    }
  }

  lemma PendingsCons(cs: seq<string>)
    requires cs != []
    ensures Pendings(cs) == [Pending(cs[0])] + Pendings(cs[1..])
  {
  }

  /** A chunk not followed by `*` is kept for later, ahead of what the rest merges to. */
  lemma MergeKeeps(t: string, chunks: seq<string>, i: nat)
    requires Shorter(chunks, t) && i < |chunks|
    requires !(i + 1 < |chunks| && chunks[i + 1] == "*")
    requires MergeFrom(t, chunks, i + 1).Success?
    ensures MergeFrom(t, chunks, i) == Success([Pending(chunks[i])] + MergeFrom(t, chunks, i + 1).value)
  {
  }

  /** A sum's chunks are numerals and `+`. */
  lemma {:induction false} SumChunksNoStar(ns: seq<nat>)
    requires |ns| > 0
    ensures forall k :: 0 <= k < |OpChunks('+', ns)| ==> OpChunks('+', ns)[k] != "*"
  {
    if |ns| > 1 {
      SumChunksNoStar(ns[1..]);
      var first := NatToString(ns[0]);
      assert first != "*" by {
        assert IsDigit(first[0]);
      }
      assert OpChunks('+', ns) == [first, "+"] + OpChunks('+', ns[1..]);
    } else {
      assert IsDigit(NatToString(ns[0])[0]);
    }
  }

  /** The final comprehension over a sum's chunks parses the numerals and drops the `+` signs. */
  lemma {:induction false} ParseSumChunks(t: string, ns: seq<nat>)
    requires |ns| > 0 && Shorter(OpChunks('+', ns), t)
    ensures ParseRemaining(t, Pendings(OpChunks('+', ns))) == Success(Numbers(ns))
  {
    var first := NatToString(ns[0]);
    var ms := Pendings(OpChunks('+', ns));
    var rest := ms[1..];
    var later := Numbers(ns[1..]);
    assert ParseRemaining(t, rest) == Success(later) by {
      if |ns| == 1 {
        assert rest == [];
      } else {
        var tail := Pendings(OpChunks('+', ns[1..]));
        assert rest == [Pending("+")] + tail;
        assert rest[1..] == tail;
        assert ParseRemaining(t, tail) == Success(later) by {
          assert forall k :: 0 <= k < |OpChunks('+', ns[1..])| ==> OpChunks('+', ns[1..])[k] == OpChunks('+', ns)[k + 2];
          ParseSumChunks(t, ns[1..]);
        }
        SkipPlus(t, rest);
      }
    }
    assert ms[0] == Pending(first) && first != "+" by {
      assert IsDigit(first[0]);
    }
    assert Parse(first) == Success(Number(ns[0])) by {
      ParseNatToString(ns[0]);
    }
    ParsePendingChunk(t, ms);
    assert Numbers(ns) == [Number(ns[0])] + later;
  }

  /** A `+` chunk is dropped. */
  lemma SkipPlus(t: string, ms: seq<Merged>)
    requires forall k :: 0 <= k < |ms| ==> ms[k].Pending? ==> |ms[k].chunk| < |t|
    requires forall k :: 0 <= k < |ms| ==> ms[k].Done? ==> WellFormed(ms[k].group)
    requires ms != [] && ms[0] == Pending("+")
    ensures ParseRemaining(t, ms) == ParseRemaining(t, ms[1..])
  {
  }

  /** Any other pending chunk is parsed and kept in front of the rest. */
  lemma ParsePendingChunk(t: string, ms: seq<Merged>)
    requires forall k :: 0 <= k < |ms| ==> ms[k].Pending? ==> |ms[k].chunk| < |t|
    requires forall k :: 0 <= k < |ms| ==> ms[k].Done? ==> WellFormed(ms[k].group)
    requires ms != [] && ms[0].Pending? && ms[0].chunk != "+"
    requires Parse(ms[0].chunk).Success? && ParseRemaining(t, ms[1..]).Success?
    ensures ParseRemaining(t, ms) == Success([Parse(ms[0].chunk).value] + ParseRemaining(t, ms[1..]).value)
  {
  }

  /**
   * `"+".join(str(n) for n in ns)` parses to the single number when there is
   * one, and otherwise to one flat sum of all the numbers.
   */
  lemma ParseSum(ns: seq<nat>)
    requires |ns| > 0
    ensures Parse(Join("+", Numerals(ns))) == Success(if |ns| == 1 then Number(ns[0]) else Group(Plus, Numbers(ns)))
  {
    var t := Join("+", Numerals(ns));
    if |ns| == 1 {
      assert t == NatToString(ns[0]);
      ParseNatToString(ns[0]);
    } else {
      JoinTextChecks('+', ns);
      RemoveSpacesKeeps(t);
      ParseCompactSum(t, ns);
    }
  }

  lemma ParseCompactSum(t: string, ns: seq<nat>)
    requires |ns| > 1 && t == Join("+", Numerals(ns))
    requires |t| > 0 && AllLegal(t) && IsDigit(t[0]) && IsDigit(t[|t| - 1]) && !HasAdjacentOperators(t) && HasSpecialBefore(t, |t|)
    ensures ParseCompact(t) == Success(Group(Plus, Numbers(ns)))
  {
    var chunks := OpChunks('+', ns);
    assert Chunks(t) == Success(chunks) by {
      ChunksOfJoin('+', ns);
    }
    assert Shorter(chunks, t) by {
      ChunksShorter(t);
    }
    assert MergeFrom(t, chunks, 0) == Success(Pendings(chunks)) by {
      SumChunksNoStar(ns);
      MergeWithoutProducts(t, chunks, 0);
      assert chunks[0..] == chunks;
    }
    assert ParseRemaining(t, Pendings(chunks)) == Success(Numbers(ns)) by {
      ParseSumChunks(t, ns);
    }
  }

  /** Inside parentheses, characters other than parentheses only lengthen the current chunk. */
  lemma {:induction false} ScanInsideParentheses(st: ChunkState, s: string)
    requires st.level > 0
    requires forall i :: 0 <= i < |s| ==> s[i] != '(' && s[i] != ')'
    ensures ScanFrom(st, s) == Success(st.(current := st.current + s))
    decreases s
  {
    if s != [] {
      var next := st.(current := st.current + [s[0]]);
      assert Step(st, s[0]) == Success(next);
      ScanInsideParentheses(next, s[1..]);
      assert st.current + [s[0]] + s[1..] == st.current + s;
    } else {
      assert st.current + s == st.current;
    }
  }

  lemma ScanFromCons(st: ChunkState, c: char, s: string)
    ensures ScanFrom(st, [c] + s) == (if Step(st, c).Success? then ScanFrom(Step(st, c).value, s) else Step(st, c).PropagateFailure())
  {
    assert ([c] + s)[0] == c && ([c] + s)[1..] == s;
  }

  /** The text `(a+b)+c`. */
  function NestedSumText(a: nat, b: nat, c: nat): string
  {
    "(" + Join("+", Numerals([a, b])) + ")+" + NatToString(c)
  }

  lemma NestedSumTextChecks(a: nat, b: nat, c: nat)
    ensures var t := NestedSumText(a, b, c);
      |t| > 0 && ' ' !in t && AllLegal(t) && WellDelimited(t) && !HasAdjacentOperators(t) && HasSpecialBefore(t, |t|)
  {
    var inner := Join("+", Numerals([a, b]));
    var d := NatToString(c);
    var t := NestedSumText(a, b, c);
    JoinTextChecks('+', [a, b]);
    NoOperatorsInDigits(d);
    var n := |inner|;
    assert t[0] == '(' && t[n + 1] == ')' && t[n + 2] == '+';
    assert forall j :: 0 <= j < n ==> t[1 + j] == inner[j];
    assert forall j :: 0 <= j < |d| ==> t[n + 3 + j] == d[j];
    assert HasSpecialBefore(t, |t|) by {
      assert IsSpecial(t[0]);
    }
    forall i | 0 <= i < |t| ensures t[i] != ' ' && IsLegal(t[i]) {
      if 1 <= i <= n {
        assert t[i] == inner[i - 1];
      } else if i >= n + 3 {
        assert t[i] == d[i - n - 3];
      }
    }
    forall i | 0 <= i < |t| - 1 ensures !(IsOperator(t[i]) && IsOperator(t[i + 1])) {
      if 1 <= i < n {
        assert t[i] == inner[i - 1] && t[i + 1] == inner[i];
      } else if i == n {
        assert t[i] == inner[n - 1];
      } else if i == n + 2 {
        assert t[i + 1] == d[0];
      } else if i > n + 2 {
        assert t[i] == d[i - n - 3];
      }
    }
    assert t[|t| - 1] == d[|d| - 1];
  }

  lemma ChunksOfNestedSum(a: nat, b: nat, c: nat)
    ensures Chunks(NestedSumText(a, b, c)) == Success([Join("+", Numerals([a, b])), "+", NatToString(c)])
  {
    var inner := Join("+", Numerals([a, b]));
    var d := NatToString(c);
    var t := NestedSumText(a, b, c);
    assert ScanPrefix(t, |t|) == Success(ChunkState(0, [inner, "+"], d)) by {
      ScanNestedSum(a, b, c);
      ScanPrefixFrom(t, |t|);
      assert t[..|t|] == t;
    }
    assert [inner, "+"] + [d] == [inner, "+", d];
  }

  /** Scanning `(a+b)+c` leaves the group and the operator as chunks and `c` being read. */
  lemma ScanNestedSum(a: nat, b: nat, c: nat)
    ensures ScanFrom(ChunkState(0, [], ""), NestedSumText(a, b, c))
      == Success(ChunkState(0, [Join("+", Numerals([a, b])), "+"], NatToString(c)))
  {
    var inner := Join("+", Numerals([a, b]));
    var d := NatToString(c);
    var t := NestedSumText(a, b, c);
    var rest3 := ['+'] + d;
    var rest2 := [')'] + rest3;
    var rest1 := inner + rest2;
    assert t == ['('] + rest1;
    var s1 := ChunkState(1, [], "");
    var s2 := ChunkState(1, [], inner);
    var s3 := ChunkState(0, [inner], "");
    var s4 := ChunkState(0, [inner, "+"], "");
    var s5 := ChunkState(0, [inner, "+"], d);
    assert ScanFrom(ChunkState(0, [], ""), t) == ScanFrom(s1, rest1) by {
      ScanFromCons(ChunkState(0, [], ""), '(', rest1);
    }
    assert ScanFrom(s1, rest1) == ScanFrom(s2, rest2) by {
      ScanFromAppend(s1, inner, rest2);
      JoinHasNoParentheses([a, b]);
      ScanInsideParentheses(s1, inner);
      assert "" + inner == inner;
    }
    assert ScanFrom(s2, rest2) == ScanFrom(s3, rest3) by {
      ScanFromCons(s2, ')', rest3);
      assert !IsOperator(')') && s2.chunks + [s2.current] == [inner];
    }
    assert ScanFrom(s3, rest3) == ScanFrom(s4, d) by {
      ScanFromCons(s3, '+', d);
      assert [inner] + [['+']] == [inner, "+"];
      assert Step(s3, '+') == Success(s4);
    }
    assert ScanFrom(s4, d) == Success(s5) by {
      ScanDigits(s4, d);
      assert "" + d == d;
    }
  }

  /** Numerals joined by an operator hold only digits and that operator. */
  lemma {:induction false} JoinHasNoParentheses(ns: seq<nat>)
    ensures forall i :: 0 <= i < |Join("+", Numerals(ns))| ==> IsDigit(Join("+", Numerals(ns))[i]) || Join("+", Numerals(ns))[i] == '+'
  {
    if |ns| > 1 {
      JoinHasNoParentheses(ns[1..]);
      assert Numerals(ns)[1..] == Numerals(ns[1..]);
      var first := NatToString(ns[0]);
      var tail := Join("+", Numerals(ns[1..]));
      var t := Join("+", Numerals(ns));
      assert t == first + "+" + tail;
      forall i | 0 <= i < |t| ensures IsDigit(t[i]) || t[i] == '+' {
        if i < |first| {
          assert t[i] == first[i];
        } else if i > |first| {
          assert t[i] == tail[i - |first| - 1];
        }
      }
    }
  }

  /**
   * Addition is not associative: `(a+b)+c` is a sum whose first member is the
   * sum of `a` and `b`, whereas `a+b+c` (`ParseSum`) is one flat sum.
   */
  lemma ParseNestedSum(a: nat, b: nat, c: nat)
    ensures Parse(NestedSumText(a, b, c)) == Success(Group(Plus, [Group(Plus, [Number(a), Number(b)]), Number(c)]))
  {
    var t := NestedSumText(a, b, c);
    NestedSumTextChecks(a, b, c);
    RemoveSpacesKeeps(t);
    ParseCompactNestedSum(a, b, c);
  }

  lemma ParseCompactNestedSum(a: nat, b: nat, c: nat)
    requires var t := NestedSumText(a, b, c);
      |t| > 0 && AllLegal(t) && WellDelimited(t) && !HasAdjacentOperators(t) && HasSpecialBefore(t, |t|)
    ensures ParseCompact(NestedSumText(a, b, c)) == Success(Group(Plus, [Group(Plus, [Number(a), Number(b)]), Number(c)]))
  {
    var t := NestedSumText(a, b, c);
    var inner := Join("+", Numerals([a, b]));
    var d := NatToString(c);
    var chunks := [inner, "+", d];
    assert Chunks(t) == Success(chunks) by {
      ChunksOfNestedSum(a, b, c);
    }
    assert Shorter(chunks, t) by {
      ChunksShorter(t);
    }
    assert MergeFrom(t, chunks, 0) == Success(Pendings(chunks)) by {
      assert inner != "*" by {
        JoinTextChecks('+', [a, b]);
        assert IsDigit(inner[0]);
      }
      assert d != "*" by {
        assert IsDigit(d[0]);
      }
      MergeWithoutProducts(t, chunks, 0);
      assert chunks[0..] == chunks;
    }
    var sum := Group(Plus, [Number(a), Number(b)]);
    assert Parse(inner) == Success(sum) by {
      ParseSum([a, b]);
      assert Numbers([a, b]) == [Number(a), Number(b)];
    }
    assert Parse(d) == Success(Number(c)) by {
      ParseNatToString(c);
    }
    assert d != "+" by {
      assert IsDigit(d[0]);
    }
    assert inner != "+" by {
      JoinTextChecks('+', [a, b]);
      assert IsDigit(inner[0]);
    }
    assert Pendings(chunks) == [Pending(inner), Pending("+"), Pending(d)];
    ParseRemainingOfSum(t, inner, d, sum, Number(c));
  }

  /** The comprehension over the chunks of `x + y`. */
  lemma ParseRemainingOfSum(t: string, x: string, y: string, gx: MeterGroup, gy: MeterGroup)
    requires 1 < |t| && |x| < |t| && |y| < |t| && x != "+" && y != "+"
    requires Parse(x) == Success(gx) && Parse(y) == Success(gy)
    ensures ParseRemaining(t, [Pending(x), Pending("+"), Pending(y)]) == Success([gx, gy])
  {
    var ms := [Pending(x), Pending("+"), Pending(y)];
    assert ParseRemaining(t, ms[2..]) == Success([gy]) by {
      assert ms[2..] == [Pending(y)] && [Pending(y)][1..] == [];
      assert [gy] + [] == [gy];
    }
    assert ParseRemaining(t, ms[1..]) == Success([gy]) by {
      assert ms[1..][0] == Pending("+") && ms[1..][1..] == ms[2..];
    }
    assert [gx] + [gy] == [gx, gy];
  }
}
