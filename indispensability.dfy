/**
 * The public entry points of the indispensability engine: an array from a
 * meter expression (parse, build the metric layer, rank its beats), from a
 * list of rhythmic strata (each written out as a factor of a product), and
 * Barlow's original form, which only takes whole-number strata, breaks
 * large numbers into 2s and 3s and does not rank upbeats first.
 */
module Indispensability {
  import opened Wrappers
  import opened Builtins
  import opened MetricLayers
  import opened BeatTrees
  import opened BeatPriorities
  import opened MeterParser

  /** The exception that ends the pipeline, by the stage that raises it. */
  datatype ArrayError =
    | ParseFailed(parse: ParseError)     // an assertion (or IndexError) in `parse`
    | ReduceFailed(reduce: ReduceError)  // `functools.reduce` of an empty product
    | DepthFailed(depth: DepthError)     // `max` of an empty sequence in `normalize_depth`
    | NotIntegerStrata                   // Barlow's form given a stratum that is not an int

  /**
   * `indispensability_array_from_expression(s, normalize=False,
   * split_large_numbers=breakUp, upbeats_before_group_length=upbeats)`.
   */
  function FromExpression(s: string, breakUp: bool, upbeats: bool): Result<seq<int>, ArrayError>
  {
    match Parse(s)
    case Failure(e) => Failure(ParseFailed(e))
    case Success(g) =>
      match ToMetricLayer(g, breakUp)
      case Failure(e) => Failure(ReduceFailed(e))
      case Success(groups) =>
        match LayerIndispensabilityArray(groups, upbeats)
        case Failure(e) => Failure(DepthFailed(e))
        case Success(a) => Success(a)
  }

  /**
   * What the pipeline promises: a parse error comes out unchanged, the
   * reduction never fails on a parsed expression, a meter of 0 beats has no
   * array, and otherwise the array ranks the beats 0..N-1 of the expression's
   * value N with the downbeat most indispensable.
   */
  lemma FromExpressionArray(s: string, breakUp: bool, upbeats: bool)
    ensures Parse(s).Failure? ==> FromExpression(s, breakUp, upbeats) == Failure(ParseFailed(Parse(s).error))
    ensures FromExpression(s, breakUp, upbeats).Failure? ==> !FromExpression(s, breakUp, upbeats).error.ReduceFailed?
    ensures Parse(s).Success? && Value(Parse(s).value) == 0 ==>
      FromExpression(s, breakUp, upbeats) == Failure(DepthFailed(MaxOfEmptySequence))
    ensures FromExpression(s, breakUp, upbeats).Success? ==>
      Parse(s).Success? && Value(Parse(s).value) > 0 &&
      IsPermutationOfRange(FromExpression(s, breakUp, upbeats).value, Value(Parse(s).value)) &&
      FromExpression(s, breakUp, upbeats).value[0] == Value(Parse(s).value) - 1
  {
    if Parse(s).Success? {
      var g := Parse(s).value;
      ToMetricLayerSucceeds(g, breakUp);
      ToMetricLayerCount(g, breakUp);
      var groups := ToMetricLayer(g, breakUp).value;
      LayerIndispensabilityArrayPermutation(groups, upbeats);
      if LayerIndispensabilityArray(groups, upbeats).Failure? {
        var e := LayerIndispensabilityArray(groups, upbeats).error;
        assert e == MaxOfEmptySequence;
        assert FromExpression(s, breakUp, upbeats) == Failure(DepthFailed(e));
      } else {
        assert FromExpression(s, breakUp, upbeats) == Success(LayerIndispensabilityArray(groups, upbeats).value);
      }
    }
  }

  // ---------------------------------------------------------------------
  // When the array exists
  // ---------------------------------------------------------------------

  /** Every number in the expression is positive and no sum or product is empty. */
  predicate Positive(g: MeterGroup)
  {
    match g
    case Number(n) => n > 0
    case Group(_, es) => |es| > 0 && forall k :: 0 <= k < |es| ==> Positive(es[k])
  }

  /** An expression of positive numbers always has an array. */
  lemma FromExpressionSucceeds(s: string, breakUp: bool, upbeats: bool)
    requires Parse(s).Success? && Positive(Parse(s).value)
    ensures FromExpression(s, breakUp, upbeats).Success?
  {
    var g := Parse(s).value;
    ToMetricLayerNonEmpty(g, breakUp);
    LayerIndispensabilityArrayPermutation(ToMetricLayer(g, breakUp).value, upbeats);
  }

  /** The layer of a positive expression has no empty group anywhere. */
  lemma {:induction false} ToMetricLayerNonEmpty(g: MeterGroup, breakUp: bool)
    requires Positive(g)
    ensures ToMetricLayer(g, breakUp).Success? && NonEmptyGroups(ToMetricLayer(g, breakUp).value)
    decreases g, 1
  {
    match g
    case Number(n) =>
      NewLayerNonEmpty([Beats(n)], breakUp);
    case Group(op, es) =>
      ToMetricLayersNonEmpty(es, breakUp);
      var layers := ToMetricLayers(es, breakUp).value;
      if op == Plus {
        var groups := AsGroups(layers);
        assert NonEmptyGroups(groups) by {
          forall k | 0 <= k < |groups| ensures NonEmptyGroup(groups[k]) {
            assert groups[k] == Layer(layers[k]);
          }
        }
        NewLayerNonEmpty(groups, breakUp);
      } else {
        assert forall k :: 0 <= k < |layers| - 1 ==> layers[1..][k] == layers[k + 1];
        MultiplyAllNonEmpty(layers[0], layers[1..]);
      }
  }

  lemma {:induction false} ToMetricLayersNonEmpty(es: seq<MeterGroup>, breakUp: bool)
    requires forall k :: 0 <= k < |es| ==> Positive(es[k])
    ensures ToMetricLayers(es, breakUp).Success?
    ensures forall k :: 0 <= k < |es| ==> NonEmptyGroups(ToMetricLayers(es, breakUp).value[k])
    decreases es, 0
  {
    if es != [] {
      ToMetricLayerNonEmpty(es[0], breakUp);
      assert forall k :: 0 <= k < |es| - 1 ==> es[1..][k] == es[k + 1];
      ToMetricLayersNonEmpty(es[1..], breakUp);
      var r := ToMetricLayers(es, breakUp).value;
      assert forall k :: 1 <= k < |es| ==> r[k] == ToMetricLayers(es[1..], breakUp).value[k - 1];
    }
  }

  /** The constructor keeps every group non-empty, breaking up or not. */
  lemma NewLayerNonEmpty(groups: seq<Group>, breakUp: bool)
    requires NonEmptyGroups(groups)
    ensures NonEmptyGroups(NewLayer(groups, breakUp))
  {
    if breakUp {
      BreakUpNonEmpty(groups);
      RemoveRedundantNestingNonEmpty(BreakUp(groups));
    } else {
      RemoveRedundantNestingNonEmpty(groups);
    }
  }

  lemma {:induction false} RemoveRedundantNestingNonEmpty(groups: seq<Group>)
    requires NonEmptyGroups(groups)
    ensures NonEmptyGroups(RemoveRedundantNesting(groups))
    decreases groups, 1
  {
    if |groups| == 1 && groups[0].Layer? {
      RemoveRedundantNestingNonEmpty(groups[0].groups);
    } else {
      SimplifyChildrenNonEmpty(groups);
    }
  }

  lemma {:induction false} SimplifyChildrenNonEmpty(groups: seq<Group>)
    requires forall i :: 0 <= i < |groups| ==> NonEmptyGroup(groups[i])
    ensures forall i :: 0 <= i < |groups| ==> NonEmptyGroup(SimplifyChildren(groups)[i])
    decreases groups, 0
  {
    if groups != [] {
      assert forall i :: 0 <= i < |groups| - 1 ==> groups[1..][i] == groups[i + 1];
      SimplifyChildrenNonEmpty(groups[1..]);
      var r := SimplifyChildren(groups);
      assert r[1..] == SimplifyChildren(groups[1..]);
      match groups[0]
      case Beats(_) =>
      case Layer(gs) =>
        RemoveRedundantNestingNonEmpty(gs);
      forall i | 0 <= i < |r| ensures NonEmptyGroup(r[i]) {
        if i > 0 { assert r[i] == SimplifyChildren(groups[1..])[i - 1]; }
      }
    }
  }

  lemma {:induction false} BreakUpNonEmpty(groups: seq<Group>)
    requires forall i :: 0 <= i < |groups| ==> NonEmptyGroup(groups[i])
    ensures forall i :: 0 <= i < |groups| ==> NonEmptyGroup(BreakUp(groups)[i])
    decreases groups, 0
  {
    if groups != [] {
      assert forall i :: 0 <= i < |groups| - 1 ==> groups[1..][i] == groups[i + 1];
      BreakUpGroupNonEmpty(groups[0]);
      BreakUpNonEmpty(groups[1..]);
      var r := BreakUp(groups);
      assert r[1..] == BreakUp(groups[1..]);
      forall i | 0 <= i < |r| ensures NonEmptyGroup(r[i]) {
        if i > 0 { assert r[i] == BreakUp(groups[1..])[i - 1]; }
      }
    }
  }

  lemma {:induction false} BreakUpGroupNonEmpty(g: Group)
    requires NonEmptyGroup(g)
    ensures NonEmptyGroup(BreakUpGroup(g))
    decreases g, 1
  {
    match g
    case Beats(n) =>
      if n > 3 {
        var pieces := Decompose(n);
        DecomposeSums(n);
        var gs := BeatsOf(pieces);
        assert NonEmptyGroups(gs) by {
          forall i | 0 <= i < |gs| ensures NonEmptyGroup(gs[i]) {
            assert gs[i] == Beats(pieces[i]);
          }
        }
        RemoveRedundantNestingNonEmpty(gs);
      }
    case Layer(gs) =>
      BreakUpNonEmpty(gs);
  }

  lemma {:induction false} MulNonEmpty(a: seq<Group>, b: seq<Group>)
    requires NonEmptyGroups(a) && NonEmptyGroups(b)
    ensures NonEmptyGroups(Mul(a, b))
    decreases a, 1
  {
    MulGroupsNonEmpty(a, b);
    NewLayerNonEmpty(MulGroups(a, b), false);
  }

  lemma {:induction false} MulGroupsNonEmpty(a: seq<Group>, b: seq<Group>)
    requires (forall i :: 0 <= i < |a| ==> NonEmptyGroup(a[i])) && NonEmptyGroups(b)
    ensures forall i :: 0 <= i < |a| ==> NonEmptyGroup(MulGroups(a, b)[i])
    decreases a, 0
  {
    if a != [] {
      assert forall i :: 0 <= i < |a| - 1 ==> a[1..][i] == a[i + 1];
      MulGroupNonEmpty(a[0], b);
      MulGroupsNonEmpty(a[1..], b);
      var r := MulGroups(a, b);
      assert r[1..] == MulGroups(a[1..], b);
      forall i | 0 <= i < |r| ensures NonEmptyGroup(r[i]) {
        if i > 0 { assert r[i] == MulGroups(a[1..], b)[i - 1]; }
      }
    }
  }

  lemma {:induction false} MulGroupNonEmpty(g: Group, b: seq<Group>)
    requires NonEmptyGroup(g) && NonEmptyGroups(b)
    ensures NonEmptyGroup(MulGroup(g, b))
    decreases g
  {
    match g
    case Beats(k) =>
      if k != 1 {
        var copies := Repeat(Layer(b), k);
        assert NonEmptyGroups(copies) by {
          assert forall i :: 0 <= i < |copies| ==> copies[i] == Layer(b);
        }
        NewLayerNonEmpty(copies, false);
      }
    case Layer(gs) =>
      MulNonEmpty(gs, b);
  }

  lemma {:induction false} MultiplyAllNonEmpty(acc: seq<Group>, rest: seq<seq<Group>>)
    requires NonEmptyGroups(acc) && forall k :: 0 <= k < |rest| ==> NonEmptyGroups(rest[k])
    ensures NonEmptyGroups(MultiplyAll(acc, rest))
    decreases |rest|
  {
    if rest != [] {
      MulNonEmpty(acc, rest[0]);
      assert forall k :: 0 <= k < |rest| - 1 ==> rest[1..][k] == rest[k + 1];
      MultiplyAllNonEmpty(Mul(acc, rest[0]), rest[1..]);
    }
  }

  // ---------------------------------------------------------------------
  // Strata
  // ---------------------------------------------------------------------

  /** A rhythmic stratum: a whole number, or a sequence of numbers (an additive group). */
  datatype Stratum = IntStratum(n: int) | SeqStratum(parts: seq<int>)

  /** `[str(y) for y in ys]` */
  function IntStrings(ys: seq<int>): (r: seq<string>)
    ensures |r| == |ys| && forall k :: 0 <= k < |ys| ==> r[k] == IntToString(ys[k])
  {
    if ys == [] then [] else [IntToString(ys[0])] + IntStrings(ys[1..])
  }

  /** A sequence stratum as `(a+b+...)`, a number as its decimal string. */
  function StratumText(x: Stratum): string
  {
    match x
    case IntStratum(n) => IntToString(n)
    case SeqStratum(ys) => "(" + Join("+", IntStrings(ys)) + ")"
  }

  function StrataTexts(xs: seq<Stratum>): (r: seq<string>)
    ensures |r| == |xs| && forall k :: 0 <= k < |xs| ==> r[k] == StratumText(xs[k])
  {
    if xs == [] then [] else [StratumText(xs[0])] + StrataTexts(xs[1..])
  }

  /** The expression the strata stand for: their texts joined by `*`. */
  function StrataExpression(xs: seq<Stratum>): string
  {
    Join("*", StrataTexts(xs))
  }

  /** `indispensability_array_from_strata(*xs, normalize=False, ...)` */
  function FromStrata(xs: seq<Stratum>, breakUp: bool, upbeats: bool): Result<seq<int>, ArrayError>
  {
    FromExpression(StrataExpression(xs), breakUp, upbeats)
  }

  predicate AllIntegers(xs: seq<Stratum>)
  {
    forall k :: 0 <= k < |xs| ==> xs[k].IntStratum?
  }

  /**
   * `barlow_style_indispensability_array(*xs, normalize=False)`: rejects
   * a stratum that is not an int, otherwise the `*`-joined numbers with
   * large numbers broken up and no upbeats first.
   */
  function BarlowStyle(xs: seq<Stratum>): Result<seq<int>, ArrayError>
  {
    if !AllIntegers(xs) then Failure(NotIntegerStrata)
    else FromExpression(StrataExpression(xs), true, false)
  }

  /** Whole-number strata. */
  function Counts(ns: seq<nat>): (r: seq<Stratum>)
    ensures |r| == |ns| && forall k :: 0 <= k < |ns| ==> r[k] == IntStratum(ns[k])
  {
    if ns == [] then [] else [IntStratum(ns[0])] + Counts(ns[1..])
  }

  function Product(ns: seq<nat>): nat
  {
    if ns == [] then 1 else ns[0] * Product(ns[1..])
  }

  /** A product of naturals is positive exactly when every factor is. */
  lemma {:induction false} ProductPositive(ns: seq<nat>)
    ensures Product(ns) > 0 <==> forall k :: 0 <= k < |ns| ==> ns[k] > 0
  {
    if ns != [] {
      ProductPositive(ns[1..]);
      assert forall k :: 1 <= k < |ns| ==> ns[k] == ns[1..][k - 1];
    }
  }

  lemma {:induction false} ProductValuesOfNumbers(ns: seq<nat>)
    ensures ProductValues(Numbers(ns)) == Product(ns)
  {
    if ns != [] {
      ProductValuesOfNumbers(ns[1..]);
      assert Numbers(ns)[1..] == Numbers(ns[1..]);
    }
  }

  /** Whole-number strata are written as their numerals joined by `*`. */
  lemma StrataExpressionOfCounts(ns: seq<nat>)
    ensures StrataExpression(Counts(ns)) == Join("*", Numerals(ns))
  {
    assert StrataTexts(Counts(ns)) == Numerals(ns);
  }

  /** What `parse` makes of `"*".join` of numerals: the number, or a sum holding their product. */
  function ProductTree(ns: seq<nat>): MeterGroup
    requires |ns| > 0
  {
    if |ns| == 1 then Number(ns[0]) else Group(Plus, [Group(Times, Numbers(ns))])
  }

  lemma ProductTreeValue(ns: seq<nat>)
    requires |ns| > 0
    ensures Value(ProductTree(ns)) == Product(ns)
    ensures (forall k :: 0 <= k < |ns| ==> ns[k] > 0) ==> Positive(ProductTree(ns))
  {
    ProductValuesOfNumbers(ns);
    if |ns| == 1 {
      assert Product(ns) == ns[0] * Product([]);
    } else {
      var product := Group(Times, Numbers(ns));
      assert SumValues([product]) == Value(product) + SumValues([]);
      if forall k :: 0 <= k < |ns| ==> ns[k] > 0 {
        assert Positive(product) by {
          assert forall k :: 0 <= k < |ns| ==> Positive(Numbers(ns)[k]);
        }
        assert [product][0] == product;
      }
    }
  }

  /**
   * Whole-number strata parse to the product of the numbers (a bare number
   * when there is one stratum); it is positive exactly when every stratum is.
   */
  lemma ParseOfCounts(ns: seq<nat>)
    requires |ns| > 0
    ensures Parse(StrataExpression(Counts(ns))).Success?
    ensures Value(Parse(StrataExpression(Counts(ns))).value) == Product(ns)
    ensures (forall k :: 0 <= k < |ns| ==> ns[k] > 0) ==> Positive(Parse(StrataExpression(Counts(ns))).value)
  {
    StrataExpressionOfCounts(ns);
    ParseProduct(ns);
    assert Parse(StrataExpression(Counts(ns))) == Success(ProductTree(ns));
    ProductTreeValue(ns);
  }

  /**
   * Strata of whole numbers give an array exactly when every stratum is
   * positive; it is then a permutation of 0..N-1, N the product of the
   * strata, whose downbeat is N-1.
   */
  lemma FromStrataOfCounts(ns: seq<nat>, breakUp: bool, upbeats: bool)
    requires |ns| > 0
    ensures FromStrata(Counts(ns), breakUp, upbeats).Success? <==> forall k :: 0 <= k < |ns| ==> ns[k] > 0
    ensures FromStrata(Counts(ns), breakUp, upbeats).Success? ==>
      Product(ns) > 0 && IsPermutationOfRange(FromStrata(Counts(ns), breakUp, upbeats).value, Product(ns)) &&
      FromStrata(Counts(ns), breakUp, upbeats).value[0] == Product(ns) - 1
  {
    var s := StrataExpression(Counts(ns));
    ParseOfCounts(ns);
    ProductPositive(ns);
    FromExpressionArray(s, breakUp, upbeats);
    if forall k :: 0 <= k < |ns| ==> ns[k] > 0 {
      FromExpressionSucceeds(s, breakUp, upbeats);
    }
  }

  /** Barlow's form on positive whole numbers is a permutation with the downbeat first. */
  lemma BarlowStyleOfCounts(ns: seq<nat>)
    requires |ns| > 0
    ensures BarlowStyle(Counts(ns)).Success? <==> forall k :: 0 <= k < |ns| ==> ns[k] > 0
    ensures BarlowStyle(Counts(ns)).Success? ==>
      Product(ns) > 0 && IsPermutationOfRange(BarlowStyle(Counts(ns)).value, Product(ns)) &&
      BarlowStyle(Counts(ns)).value[0] == Product(ns) - 1
  {
    assert BarlowStyle(Counts(ns)) == FromStrata(Counts(ns), true, false) by {
      assert AllIntegers(Counts(ns));
    }
    FromStrataOfCounts(ns, true, false);
  }

  /**
   * Barlow's form fails on a sequence stratum before it builds any text, and
   * on no strata at all with the empty-input assertion.
   */
  lemma BarlowStyleErrors(xs: seq<Stratum>)
    ensures !AllIntegers(xs) ==> BarlowStyle(xs) == Failure(NotIntegerStrata)
    ensures xs == [] ==> BarlowStyle(xs) == Failure(ParseFailed(EmptyInput))
  {
    if xs == [] {
      assert StrataTexts(xs) == [] && StrataExpression(xs) == "";
      assert RemoveSpaces("") == "";
      assert Parse("") == Failure(EmptyInput);
    }
  }

  /** A negative stratum fails the illegal-character assertion, because of its `-` sign. */
  lemma BarlowStyleNegative(xs: seq<Stratum>, k: nat)
    requires AllIntegers(xs) && k < |xs| && xs[k].n < 0
    ensures BarlowStyle(xs) == Failure(ParseFailed(IllegalCharacter))
  {
    var t := StrataExpression(xs);
    assert '-' in t by {
      var texts := StrataTexts(xs);
      assert texts[k][0] == '-';
      JoinContains("*", texts, k, 0);
    }
    ParseWithMinus(t);
  }

  /** A meter expression holding a `-` fails the illegal-character assertion. */
  lemma ParseWithMinus(t: string)
    requires '-' in t
    ensures Parse(t) == Failure(IllegalCharacter)
  {
    var t' := RemoveSpaces(t);
    assert '-' in t' by {
      RemoveSpacesKeeps(t);
      assert '-' in multiset(t);
      assert multiset(t')['-'] == multiset(t)['-'];
    }
    assert ParseCompact(t') == Failure(IllegalCharacter) by {
      var i :| 0 <= i < |t'| && t'[i] == '-';
      assert !IsLegal(t'[i]);
    }
  }

  /** Every character of every joined string is in the join. */
  lemma {:induction false} JoinContains(sep: string, ss: seq<string>, k: nat, i: nat)
    requires k < |ss| && i < |ss[k]|
    ensures ss[k][i] in Join(sep, ss)
  {
    if |ss| > 1 {
      if k == 0 {
        assert Join(sep, ss)[i] == ss[0][i];
      } else {
        assert ss[1..][k - 1] == ss[k];
        JoinContains(sep, ss[1..], k - 1, i);
        assert Join(sep, ss) == ss[0] + sep + Join(sep, ss[1..]);
      }
    }
  }

  // ---------------------------------------------------------------------
  // Worked examples
  // ---------------------------------------------------------------------

  /** Broken up, a group of 4 beats is two groups of 2. */
  lemma FourBrokenUp()
    ensures NewLayer([Beats(4)], true) == [Beats(2), Beats(2)]
  {
    DecomposeExamples();
    assert BeatsOf([2, 2]) == [Beats(2), Beats(2)];
    assert SimplifyChildren([Beats(2), Beats(2)]) == [Beats(2), Beats(2)];
    assert BreakUp([Beats(4)]) == [Layer([Beats(2), Beats(2)])];
  }

  /** `barlow_style_indispensability_array(4)` is [3, 0, 2, 1]. */
  lemma BarlowStyleFour()
    ensures BarlowStyle([IntStratum(4)]) == Success([3, 0, 2, 1])
  {
    assert StrataExpression([IntStratum(4)]) == NatToString(4);
    ParseNatToString(4);
    FourBrokenUp();
    TwoPlusTwoExample();
  }

  lemma TwoTwoLayers(breakUp: bool)
    ensures ToMetricLayers([Number(2), Number(2)], breakUp) == Success([[Beats(2)], [Beats(2)]])
  {
    var es := [Number(2), Number(2)];
    SmallNumberLayer(2, breakUp);
    assert es[1..] == [Number(2)] && [Number(2)][1..] == [];
    assert ToMetricLayers([], breakUp) == Success([]);
    assert ToMetricLayers([Number(2)], breakUp) == Success([[Beats(2)]] + []);
    assert [[Beats(2)]] + [] == [[Beats(2)]];
    assert [[Beats(2)]] + [[Beats(2)]] == [[Beats(2)], [Beats(2)]];
  }

  /** A layer of 2 times a layer of 2 is two groups of 2 beats. */
  lemma TwoTimesTwo()
    ensures Mul([Beats(2)], [Beats(2)]) == [Beats(2), Beats(2)]
  {
    var two := [Beats(2)];
    assert RMul(2, two) == [Beats(2), Beats(2)] by {
      assert Repeat(Layer(two), 2) == [Layer(two), Layer(two)];
      assert RemoveRedundantNesting(two) == two;
      assert SimplifyChild(Layer(two)) == Beats(2);
      assert SimplifyChildren([Layer(two), Layer(two)]) == [Beats(2), Beats(2)];
    }
    assert MulGroups(two, two) == [Layer([Beats(2), Beats(2)])];
    assert SimplifyChildren([Beats(2), Beats(2)]) == [Beats(2), Beats(2)];
  }

  /** `2 * 2` as a layer: two groups of 2 beats. */
  lemma TwoTimesTwoLayer(breakUp: bool)
    ensures ToMetricLayer(Group(Times, [Number(2), Number(2)]), breakUp) == Success([Beats(2), Beats(2)])
  {
    var two := [Beats(2)];
    TwoTwoLayers(breakUp);
    TwoTimesTwo();
    assert [two, two][1..] == [two] && [two][1..] == [];
    assert MultiplyAll(two, [two]) == MultiplyAll(Mul(two, two), []);
  }

  /** The parsed "2*2", a sum of one product, is the same two groups of 2. */
  lemma SumOfTwoTimesTwo()
    ensures ToMetricLayer(Group(Plus, [Group(Times, [Number(2), Number(2)])]), true) == Success([Beats(2), Beats(2)])
  {
    var product := Group(Times, [Number(2), Number(2)]);
    var pair := [Beats(2), Beats(2)];
    TwoTimesTwoLayer(true);
    assert [product][1..] == [];
    assert ToMetricLayers([], true) == Success([]);
    assert ToMetricLayers([product], true) == Success([pair] + []);
    assert [pair] + [] == [pair];
    assert AsGroups([pair]) == [Layer(pair)];
    assert BreakUp(pair) == pair;
    assert BreakUp([Layer(pair)]) == [Layer(pair)];
    assert SimplifyChildren(pair) == pair;
  }

  /** The strata (2, 2) read as the expression "2*2". */
  lemma ParseTwoByTwo()
    ensures Parse(StrataExpression([IntStratum(2), IntStratum(2)])) ==
      Success(Group(Plus, [Group(Times, [Number(2), Number(2)])]))
  {
    assert Counts([2, 2]) == [IntStratum(2), IntStratum(2)];
    StrataExpressionOfCounts([2, 2]);
    ParseProduct([2, 2]);
    assert Numbers([2, 2]) == [Number(2), Number(2)];
  }

  /**
   * `barlow_style_indispensability_array(2, 2)` is [3, 0, 2, 1], the same
   * array as for a bar of 4: the downbeat, then the second half, then the
   * last beat ahead of the second.
   */
  lemma BarlowStyleTwoByTwo()
    ensures BarlowStyle([IntStratum(2), IntStratum(2)]) == Success([3, 0, 2, 1])
  {
    assert AllIntegers([IntStratum(2), IntStratum(2)]);
    ParseTwoByTwo();
    SumOfTwoTimesTwo();
    TwoPlusTwoExample();
  }

  /** A number of at most 3 beats is a layer of one group, broken up or not. */
  lemma SmallNumberLayer(n: nat, breakUp: bool)
    requires n <= 3
    ensures ToMetricLayer(Number(n), breakUp) == Success([Beats(n)])
  {
    assert BreakUp([Beats(n)]) == [Beats(n)];
    assert SimplifyChildren([Beats(n)]) == [Beats(n)];
  }

  lemma ParseTwoPlusThree()
    ensures Parse("2+3") == Success(Group(Plus, [Number(2), Number(3)]))
  {
    assert Numerals([2, 3]) == ["2", "3"];
    assert Join("+", ["2", "3"]) == "2+3";
    ParseSum([2, 3]);
    assert Numbers([2, 3]) == [Number(2), Number(3)];
  }

  lemma TwoPlusThreeLayers(breakUp: bool)
    ensures ToMetricLayers([Number(2), Number(3)], breakUp) == Success([[Beats(2)], [Beats(3)]])
  {
    var es := [Number(2), Number(3)];
    SmallNumberLayer(2, breakUp);
    SmallNumberLayer(3, breakUp);
    assert es[1..] == [Number(3)] && [Number(3)][1..] == [];
    assert ToMetricLayers([], breakUp) == Success([]);
    assert ToMetricLayers([Number(3)], breakUp) == Success([[Beats(3)]] + []);
    assert [[Beats(3)]] + [] == [[Beats(3)]];
    assert [[Beats(2)]] + [[Beats(3)]] == [[Beats(2)], [Beats(3)]];
  }

  /** Side by side, a layer of 2 and a layer of 3 collapse into the groups 2 and 3. */
  lemma TwoBesideThree(breakUp: bool)
    ensures NewLayer([Layer([Beats(2)]), Layer([Beats(3)])], breakUp) == [Beats(2), Beats(3)]
  {
    var groups := [Layer([Beats(2)]), Layer([Beats(3)])];
    assert BreakUp([Beats(2)]) == [Beats(2)] && BreakUp([Beats(3)]) == [Beats(3)];
    assert BreakUp(groups) == groups;
    assert SimplifyChildren([Beats(2)]) == [Beats(2)] && SimplifyChildren([Beats(3)]) == [Beats(3)];
    assert SimplifyChild(Layer([Beats(3)])) == Beats(3);
    assert SimplifyChild(Layer([Beats(2)])) == Beats(2);
    assert SimplifyChildren(groups) == [Beats(2), Beats(3)];
  }

  /** "2+3" is a layer of a group of 2 and a group of 3. */
  lemma TwoPlusThreeLayer(breakUp: bool)
    ensures ToMetricLayer(Group(Plus, [Number(2), Number(3)]), breakUp) == Success([Beats(2), Beats(3)])
  {
    TwoPlusThreeLayers(breakUp);
    assert AsGroups([[Beats(2)], [Beats(3)]]) == [Layer([Beats(2)]), Layer([Beats(3)])];
    TwoBesideThree(breakUp);
  }

  /**
   * The expression "2+3" gives [4, 1, 3, 0, 2]; with the upbeat to the
   * group of 3 not ranked first it gives [4, 0, 3, 1, 2].
   */
  lemma FromExpressionTwoPlusThree(breakUp: bool)
    ensures FromExpression("2+3", breakUp, true) == Success([4, 1, 3, 0, 2])
    ensures FromExpression("2+3", breakUp, false) == Success([4, 0, 3, 1, 2])
  {
    ParseTwoPlusThree();
    TwoPlusThreeLayer(breakUp);
    TwoPlusThreeExample();
  }
}
