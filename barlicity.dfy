/**
 * The older, strata-based indispensability of `barlicity.py`. A rhythmic
 * stratum is either a number of equal pulses or an additive grouping such as
 * (3, 2, 3). Each stratum ranks its own pulses backward through the bar, and
 * the strata are combined as the digits of a mixed-radix number whose lowest
 * digit belongs to the last, fastest stratum.
 */
module Barlicity {
  import opened Wrappers
  import opened Builtins
  import opened Flatten
  import MetricLayers
  import BeatPriorities
  import Indispensability

  type Stratum = Indispensability.Stratum

  /** The exceptions Python raises on these paths. */
  datatype StrataError =
    | MaxOfEmptySequence   // `max([])` for a grouping with no groups
    | PopFromEmptyList     // `beat_group.pop(0)` for a group of length <= 0
    | StratumNotPositive   // the `assert` of `_standardize_strata`

  /** The number of beats `range(g)` gives. */
  function Clamp(g: int): nat
  {
    if g > 0 then g else 0
  }

  /** The number of beats the groups `lens` hold together. */
  function PulseCount(lens: seq<int>): nat
  {
    if lens == [] then 0 else PulseCount(lens[..|lens| - 1]) + Clamp(lens[|lens| - 1])
  }

  /** Beat group k holds the next `lens[k]` beat numbers, counting from 0. */
  function BeatGroups(lens: seq<int>): (r: seq<seq<int>>)
    ensures |r| == |lens|
  {
    seq(|lens|, k requires 0 <= k < |lens| => Range(PulseCount(lens[..k]), PulseCount(lens[..k]) + lens[k]))
  }

  /**
   * `_first_order_backward_beat_priorities`: an int stratum ranks its pulses
   * in order; a grouping first ranks the group starts, in reversed group
   * order, then the remaining beats as they are whittled from the longest
   * groups.
   */
  function FirstOrder(s: Stratum): Result<seq<int>, StrataError>
  {
    match s
    case IntStratum(n) => Success(Range(0, n))
    case SeqStratum(parts) =>
      var groups := BeatGroups(Reverse(parts));
      if exists i :: 0 <= i < |groups| && |groups[i]| == 0 then Failure(PopFromEmptyList)
      else if groups == [] then Failure(MaxOfEmptySequence)
      else Success(Heads(groups) + Drain(Tails(groups)))
  }

  /** The loops that number the beats group by group. */
  method BuildBeatGroups(lens: seq<int>) returns (beatGroups: seq<seq<int>>)
    ensures beatGroups == BeatGroups(lens)
  {
    beatGroups := [];
    var beat := 0;
    var k := 0;
    while k < |lens|
      invariant 0 <= k <= |lens| && |beatGroups| == k
      invariant beat == PulseCount(lens[..k])
      invariant forall i :: 0 <= i < k ==> beatGroups[i] == BeatGroups(lens)[i]
    {
      var beatGroup := [];
      var i := 0;
      while i < lens[k]
        invariant beat == PulseCount(lens[..k]) + i
        invariant 0 <= i <= Clamp(lens[k])
        invariant beatGroup == Range(PulseCount(lens[..k]), beat)
      {
        beatGroup := beatGroup + [beat];
        beat := beat + 1;
        i := i + 1;
      }
      assert lens[..k + 1][..k] == lens[..k];
      beatGroups := beatGroups + [beatGroup];
      k := k + 1;
    }
  }

  /**
   * One pass of the `for` loop inside the `while` loop of
   * `_first_order_backward_beat_priorities`: pop one beat from every group
   * whose length equals the greatest length at the start of the pass.
   */
  method WhittlePass(start: seq<seq<int>>, longest: nat) returns (taken: seq<int>, groups: seq<seq<int>>)
    requires longest == MaxLength(start) && longest > 0
    ensures taken + Drain(groups) == Drain(start)
    ensures TotalLength(groups) < TotalLength(start)
  {
    groups := start;
    taken := [];
    MaxLengthBounds(start);
    var j := 0;
    while j < |groups|
      invariant 0 <= j <= |groups|
      invariant forall i :: 0 <= i < j ==> |groups[i]| < longest
      invariant forall i :: j <= i < |groups| ==> |groups[i]| <= longest
      invariant taken + Drain(groups) == Drain(start)
      invariant TotalLength(groups) <= TotalLength(start)
      invariant TotalLength(groups) < TotalLength(start) || exists i :: j <= i < |groups| && |groups[i]| == longest
    {
      if |groups[j]| == longest {
        var next := groups[j := groups[j][1..]];
        DrainStepAt(groups, longest, j, next);
        TotalLengthUpdate(groups, j, groups[j][1..]);
        taken := taken + [groups[j][0]];
        groups := next;
      }
      j := j + 1;
    }
  }

  /**
   * The `while` loop of `_first_order_backward_beat_priorities`. Taking one
   * beat from every longest group per pass gives the beats in the same order
   * as always popping from the first longest group.
   */
  method WhittleLongest(start: seq<seq<int>>) returns (out: seq<int>)
    ensures out == Drain(start)
  {
    var groups := start;
    out := [];
    var longest := MaxLength(groups);
    while longest > 0
      invariant longest == MaxLength(groups)
      invariant out + Drain(groups) == Drain(start)
      decreases TotalLength(groups)
    {
      var taken;
      taken, groups := WhittlePass(groups, longest);
      out := out + taken;
      longest := MaxLength(groups);
    }
  }

  /** `_first_order_backward_beat_priorities`, with its pops. */
  method FirstOrderBackwardBeatPriorities(s: Stratum) returns (r: Result<seq<int>, StrataError>)
    ensures r == FirstOrder(s)
  {
    match s
    case IntStratum(n) =>
      return Success(Range(0, n));
    case SeqStratum(parts) =>
      var beatGroups := BuildBeatGroups(Reverse(parts));
      ghost var groups := beatGroups;
      var order := [];
      var k := 0;
      while k < |beatGroups|
        invariant 0 <= k <= |beatGroups| == |groups| && |order| == k
        invariant forall i :: 0 <= i < k ==> |groups[i]| > 0 && order[i] == groups[i][0] && beatGroups[i] == groups[i][1..]
        invariant forall i :: k <= i < |groups| ==> beatGroups[i] == groups[i]
      {
        if |beatGroups[k]| == 0 {
          return Failure(PopFromEmptyList);
        }
        order := order + [beatGroups[k][0]];
        beatGroups := beatGroups[k := beatGroups[k][1..]];
        k := k + 1;
      }
      if |beatGroups| == 0 {
        return Failure(MaxOfEmptySequence);
      }
      assert order == Heads(groups) && beatGroups == Tails(groups);
      var rest := WhittleLongest(beatGroups);
      return Success(order + rest);
  }

  /** A stratum the algorithm accepts: a grouping needs a group, and every group a beat. */
  predicate WellFormed(s: Stratum)
  {
    s.SeqStratum? ==> |s.parts| > 0 && forall i :: 0 <= i < |s.parts| ==> s.parts[i] > 0
  }

  /** The number of pulses of a stratum. */
  function StratumSize(s: Stratum): nat
  {
    match s
    case IntStratum(n) => Clamp(n)
    case SeqStratum(parts) => PulseCount(parts)
  }

  lemma {:induction false} PulseCountSum(lens: seq<int>)
    requires forall i :: 0 <= i < |lens| ==> lens[i] > 0
    ensures PulseCount(lens) == Sum(lens)
  {
    if lens != [] {
      var n := |lens|;
      PulseCountSum(lens[..n - 1]);
      assert lens == lens[..n - 1] + [lens[n - 1]];
      SumAppend(lens[..n - 1], [lens[n - 1]]);
    }
  }

  lemma PrefixPulseCount(lens: seq<int>, k: nat)
    requires k <= |lens| && forall i :: 0 <= i < |lens| ==> lens[i] > 0
    ensures PulseCount(lens[..k]) == Sum(lens[..k])
  {
    PulseCountSum(lens[..k]);
  }

  lemma {:induction false} SumReverse(s: seq<int>)
    ensures Sum(Reverse(s)) == Sum(s)
  {
    if s != [] {
      SumReverse(s[1..]);
      SumAppend(Reverse(s[1..]), [s[0]]);
    }
  }

  lemma {:induction false} ConcatAppend<T>(gs: seq<seq<T>>, g: seq<T>)
    ensures Concat(gs + [g]) == Concat(gs) + g
  {
    if gs != [] {
      assert (gs + [g])[1..] == gs[1..] + [g];
      ConcatAppend(gs[1..], g);
    }
  }

  lemma BeatGroupAt(lens: seq<int>, k: nat)
    requires k < |lens|
    ensures PulseCount(lens[..k + 1]) == PulseCount(lens[..k]) + Clamp(lens[k])
    ensures BeatGroups(lens)[k] == Range(PulseCount(lens[..k]), PulseCount(lens[..k + 1]))
  {
    assert lens[..k + 1][..k] == lens[..k];
  }

  /** The beat groups, read one after the other, number the beats 0, 1, 2, ... */
  lemma {:induction false} ConcatBeatGroups(lens: seq<int>, k: nat)
    requires k <= |lens|
    ensures Concat(BeatGroups(lens)[..k]) == Range(0, PulseCount(lens[..k]))
  {
    var gs := BeatGroups(lens);
    if k > 0 {
      var a, b := PulseCount(lens[..k - 1]), PulseCount(lens[..k]);
      assert Concat(gs[..k - 1]) == Range(0, a) by {
        ConcatBeatGroups(lens, k - 1);
      }
      assert gs[k - 1] == Range(a, b) && a <= b by {
        BeatGroupAt(lens, k - 1);
      }
      ConcatPrefix(gs, k);
      RangeSplit(0, a, b);
    } else {
      assert gs[..0] == [];
    }
  }

  /** The first `k` lists, joined, are the first `k - 1` joined and then list `k - 1`. */
  lemma ConcatPrefix(gs: seq<seq<int>>, k: nat)
    requires 0 < k <= |gs|
    ensures Concat(gs[..k]) == Concat(gs[..k - 1]) + gs[k - 1]
  {
    assert gs[..k] == gs[..k - 1] + [gs[k - 1]];
    ConcatAppend(gs[..k - 1], gs[k - 1]);
  }

  /** Group k of a grouping is empty exactly when the k-th part from the end is not positive. */
  lemma EmptyGroups(parts: seq<int>)
    ensures forall k :: 0 <= k < |parts| ==>
      (|BeatGroups(Reverse(parts))[k]| == 0 <==> parts[|parts| - 1 - k] <= 0)
  {
    var rp := Reverse(parts);
    forall k | 0 <= k < |parts|
      ensures |BeatGroups(rp)[k]| == 0 <==> parts[|parts| - 1 - k] <= 0
    {
      BeatGroupAt(rp, k);
    }
  }

  lemma FirstOrderSucceeds(parts: seq<int>)
    ensures FirstOrder(Indispensability.SeqStratum(parts)).Success? <==> WellFormed(Indispensability.SeqStratum(parts))
  {
    var g := BeatGroups(Reverse(parts));
    EmptyGroups(parts);
    if WellFormed(Indispensability.SeqStratum(parts)) {
      forall k | 0 <= k < |g| ensures |g[k]| != 0 {
        assert parts[|parts| - 1 - k] > 0;
      }
    } else if parts != [] {
      var j :| 0 <= j < |parts| && parts[j] <= 0;
      assert |g[|parts| - 1 - j]| == 0;
    }
  }

  /** The ranking of a well-formed grouping holds every beat once, the downbeat first. */
  lemma GroupingPermutation(parts: seq<int>)
    requires WellFormed(Indispensability.SeqStratum(parts))
    ensures FirstOrder(Indispensability.SeqStratum(parts)).Success?
    ensures IsPermutationOfRange(FirstOrder(Indispensability.SeqStratum(parts)).value, PulseCount(parts))
    ensures FirstOrder(Indispensability.SeqStratum(parts)).value[0] == 0
  {
    var rp := Reverse(parts);
    var r := GroupingValue(parts);
    assert PulseCount(parts) == PulseCount(rp) by {
      PulseCountSum(parts);
      PulseCountSum(rp);
      SumReverse(parts);
    }
    GroupsRanked(rp);
  }

  /** The ranking of a well-formed grouping, in terms of its groups, numbered from the last part. */
  lemma GroupingValue(parts: seq<int>) returns (r: seq<int>)
    requires WellFormed(Indispensability.SeqStratum(parts))
    ensures var g := BeatGroups(Reverse(parts));
      && (forall k :: 0 <= k < |g| ==> |g[k]| > 0)
      && (forall k :: 0 <= k < |parts| ==> Reverse(parts)[k] > 0)
      && r == Heads(g) + Drain(Tails(g))
      && FirstOrder(Indispensability.SeqStratum(parts)) == Success(r)
  {
    FirstOrderSucceeds(parts);
    var rp := Reverse(parts);
    assert forall k :: 0 <= k < |rp| ==> rp[k] > 0;
    GroupHeads(rp);
    var g := BeatGroups(rp);
    r := Heads(g) + Drain(Tails(g));
  }

  /** Group starts first, then the whittled rest: every beat once, beat 0 first. */
  lemma GroupsRanked(lens: seq<int>)
    requires |lens| > 0 && forall k :: 0 <= k < |lens| ==> lens[k] > 0
    ensures var g := BeatGroups(lens);
      && (forall k :: 0 <= k < |g| ==> |g[k]| > 0)
      && IsPermutationOfRange(Heads(g) + Drain(Tails(g)), PulseCount(lens))
      && (Heads(g) + Drain(Tails(g)))[0] == 0
  {
    var g := BeatGroups(lens);
    GroupHeads(lens);
    var heads, rest := Heads(g), Drain(Tails(g));
    var r := heads + rest;
    var n := PulseCount(lens);
    assert IsPermutationOfRange(r, n) by {
      GroupsCover(lens);
      RangeIsPermutation(n);
      PermutationTransfer(Range(0, n), r, n);
    }
    assert r[0] == 0 by {
      assert r[0] == heads[0];
      assert lens[..0] == [];
    }
  }

  /** Between them, the group starts and the whittled rest hold each beat once. */
  lemma GroupsCover(lens: seq<int>)
    requires forall k :: 0 <= k < |lens| ==> lens[k] > 0
    ensures var g := BeatGroups(lens);
      && (forall k :: 0 <= k < |g| ==> |g[k]| > 0)
      && multiset(Range(0, PulseCount(lens))) == multiset(Heads(g) + Drain(Tails(g)))
  {
    var g := BeatGroups(lens);
    GroupHeads(lens);
    var tails := Tails(g);
    assert multiset(Heads(g) + Drain(tails)) == multiset(Concat(g)) by {
      HeadsTailsMultiset(g);
      DrainMultiset(tails);
    }
    assert Concat(g) == Range(0, PulseCount(lens)) by {
      ConcatBeatGroups(lens, |lens|);
      assert g[..|lens|] == g && lens[..|lens|] == lens;
    }
  }

  /**
   * A stratum is ranked exactly when it is well formed, and then every one
   * of its pulses appears once, the downbeat first.
   */
  lemma FirstOrderPermutation(s: Stratum)
    ensures FirstOrder(s).Success? <==> WellFormed(s)
    ensures FirstOrder(s).Success? ==> IsPermutationOfRange(FirstOrder(s).value, StratumSize(s))
    ensures FirstOrder(s).Success? && StratumSize(s) > 0 ==> FirstOrder(s).value[0] == 0
  {
    match s
    case IntStratum(n) =>
      RangeIsPermutation(Clamp(n));
    case SeqStratum(parts) =>
      FirstOrderSucceeds(parts);
      if WellFormed(s) {
        GroupingPermutation(parts);
      }
  }

  /** A grouping ranks its group starts first, from the last group of the bar backward. */
  lemma GroupStartsFirst(parts: seq<int>)
    requires WellFormed(Indispensability.SeqStratum(parts))
    ensures FirstOrder(Indispensability.SeqStratum(parts)).Success?
    ensures StratumSize(Indispensability.SeqStratum(parts)) == Sum(parts)
    ensures forall i :: 0 <= i < |parts| ==>
      FirstOrder(Indispensability.SeqStratum(parts)).value[i] == Sum(Reverse(parts)[..i])
  {
    PulseCountSum(parts);
    var rp := Reverse(parts);
    var r := GroupingValue(parts);
    GroupHeads(rp);
    var heads := Heads(BeatGroups(rp));
    assert forall i :: 0 <= i < |parts| ==> r[i] == heads[i];
  }

  /** The head of beat group k is the number of pulses before it. */
  lemma GroupHeads(lens: seq<int>)
    requires forall k :: 0 <= k < |lens| ==> lens[k] > 0
    ensures forall k :: 0 <= k < |lens| ==> |BeatGroups(lens)[k]| > 0
    ensures |Heads(BeatGroups(lens))| == |lens|
    ensures forall k :: 0 <= k < |lens| ==> Heads(BeatGroups(lens))[k] == Sum(lens[..k])
  {
    var g := BeatGroups(lens);
    forall k | 0 <= k < |lens| ensures |g[k]| > 0 && g[k][0] == Sum(lens[..k]) {
      BeatGroupAt(lens, k);
      PrefixPulseCount(lens, k);
    }
  }

  // ----- combining the strata -----

  /** `[f(x, y) for x in xs for y in ys]`: the first sequence varies slowest. */
  function Pairs<A, B, C>(xs: seq<A>, ys: seq<B>, f: (A, B) -> C): (r: seq<C>)
    ensures |r| == |xs| * |ys|
  {
    if xs == [] then []
    else seq(|ys|, j requires 0 <= j < |ys| => f(xs[0], ys[j])) + Pairs(xs[1..], ys, f)
  }

  lemma {:induction false} PairsAt<A, B, C>(xs: seq<A>, ys: seq<B>, f: (A, B) -> C, i: nat, j: nat)
    requires i < |xs| && j < |ys|
    ensures i * |ys| + j < |xs| * |ys|
    ensures Pairs(xs, ys, f)[i * |ys| + j] == f(xs[i], ys[j])
  {
    if i > 0 {
      PairsAt(xs[1..], ys, f, i - 1, j);
      assert i * |ys| + j == |ys| + ((i - 1) * |ys| + j);
      assert |xs| * |ys| == |ys| + (|xs| - 1) * |ys|;
    }
  }

  /** Position k of a table with rows of length m is row k / m, column k % m. */
  lemma Split(k: nat, l: nat, m: nat) returns (i: nat, j: nat)
    requires k < l * m
    ensures i < l && j < m && k == i * m + j
  {
    assert m > 0;
    i, j := k / m, k % m;
    assert i * m <= k < l * m;
    assert (l - i) * m == l * m - i * m;
  }

  /** `[x] + t`: how `itertools.product` extends a tuple. */
  function Prepend(x: int, t: seq<int>): seq<int>
  {
    [x] + t
  }

  /** `itertools.product(*lists)`, the tuples in lexicographic order. */
  function Tuples(lists: seq<seq<int>>): seq<seq<int>>
  {
    if lists == [] then [[]] else Pairs(lists[0], Tuples(lists[1..]), Prepend)
  }

  /** `sum(p * q for p, q in zip(t, ms))` */
  function Dot(t: seq<int>, ms: seq<int>): int
  {
    if t == [] || ms == [] then 0 else t[0] * ms[0] + Dot(t[1..], ms[1..])
  }

  /** A lower digit x with an upper value y read in base `radix`. */
  function Digit(radix: int): (int, int) -> int
  {
    (x: int, y: int) => x + radix * y
  }

  /**
   * The reference reading: the first list is the lowest digit, whose radix
   * is its length, and the remaining lists form the upper value.
   */
  function Mixed(lists: seq<seq<int>>): seq<int>
  {
    if lists == [] then [0] else Pairs(lists[0], Mixed(lists[1..]), Digit(|lists[0]|))
  }

  /** `[len(x) for x in lists]` */
  function Lens(lists: seq<seq<int>>): (r: seq<int>)
    ensures |r| == |lists| && forall i :: 0 <= i < |lists| ==> r[i] == |lists[i]|
  {
    seq(|lists|, i requires 0 <= i < |lists| => |lists[i]|)
  }

  /** The product of the entries, 1 for none. */
  function Prod(s: seq<int>): (p: int)
    ensures (forall i :: 0 <= i < |s| ==> s[i] >= 0) ==> p >= 0
  {
    if s == [] then 1 else Prod(s[..|s| - 1]) * s[|s| - 1]
  }

  lemma {:induction false} ProdHead(s: seq<int>)
    requires s != []
    ensures Prod(s) == s[0] * Prod(s[1..])
  {
    var n := |s|;
    if n > 1 {
      var a, b, c := s[0], Prod(s[1..][..n - 2]), s[n - 1];
      assert Prod(s) == Prod(s[..n - 1]) * c;
      assert Prod(s[..n - 1]) == a * b by {
        ProdHead(s[..n - 1]);
        assert s[..n - 1][1..] == s[1..][..n - 2];
      }
      assert Prod(s[1..]) == b * c;
      assert (a * b) * c == a * (b * c);
    } else {
      assert s[1..] == [] && s[..0] == [];
    }
  }

  lemma {:induction false} ProdReverse(s: seq<int>)
    ensures Prod(Reverse(s)) == Prod(s)
  {
    if s != [] {
      var r, x := Reverse(s[1..]), s[0];
      var p := Prod(s[1..]);
      assert Prod(r) == p by {
        ProdReverse(s[1..]);
      }
      assert Prod(Reverse(s)) == Prod(r) * x by {
        assert Reverse(s) == r + [x];
        assert (r + [x])[..|r|] == r;
      }
      assert Prod(s) == x * p by {
        ProdHead(s);
      }
      assert p * x == x * p;
    }
  }

  lemma {:induction false} ProdPositive(s: seq<int>)
    requires forall i :: 0 <= i < |s| ==> s[i] >= 0
    requires Prod(s) > 0
    ensures forall i :: 0 <= i < |s| ==> s[i] > 0
  {
    if s != [] {
      var n := |s|;
      assert Prod(s[..n - 1]) > 0 && s[n - 1] > 0;
      ProdPositive(s[..n - 1]);
      assert forall i :: 0 <= i < n - 1 ==> s[i] == s[..n - 1][i];
    }
  }

  /** `strata_multipliers`: 1, then the running products of all lengths but the last. */
  function Multipliers(lens: seq<int>): (ms: seq<int>)
    ensures |ms| == if lens == [] then 1 else |lens|
  {
    seq(if lens == [] then 1 else |lens|, i requires 0 <= i <= |lens| => Prod(lens[..i]))
  }

  /** The loop that builds `strata_multipliers`. */
  method StrataMultipliers(lens: seq<int>) returns (ms: seq<int>)
    ensures ms == Multipliers(lens)
  {
    ms := [1];
    var last := 1;
    var init := SliceTo(lens, -1);
    for k := 0 to |init|
      invariant |ms| == k + 1 && last == Prod(init[..k])
      invariant forall i :: 0 <= i <= k ==> ms[i] == Prod(init[..i])
    {
      assert init[..k + 1][..k] == init[..k];
      last := last * init[k];
      ms := ms + [last];
    }
    assert forall i :: 0 <= i <= |init| ==> init[..i] == lens[..i];
  }

  /** The first-order rankings of all strata, or the first stratum's error. */
  function FirstOrders(strata: seq<Stratum>): (r: Result<seq<seq<int>>, StrataError>)
    ensures r.Success? ==> |r.value| == |strata|
  {
    if strata == [] then Success([])
    else
      var init :- FirstOrders(strata[..|strata| - 1]);
      var last :- FirstOrder(strata[|strata| - 1]);
      Success(init + [last])
  }

  /** One overall priority per tuple of `itertools.product`. */
  function Combined(lists: seq<seq<int>>, ms: seq<int>): (r: seq<int>)
    ensures |r| == |Tuples(lists)|
  {
    seq(|Tuples(lists)|, k requires 0 <= k < |Tuples(lists)| => Dot(Tuples(lists)[k], ms))
  }

  /**
   * `_get_backward_beat_priorities(*strata)`: the strata's rankings,
   * reversed so that the last stratum comes first, combined with the
   * running products of their lengths as weights.
   */
  function BackwardBeatPriorities(strata: seq<Stratum>): Result<seq<int>, StrataError>
  {
    var lists :- FirstOrders(strata);
    var rev := Reverse(lists);
    Success(Combined(rev, Multipliers(Lens(rev))))
  }

  lemma {:induction false} FirstOrdersFailure(strata: seq<Stratum>, k: nat)
    requires k <= |strata| && FirstOrders(strata[..k]).Failure?
    ensures FirstOrders(strata) == FirstOrders(strata[..k])
    decreases |strata|
  {
    if k < |strata| {
      var n := |strata|;
      assert strata[..n - 1][..k] == strata[..k];
      FirstOrdersFailure(strata[..n - 1], k);
    } else {
      assert strata[..k] == strata;
    }
  }

  method GetBackwardBeatPriorities(strata: seq<Stratum>) returns (r: Result<seq<int>, StrataError>)
    ensures r == BackwardBeatPriorities(strata)
  {
    var lists: seq<seq<int>> := [];
    for k := 0 to |strata|
      invariant FirstOrders(strata[..k]) == Success(lists)
    {
      var p := FirstOrderBackwardBeatPriorities(strata[k]);
      assert strata[..k + 1][..k] == strata[..k];
      if p.Failure? {
        FirstOrdersFailure(strata, k + 1);
        return Failure(p.error);
      }
      lists := lists + [p.value];
    }
    assert strata[..|strata|] == strata;
    var rev := Reverse(lists);
    var ms := StrataMultipliers(Lens(rev));
    var tuples := Tuples(rev);
    var out := [];
    for k := 0 to |tuples|
      invariant |out| == k && forall i :: 0 <= i < k ==> out[i] == Dot(tuples[i], ms)
    {
      out := out + [Dot(tuples[k], ms)];
    }
    assert out == Combined(rev, Multipliers(Lens(rev)));
    return Success(out);
  }

  lemma MulAtLeast(l: int, d: int)
    requires l >= 0 && d >= 1
    ensures l * d >= l
  {
    assert l * d == l * (d - 1) + l;
  }

  /** Digits below the radix: two readings agree exactly when both digits agree. */
  lemma DigitsUnique(l: int, x1: int, y1: int, x2: int, y2: int)
    requires 0 <= x1 < l && 0 <= x2 < l
    ensures x1 + l * y1 == x2 + l * y2 <==> x1 == x2 && y1 == y2
  {
    if y1 > y2 {
      MulAtLeast(l, y1 - y2);
      assert l * y1 == l * y2 + l * (y1 - y2);
    } else if y2 > y1 {
      MulAtLeast(l, y2 - y1);
      assert l * y2 == l * y1 + l * (y2 - y1);
    }
  }

  lemma DigitBound(l: int, m: int, x: int, y: int)
    requires 0 <= x < l && 0 <= y < m
    ensures 0 <= x + l * y < l * m
  {
    assert l * m == l * y + l * (m - 1 - y) + l;
    assert l * (m - 1 - y) >= 0 && l * y >= 0;
  }

  /** Digits x of a permutation of 0..l-1 below values y of a permutation of 0..m-1 give a permutation of 0..l*m-1. */
  lemma SpreadPermutation(xs: seq<int>, l: nat, ys: seq<int>, m: nat)
    requires IsPermutationOfRange(xs, l) && IsPermutationOfRange(ys, m)
    ensures IsPermutationOfRange(Pairs(xs, ys, Digit(l)), l * m)
  {
    var r := Pairs(xs, ys, Digit(l));
    forall k | 0 <= k < l * m ensures 0 <= r[k] < l * m {
      var i, j := Split(k, l, m);
      PairsAt(xs, ys, Digit(l), i, j);
      DigitBound(l, m, xs[i], ys[j]);
    }
    forall k1, k2 | 0 <= k1 < k2 < l * m ensures r[k1] != r[k2] {
      var i1, j1 := Split(k1, l, m);
      var i2, j2 := Split(k2, l, m);
      PairsAt(xs, ys, Digit(l), i1, j1);
      PairsAt(xs, ys, Digit(l), i2, j2);
      assert i1 != i2 || j1 != j2;
      assert xs[i1] != xs[i2] || ys[j1] != ys[j2];
      DigitsUnique(l, xs[i1], ys[j1], xs[i2], ys[j2]);
    }
  }

  /** Permutations read as mixed-radix digits number every combination once, and the all-zero one is 0. */
  lemma MixedPermutation(lists: seq<seq<int>>)
    requires forall i :: 0 <= i < |lists| ==> IsPermutationOfRange(lists[i], |lists[i]|)
    ensures IsPermutationOfRange(Mixed(lists), Prod(Lens(lists)))
    ensures (forall i :: 0 <= i < |lists| ==> |lists[i]| > 0 && lists[i][0] == 0) ==>
      |Mixed(lists)| > 0 && Mixed(lists)[0] == 0
  {
    MixedIsPermutation(lists);
    if forall i :: 0 <= i < |lists| ==> |lists[i]| > 0 && lists[i][0] == 0 {
      MixedFirst(lists);
    }
  }

  lemma {:induction false} MixedIsPermutation(lists: seq<seq<int>>)
    requires forall i :: 0 <= i < |lists| ==> IsPermutationOfRange(lists[i], |lists[i]|)
    ensures IsPermutationOfRange(Mixed(lists), Prod(Lens(lists)))
  {
    if lists != [] {
      var xs, tail := lists[0], lists[1..];
      var l, m := |xs|, Prod(Lens(tail));
      var mt := Mixed(tail);
      assert IsPermutationOfRange(mt, m) by {
        assert forall i :: 0 <= i < |tail| ==> tail[i] == lists[i + 1];
        MixedIsPermutation(tail);
      }
      assert Prod(Lens(lists)) == l * m by {
        ProdHead(Lens(lists));
        assert Lens(lists)[1..] == Lens(tail);
      }
      assert Mixed(lists) == Pairs(xs, mt, Digit(l));
      SpreadPermutation(xs, l, mt, m);
    } else {
      assert Mixed(lists) == Range(0, 1);
    }
  }

  /** With every ranking starting at 0, the reference reading starts at 0. */
  lemma {:induction false} MixedFirst(lists: seq<seq<int>>)
    requires forall i :: 0 <= i < |lists| ==> |lists[i]| > 0 && lists[i][0] == 0
    ensures |Mixed(lists)| > 0 && Mixed(lists)[0] == 0
  {
    if lists != [] {
      var xs, tail := lists[0], lists[1..];
      var mt := Mixed(tail);
      assert |mt| > 0 && mt[0] == 0 by {
        assert forall i :: 0 <= i < |tail| ==> tail[i] == lists[i + 1];
        MixedFirst(tail);
      }
      PairsAt(xs, mt, Digit(|xs|), 0, 0);
    }
  }

  lemma DotPrepend(x: int, t: seq<int>, ms: seq<int>)
    requires ms != []
    ensures Dot(Prepend(x, t), ms) == x * ms[0] + Dot(t, ms[1..])
  {
    assert Prepend(x, t)[1..] == t;
  }

  lemma TailWeights(lists: seq<seq<int>>, ms: seq<int>, c: int)
    requires lists != [] && |ms| >= |lists|
    requires forall i :: 0 <= i < |lists| ==> ms[i] == c * Prod(Lens(lists)[..i])
    ensures ms[0] == c
    ensures forall i :: 0 <= i < |lists| - 1 ==> ms[1..][i] == (c * |lists[0]|) * Prod(Lens(lists[1..])[..i])
  {
    assert Lens(lists)[..0] == [];
    forall i | 0 <= i < |lists| - 1
      ensures ms[1..][i] == (c * |lists[0]|) * Prod(Lens(lists[1..])[..i])
    {
      assert ms[1..][i] == c * Prod(Lens(lists)[..i + 1]);
      PrefixProdHead(lists, i);
    }
  }

  /** The product of the first `i + 1` lengths is the first length times the next `i` ones. */
  lemma PrefixProdHead(lists: seq<seq<int>>, i: nat)
    requires i + 1 < |lists|
    ensures Prod(Lens(lists)[..i + 1]) == |lists[0]| * Prod(Lens(lists[1..])[..i])
  {
    var p := Lens(lists)[..i + 1];
    ProdHead(p);
    assert p[1..] == Lens(lists[1..])[..i];
  }

  lemma CombinedStep(lists: seq<seq<int>>, ms: seq<int>, c: int, k: nat)
    requires lists != [] && |ms| >= |lists| && ms[0] == c
    requires |Combined(lists[1..], ms[1..])| == |Mixed(lists[1..])|
    requires forall j :: 0 <= j < |Mixed(lists[1..])| ==>
      Combined(lists[1..], ms[1..])[j] == (c * |lists[0]|) * Mixed(lists[1..])[j]
    requires k < |Mixed(lists)|
    ensures k < |Combined(lists, ms)| && Combined(lists, ms)[k] == c * Mixed(lists)[k]
  {
    var xs, tail := lists[0], lists[1..];
    var l := |xs|;
    var tt, mt := Tuples(tail), Mixed(tail);
    var tuples, mixed, combined := Tuples(lists), Mixed(lists), Combined(lists, ms);
    assert |tt| == |mt| && |tuples| == l * |tt| && |mixed| == l * |mt| && |combined| == |tuples| by {
      assert |Combined(tail, ms[1..])| == |tt|;
    }
    var i, j := Split(k, l, |mt|);
    var x, y, t := xs[i], mt[j], tt[j];
    TupleAt(lists, k, i, j);
    MixedAt(lists, k, i, j);
    var d, v, e := Dot(t, ms[1..]), mixed[k], combined[k];
    assert d == (c * l) * y by {
      assert Combined(tail, ms[1..])[j] == d;
    }
    assert e == x * c + d by {
      assert combined[k] == Dot(tuples[k], ms);
      DotPrepend(x, t, ms);
    }
    Distribute(x, c, l, y, v, d, e);
  }

  /** Tuple `i * m + j` of the product pairs element `i` of the first list with tuple `j` of the rest. */
  lemma TupleAt(lists: seq<seq<int>>, k: nat, i: nat, j: nat)
    requires lists != [] && i < |lists[0]| && j < |Tuples(lists[1..])|
    requires k == i * |Tuples(lists[1..])| + j
    ensures k < |Tuples(lists)| && Tuples(lists)[k] == Prepend(lists[0][i], Tuples(lists[1..])[j])
  {
    var rest := Tuples(lists[1..]);
    assert Tuples(lists) == Pairs(lists[0], rest, Prepend);
    PairsAt(lists[0], rest, Prepend, i, j);
  }

  /** Value `i * m + j` of the reference reading: digit `i` of the first list under upper value `j`. */
  lemma MixedAt(lists: seq<seq<int>>, k: nat, i: nat, j: nat)
    requires lists != [] && i < |lists[0]| && j < |Mixed(lists[1..])|
    requires k == i * |Mixed(lists[1..])| + j
    ensures k < |Mixed(lists)| && Mixed(lists)[k] == lists[0][i] + |lists[0]| * Mixed(lists[1..])[j]
  {
    PairsAt(lists[0], Mixed(lists[1..]), Digit(|lists[0]|), i, j);
  }

  lemma Distribute(x: int, c: int, l: int, y: int, v: int, d: int, e: int)
    requires v == x + l * y && d == (c * l) * y && e == x * c + d
    ensures e == c * v
  {
    assert c * v == c * x + c * (l * y);
    assert (c * l) * y == c * (l * y);
  }

  /**
   * The weighted sums over `itertools.product` are the mixed-radix reading:
   * with weights c times the running products of the lengths, every
   * priority is c times the reference value.
   */
  lemma {:induction false} CombinedIsMixed(lists: seq<seq<int>>, ms: seq<int>, c: int)
    requires |ms| >= |lists|
    requires forall i :: 0 <= i < |lists| ==> ms[i] == c * Prod(Lens(lists)[..i])
    ensures |Combined(lists, ms)| == |Mixed(lists)|
    ensures forall k :: 0 <= k < |Mixed(lists)| ==> Combined(lists, ms)[k] == c * Mixed(lists)[k]
  {
    if lists == [] {
      assert Combined(lists, ms)[0] == Dot([], ms) == 0;
    } else {
      TailWeights(lists, ms, c);
      CombinedIsMixed(lists[1..], ms[1..], c * |lists[0]|);
      forall k | 0 <= k < |Mixed(lists)| ensures Combined(lists, ms)[k] == c * Mixed(lists)[k] {
        CombinedStep(lists, ms, c, k);
      }
    }
  }

  /** Each stratum is ranked exactly when all are, and then each ranking is its own. */
  lemma {:induction false} FirstOrdersAt(strata: seq<Stratum>)
    ensures FirstOrders(strata).Success? <==> forall i :: 0 <= i < |strata| ==> FirstOrder(strata[i]).Success?
    ensures FirstOrders(strata).Success? ==>
      forall i :: 0 <= i < |strata| ==> FirstOrders(strata).value[i] == FirstOrder(strata[i]).value
  {
    if strata != [] {
      var n := |strata|;
      var m := n - 1;
      var init := strata[..m];
      var last := strata[m];
      FirstOrdersAt(init);
      if FirstOrders(init).Failure? {
        assert FirstOrders(strata).Failure?;
        var j :| 0 <= j < m && FirstOrder(init[j]).Failure?;
        assert strata[j] == init[j];
      } else if FirstOrder(last).Failure? {
        assert FirstOrders(strata).Failure?;
      } else {
        var r := FirstOrders(init).value + [FirstOrder(last).value];
        assert FirstOrders(strata) == Success(r);
        forall i | 0 <= i < n
          ensures FirstOrder(strata[i]).Success? && r[i] == FirstOrder(strata[i]).value
        {
          if i < m {
            assert init[i] == strata[i];
            assert FirstOrder(init[i]).Success?;
            assert r[i] == FirstOrders(init).value[i];
          } else {
            assert r[i] == FirstOrder(last).value;
          }
        }
      }
    }
  }

  /** The number of pulses of each stratum. */
  function Sizes(strata: seq<Stratum>): (r: seq<int>)
    ensures |r| == |strata| && forall i :: 0 <= i < |strata| ==> r[i] == StratumSize(strata[i])
  {
    seq(|strata|, i requires 0 <= i < |strata| => StratumSize(strata[i]))
  }

  /** The number of pulses of the whole bar: the product of the strata's sizes. */
  function StrataSize(strata: seq<Stratum>): nat
  {
    Prod(Sizes(strata))
  }

  predicate AllWellFormed(strata: seq<Stratum>)
  {
    forall i :: 0 <= i < |strata| ==> WellFormed(strata[i])
  }

  lemma {:induction false} ProdPositiveOf(s: seq<int>)
    requires forall i :: 0 <= i < |s| ==> s[i] > 0
    ensures Prod(s) > 0
  {
    if s != [] {
      var n := |s|;
      assert forall i :: 0 <= i < n - 1 ==> s[..n - 1][i] == s[i];
      ProdPositiveOf(s[..n - 1]);
      MulAtLeast(Prod(s[..n - 1]), s[n - 1]);
    }
  }

  /** The reversed rankings are permutations of their own lengths, each starting at the downbeat. */
  lemma ReversedRankings(strata: seq<Stratum>)
    requires AllWellFormed(strata) && FirstOrders(strata).Success?
    ensures Lens(Reverse(FirstOrders(strata).value)) == Reverse(Sizes(strata))
    ensures forall i :: 0 <= i < |strata| ==>
      IsPermutationOfRange(Reverse(FirstOrders(strata).value)[i], |Reverse(FirstOrders(strata).value)[i]|)
    ensures StrataSize(strata) > 0 ==> forall i :: 0 <= i < |strata| ==>
      |Reverse(FirstOrders(strata).value)[i]| > 0 && Reverse(FirstOrders(strata).value)[i][0] == 0
  {
    FirstOrdersAt(strata);
    var rev := Reverse(FirstOrders(strata).value);
    var n := |strata|;
    forall i | 0 <= i < n
      ensures rev[i] == FirstOrder(strata[n - 1 - i]).value
      ensures IsPermutationOfRange(rev[i], StratumSize(strata[n - 1 - i]))
      ensures StratumSize(strata[n - 1 - i]) > 0 ==> rev[i][0] == 0
    {
      FirstOrderPermutation(strata[n - 1 - i]);
    }
    if StrataSize(strata) > 0 {
      ProdPositive(Sizes(strata));
    }
  }

  /**
   * `_get_backward_beat_priorities` ranks exactly the bars whose strata are
   * all well formed, and then ranks every pulse of the bar once, the
   * downbeat first.
   */
  lemma BackwardBeatPrioritiesPermutation(strata: seq<Stratum>)
    ensures BackwardBeatPriorities(strata).Success? <==> AllWellFormed(strata)
    ensures BackwardBeatPriorities(strata).Success? ==>
      IsPermutationOfRange(BackwardBeatPriorities(strata).value, StrataSize(strata))
    ensures BackwardBeatPriorities(strata).Success? && StrataSize(strata) > 0 ==>
      BackwardBeatPriorities(strata).value[0] == 0
  {
    assert FirstOrders(strata).Success? <==> AllWellFormed(strata) by {
      FirstOrdersAt(strata);
      forall i | 0 <= i < |strata| ensures FirstOrder(strata[i]).Success? <==> WellFormed(strata[i]) {
        FirstOrderPermutation(strata[i]);
      }
    }
    if AllWellFormed(strata) {
      WellFormedBackward(strata);
    }
  }

  /** For well-formed strata the priorities are the mixed-radix reading of the reversed rankings. */
  lemma WellFormedBackward(strata: seq<Stratum>)
    requires AllWellFormed(strata) && FirstOrders(strata).Success?
    ensures BackwardBeatPriorities(strata).Success?
    ensures IsPermutationOfRange(BackwardBeatPriorities(strata).value, StrataSize(strata))
    ensures StrataSize(strata) > 0 ==> BackwardBeatPriorities(strata).value[0] == 0
  {
    var rev := Reverse(FirstOrders(strata).value);
    var ms := Multipliers(Lens(rev));
    assert Prod(Lens(rev)) == StrataSize(strata) by {
      ReversedRankings(strata);
      ProdReverse(Sizes(strata));
    }
    assert IsPermutationOfRange(Mixed(rev), StrataSize(strata)) by {
      ReversedRankings(strata);
      MixedPermutation(rev);
    }
    assert BackwardBeatPriorities(strata) == Success(Mixed(rev)) by {
      CombinedIsMixed(rev, ms, 1);
      assert Combined(rev, ms) == Mixed(rev);
    }
    if StrataSize(strata) > 0 {
      ReversedRankings(strata);
      MixedPermutation(rev);
    }
  }

  /**
   * `get_indispensability_array(strata)` without normalisation: the
   * backward ranking turned into one indispensability per pulse by the same
   * comprehension, rotation and reversal as the metric-layer version
   * (`_rotate` is the slice expression of `rotate_sequence`).
   */
  function IndispensabilityArray(strata: seq<Stratum>): Result<seq<int>, StrataError>
  {
    var bbp :- BackwardBeatPriorities(strata);
    BackwardBeatPrioritiesPermutation(strata);
    PermutationMultiset(bbp, StrataSize(strata));
    BeatPriorities.IndispensabilityArrayPermutation(bbp, StrataSize(strata));
    Success(BeatPriorities.IndispensabilityArray(bbp))
  }

  /**
   * The array exists exactly for well-formed strata; it gives every pulse of
   * the bar a different indispensability, and the downbeat the greatest.
   */
  lemma IndispensabilityArrayPermutation(strata: seq<Stratum>)
    ensures IndispensabilityArray(strata).Success? <==> AllWellFormed(strata)
    ensures IndispensabilityArray(strata).Success? ==>
      IsPermutationOfRange(IndispensabilityArray(strata).value, StrataSize(strata))
    ensures IndispensabilityArray(strata).Success? && StrataSize(strata) > 0 ==>
      IndispensabilityArray(strata).value[0] == StrataSize(strata) - 1
  {
    BackwardBeatPrioritiesPermutation(strata);
    if AllWellFormed(strata) {
      var bbp := BackwardBeatPriorities(strata).value;
      PermutationMultiset(bbp, StrataSize(strata));
      BeatPriorities.IndispensabilityArrayPermutation(bbp, StrataSize(strata));
    }
  }

  // ----- standard strata -----

  /** One stratum of `_standardize_strata`: a number above 2 becomes its grouping into 2s and 3s. */
  function Standard(n: int): Stratum
  {
    if n > 2 then Indispensability.SeqStratum(MetricLayers.Decompose(n)) else Indispensability.IntStratum(n)
  }

  /** `_standardize_strata`: an AssertionError for a number that is not positive. */
  function StandardStrata(ns: seq<int>): Result<seq<Stratum>, StrataError>
  {
    if exists i :: 0 <= i < |ns| && ns[i] <= 0 then Failure(StratumNotPositive)
    else Success(seq(|ns|, i requires 0 <= i < |ns| => Standard(ns[i])))
  }

  /** The loop of `_standardize_strata`. */
  method StandardizeStrata(ns: seq<int>) returns (r: Result<seq<Stratum>, StrataError>)
    ensures r == StandardStrata(ns)
  {
    var strata := [];
    for k := 0 to |ns|
      invariant |strata| == k
      invariant forall i :: 0 <= i < k ==> ns[i] > 0 && strata[i] == Standard(ns[i])
    {
      if ns[k] <= 0 {
        return Failure(StratumNotPositive);
      }
      if ns[k] > 2 {
        var parts := MetricLayers.DecomposeToTwosAndThrees(ns[k]);
        strata := strata + [Indispensability.SeqStratum(parts)];
      } else {
        strata := strata + [Indispensability.IntStratum(ns[k])];
      }
    }
    assert strata == seq(|ns|, i requires 0 <= i < |ns| => Standard(ns[i]));
    return Success(strata);
  }

  /** A positive number keeps its size when standardised, and a grouping only has positive groups. */
  lemma StandardSize(n: int)
    requires n > 0
    ensures WellFormed(Standard(n)) && StratumSize(Standard(n)) == n
  {
    if n > 2 {
      var d := MetricLayers.Decompose(n);
      MetricLayers.DecomposeSums(n);
      assert forall i :: 0 <= i < |d| ==> d[i] > 0;
      PulseCountSum(d);
    }
  }

  /** `get_standard_indispensability_array(strata)` without normalisation. */
  function StandardIndispensabilityArray(ns: seq<int>): Result<seq<int>, StrataError>
  {
    var strata :- StandardStrata(ns);
    IndispensabilityArray(strata)
  }

  /**
   * Positive strata always give an array: a permutation of 0..N-1, where N
   * is the product of the strata, with N-1 on the downbeat; any other
   * stratum fails the assertion.
   */
  lemma StandardIndispensabilityArrayPermutation(ns: seq<int>)
    ensures StandardIndispensabilityArray(ns).Success? <==> forall i :: 0 <= i < |ns| ==> ns[i] > 0
    ensures StandardIndispensabilityArray(ns).Success? ==>
      Prod(ns) > 0 && IsPermutationOfRange(StandardIndispensabilityArray(ns).value, Prod(ns)) &&
      StandardIndispensabilityArray(ns).value[0] == Prod(ns) - 1
  {
    if forall i :: 0 <= i < |ns| ==> ns[i] > 0 {
      var strata := StandardStrataSizes(ns);
      assert StandardIndispensabilityArray(ns) == IndispensabilityArray(strata);
      assert Prod(ns) > 0 by { ProdPositiveOf(ns); }
      IndispensabilityArrayPermutation(strata);
    } else {
      assert StandardStrata(ns).Failure?;
    }
  }

  /** Standardising positive strata gives well-formed strata of the same sizes. */
  lemma StandardStrataSizes(ns: seq<int>) returns (strata: seq<Stratum>)
    requires forall i :: 0 <= i < |ns| ==> ns[i] > 0
    ensures StandardStrata(ns) == Success(strata)
    ensures AllWellFormed(strata) && StrataSize(strata) == Prod(ns)
  {
    strata := StandardStrata(ns).value;
    forall i | 0 <= i < |ns| ensures WellFormed(strata[i]) && Sizes(strata)[i] == ns[i] {
      StandardSize(ns[i]);
    }
    assert Sizes(strata) == ns;
  }

  // ----- two strata of two pulses -----

  lemma FirstOrdersAppend(strata: seq<Stratum>, x: Stratum)
    requires FirstOrders(strata).Success? && FirstOrder(x).Success?
    ensures FirstOrders(strata + [x]) == Success(FirstOrders(strata).value + [FirstOrder(x).value])
  {
    assert (strata + [x])[..|strata|] == strata;
  }

  lemma RepeatedRankings(x: Stratum)
    requires FirstOrder(x).Success?
    ensures FirstOrders([x, x]) == Success([FirstOrder(x).value, FirstOrder(x).value])
  {
    var v := FirstOrder(x).value;
    FirstOrdersAppend([], x);
    assert [] + [x] == [x] && [] + [v] == [v];
    assert FirstOrders([x]) == Success([v]);
    FirstOrdersAppend([x], x);
    assert [x] + [x] == [x, x] && [v] + [v] == [v, v];
  }

  lemma TwoByTwoRankings()
    ensures FirstOrders([Indispensability.IntStratum(2), Indispensability.IntStratum(2)]) == Success([[0, 1], [0, 1]])
  {
    var two := Indispensability.IntStratum(2);
    assert FirstOrder(two) == Success([0, 1]) by {
      assert Range(0, 2) == [0, 1];
    }
    RepeatedRankings(two);
  }

  lemma SmallPair(a: int)
    requires 0 < a <= 2
    ensures StandardStrata([a, a]) == Success([Indispensability.IntStratum(a), Indispensability.IntStratum(a)])
  {
    var ns := [a, a];
    assert forall i :: 0 <= i < |ns| ==> ns[i] > 0 && Standard(ns[i]) == Indispensability.IntStratum(a);
    assert seq(|ns|, i requires 0 <= i < |ns| => Standard(ns[i])) == [Indispensability.IntStratum(a), Indispensability.IntStratum(a)];
  }

  lemma TwoByTwoMixed()
    ensures Mixed([[0, 1], [0, 1]]) == [0, 2, 1, 3]
  {
    var lists := [[0, 1], [0, 1]];
    assert Mixed(lists[1..][1..]) == [0];
    assert Mixed(lists[1..]) == [0, 1] by {
      assert Pairs([0, 1], [0], Digit(2)) == [0] + Pairs([1], [0], Digit(2));
      assert Pairs([1], [0], Digit(2)) == [1] + Pairs([], [0], Digit(2));
    }
    assert Pairs([0, 1], [0, 1], Digit(2)) == [0, 2] + Pairs([1], [0, 1], Digit(2));
    assert Pairs([1], [0, 1], Digit(2)) == [1, 3] + Pairs([], [0, 1], Digit(2));
  }

  lemma TwoByTwoPriorities()
    ensures BackwardBeatPriorities([Indispensability.IntStratum(2), Indispensability.IntStratum(2)]) == Success([0, 2, 1, 3])
  {
    TwoByTwoRankings();
    var lists := [[0, 1], [0, 1]];
    assert Reverse(lists) == lists;
    var ms := Multipliers(Lens(lists));
    assert ms[0] == 1 * Prod(Lens(lists)[..0]) && ms[1] == 1 * Prod(Lens(lists)[..1]);
    CombinedIsMixed(lists, ms, 1);
    TwoByTwoMixed();
    assert Combined(lists, ms) == [0, 2, 1, 3];
  }

  /** For two strata of 2 pulses the array is [3, 0, 2, 1], in both entry points. */
  lemma TwoByTwoExample()
    ensures IndispensabilityArray([Indispensability.IntStratum(2), Indispensability.IntStratum(2)]) == Success([3, 0, 2, 1])
    ensures StandardIndispensabilityArray([2, 2]) == Success([3, 0, 2, 1])
  {
    TwoByTwoPriorities();
    BeatPriorities.TwoPlusTwoArray();
    SmallPair(2);
  }
}
