/**
 * `MetricLayer`: an additive meter whose groups are beat counts or nested
 * layers, together with the normalisations its constructor applies
 * (breaking large numbers into 2s and 3s, removing redundant nesting) and the
 * `+` and `*` operators that combine layers.
 *
 * A layer is represented by its list of groups. The source updates a layer's
 * `groups` list in place; every layer it builds is already in normal form and
 * both normalisations are idempotent on normal forms, so the in-place updates
 * are modelled as functions returning the new groups.
 */
module MetricLayers {
  import opened Builtins

  /** One group of a layer: a number of beats, or a nested layer given by its groups. */
  datatype Group = Beats(n: nat) | Layer(groups: seq<Group>)

  /**
   * `decompose_to_twos_and_threes(n)`: one 3 at the end when `n` is odd, preceded by
   * as many 2s as the loop subtracts from what is left while it is positive.
   */
  function Decompose(n: int): seq<nat>
  {
    var odd := n % 2 == 1;
    var rest := if odd then n - 3 else n;
    Repeat(2, if rest > 0 then rest / 2 else 0) + (if odd then [3] else [])
  }

  /** The loop of `decompose_to_twos_and_threes`, building the list backwards and reversing it. */
  method DecomposeToTwosAndThrees(n0: int) returns (out: seq<nat>)
    ensures out == Decompose(n0)
  {
    var n := n0;
    var head: seq<nat> := [];
    if n % 2 == 1 {
      n := n - 3;
      head := [3];
    }
    ghost var rest := n;
    var acc := head;
    while n > 0
      invariant n % 2 == 0 && rest % 2 == 0
      invariant rest <= 0 ==> n == rest
      invariant rest > 0 ==> 0 <= n <= rest
      invariant acc == head + Repeat(2, (rest - n) / 2)
    {
      assert Repeat(2, (rest - n) / 2) + [2] == Repeat(2, (rest - n) / 2 + 1);
      n := n - 2;
      acc := acc + [2];
    }
    out := Reverse(acc);
    var twos := Repeat(2, (rest - n) / 2);
    assert out == twos + head by {
      assert |out| == |twos + head|;
      forall i | 0 <= i < |out| ensures out[i] == (twos + head)[i] {
        if head != [] && i == |out| - 1 {
          assert out[i] == acc[0];
        }
      }
    }
  }

  /** For `n >= 2` the pieces are 2s with at most one trailing 3, and they add up to `n`. */
  lemma {:induction false} DecomposeSums(n: int)
    requires n >= 2
    ensures Sum(Decompose(n)) == n
    ensures forall i :: 0 <= i < |Decompose(n)| - 1 ==> Decompose(n)[i] == 2
    ensures |Decompose(n)| > 0 && Decompose(n)[|Decompose(n)| - 1] == (if n % 2 == 1 then 3 else 2)
  {
    var odd := n % 2 == 1;
    var rest := if odd then n - 3 else n;
    var k := if rest > 0 then rest / 2 else 0;
    RepeatTwosSum(k);
    var tail: seq<int> := if odd then [3] else [];
    SumAppend(Repeat(2, k), tail);
    assert Decompose(n) == Repeat(2, k) + tail;
  }

  lemma {:induction false} RepeatTwosSum(k: nat)
    ensures Sum(Repeat(2, k)) == 2 * k
  {
    if k > 0 {
      RepeatTwosSum(k - 1);
      assert Repeat(2, k) == [2] + Repeat(2, k - 1);
    }
  }

  lemma DecomposeExamples()
    ensures Decompose(7) == [2, 2, 3]
    ensures Decompose(4) == [2, 2]
  {
    assert Repeat(2, 2) == [2, 2];
  }

  /** Number of beats in a group (`_count_nested_list` of its beat groups). */
  function Count(g: Group): nat
  {
    match g
    case Beats(n) => n
    case Layer(groups) => CountAll(groups)
  }

  function CountAll(groups: seq<Group>): nat
  {
    if groups == [] then 0 else Count(groups[0]) + CountAll(groups[1..])
  }

  lemma {:induction false} CountAllAppend(a: seq<Group>, b: seq<Group>)
    ensures CountAll(a + b) == CountAll(a) + CountAll(b)
  {
    if a == [] {
      assert a + b == b;
    } else {
      assert (a + b)[1..] == a[1..] + b;
      CountAllAppend(a[1..], b);
    }
  }

  function BeatsOf(ns: seq<nat>): (gs: seq<Group>)
    ensures |gs| == |ns| && forall i :: 0 <= i < |ns| ==> gs[i] == Beats(ns[i])
  {
    if ns == [] then [] else [Beats(ns[0])] + BeatsOf(ns[1..])
  }

  lemma {:induction false} CountBeatsOf(ns: seq<nat>)
    ensures CountAll(BeatsOf(ns)) == Sum(ns)
  {
    if ns != [] {
      CountBeatsOf(ns[1..]);
      assert BeatsOf(ns)[1..] == BeatsOf(ns[1..]);
    }
  }

  /**
   * `_remove_redundant_nesting`: a layer whose only group is a layer takes that
   * layer's groups (repeatedly); otherwise every nested layer is normalised and a
   * nested layer left holding a single beat count is replaced by that count.
   */
  function RemoveRedundantNesting(groups: seq<Group>): seq<Group>
    decreases groups, 1
  {
    if |groups| == 1 && groups[0].Layer? then RemoveRedundantNesting(groups[0].groups)
    else SimplifyChildren(groups)
  }

  function SimplifyChildren(groups: seq<Group>): (r: seq<Group>)
    ensures |r| == |groups|
    decreases groups, 0
  {
    if groups == [] then [] else [SimplifyChild(groups[0])] + SimplifyChildren(groups[1..])
  }

  function SimplifyChild(g: Group): Group
    decreases g
  {
    match g
    case Beats(_) => g
    case Layer(gs) => Nest(RemoveRedundantNesting(gs))
  }

  /** How a layer appears as a group of its parent: a layer of one beat count is that count. */
  function Nest(groups: seq<Group>): Group
  {
    if |groups| == 1 && groups[0].Beats? then groups[0] else Layer(groups)
  }

  /**
   * The normal form the constructor establishes: the groups are not a single
   * layer, and no nested layer holds a single beat count or is itself not normal.
   */
  predicate NormalForm(groups: seq<Group>)
  {
    !(|groups| == 1 && groups[0].Layer?) &&
    forall i :: 0 <= i < |groups| ==> NormalChild(groups[i])
  }

  predicate NormalChild(g: Group)
  {
    match g
    case Beats(_) => true
    case Layer(gs) => NormalForm(gs) && !(|gs| == 1 && gs[0].Beats?)
  }

  /** Removing redundant nesting yields the normal form and keeps the beat count. */
  lemma {:induction false} RemoveRedundantNestingNormalizes(groups: seq<Group>)
    ensures NormalForm(RemoveRedundantNesting(groups))
    ensures CountAll(RemoveRedundantNesting(groups)) == CountAll(groups)
    decreases groups, 1
  {
    if |groups| == 1 && groups[0].Layer? {
      RemoveRedundantNestingNormalizes(groups[0].groups);
      assert CountAll(groups) == Count(groups[0]);
    } else {
      SimplifyChildrenNormal(groups);
    }
  }

  lemma {:induction false} SimplifyChildrenNormal(groups: seq<Group>)
    ensures forall i :: 0 <= i < |groups| ==> NormalChild(SimplifyChildren(groups)[i])
    ensures forall i :: 0 <= i < |groups| ==> groups[i].Beats? ==> SimplifyChildren(groups)[i] == groups[i]
    ensures CountAll(SimplifyChildren(groups)) == CountAll(groups)
    decreases groups, 0
  {
    if groups != [] {
      SimplifyChildNormal(groups[0]);
      SimplifyChildrenNormal(groups[1..]);
      var r := SimplifyChildren(groups);
      assert r[1..] == SimplifyChildren(groups[1..]);
      forall i | 0 <= i < |groups| ensures NormalChild(r[i]) {
        if i > 0 { assert r[i] == SimplifyChildren(groups[1..])[i - 1]; }
      }
    }
  }

  lemma {:induction false} SimplifyChildNormal(g: Group)
    ensures NormalChild(SimplifyChild(g))
    ensures Count(SimplifyChild(g)) == Count(g)
    decreases g
  {
    match g
    case Beats(_) =>
    case Layer(gs) =>
      RemoveRedundantNestingNormalizes(gs);
      var inner := RemoveRedundantNesting(gs);
      if |inner| == 1 && inner[0].Beats? {
        assert CountAll(inner) == Count(inner[0]);
      }
  }

  /** On a normal form there is nothing left to remove, so normalising twice is normalising once. */
  lemma {:induction false} RemoveRedundantNestingIdempotent(groups: seq<Group>)
    requires NormalForm(groups)
    ensures RemoveRedundantNesting(groups) == groups
    decreases groups, 1
  {
    SimplifyChildrenIdentity(groups);
  }

  lemma {:induction false} SimplifyChildrenIdentity(groups: seq<Group>)
    requires forall i :: 0 <= i < |groups| ==> NormalChild(groups[i])
    ensures SimplifyChildren(groups) == groups
    decreases groups, 0
  {
    if groups != [] {
      SimplifyChildIdentity(groups[0]);
      SimplifyChildrenIdentity(groups[1..]);
    }
  }

  lemma {:induction false} SimplifyChildIdentity(g: Group)
    requires NormalChild(g)
    ensures SimplifyChild(g) == g
    decreases g
  {
    match g
    case Beats(_) =>
    case Layer(gs) =>
      RemoveRedundantNestingIdempotent(gs);
  }

  /** `break_up_large_numbers`: every beat count above 3 becomes a layer of 2s and 3s. */
  function BreakUp(groups: seq<Group>): (r: seq<Group>)
    ensures |r| == |groups|
  {
    if groups == [] then [] else [BreakUpGroup(groups[0])] + BreakUp(groups[1..])
  }

  function BreakUpGroup(g: Group): Group
  {
    match g
    case Beats(n) => if n > 3 then Layer(RemoveRedundantNesting(BeatsOf(Decompose(n)))) else g
    case Layer(gs) => Layer(BreakUp(gs))
  }

  /** No beat count above 3 remains anywhere. */
  predicate Small(groups: seq<Group>)
  {
    forall i :: 0 <= i < |groups| ==> SmallGroup(groups[i])
  }

  predicate SmallGroup(g: Group)
  {
    match g
    case Beats(n) => n <= 3
    case Layer(gs) => Small(gs)
  }

  /** Breaking up keeps the beat count and leaves no count above 3. */
  lemma {:induction false} BreakUpKeepsCount(groups: seq<Group>)
    ensures CountAll(BreakUp(groups)) == CountAll(groups)
    ensures Small(BreakUp(groups))
    decreases groups, 0
  {
    if groups != [] {
      BreakUpGroupKeepsCount(groups[0]);
      BreakUpKeepsCount(groups[1..]);
      var r := BreakUp(groups);
      assert r[1..] == BreakUp(groups[1..]);
      forall i | 0 <= i < |r| ensures SmallGroup(r[i]) {
        if i > 0 { assert r[i] == BreakUp(groups[1..])[i - 1]; }
      }
    }
  }

  lemma {:induction false} BreakUpGroupKeepsCount(g: Group)
    ensures Count(BreakUpGroup(g)) == Count(g)
    ensures SmallGroup(BreakUpGroup(g))
    decreases g
  {
    match g
    case Beats(n) =>
      if n > 3 {
        var pieces := BeatsOf(Decompose(n));
        DecomposeSums(n);
        CountBeatsOf(Decompose(n));
        assert |pieces| >= 2 by {
          assert |Decompose(n)| >= 2;
        }
        RemoveRedundantNestingIdempotent(pieces);
        forall i | 0 <= i < |pieces| ensures SmallGroup(pieces[i]) {
          assert Decompose(n)[i] <= 3;
        }
      }
    case Layer(gs) =>
      BreakUpKeepsCount(gs);
  }

  /** The groups of `MetricLayer(*groups, break_up_large_numbers=breakUp)`. */
  function NewLayer(groups: seq<Group>, breakUp: bool): seq<Group>
  {
    RemoveRedundantNesting(if breakUp then BreakUp(groups) else groups)
  }

  /** Every constructed layer is in normal form and has as many beats as its groups. */
  lemma NewLayerNormal(groups: seq<Group>, breakUp: bool)
    ensures NormalForm(NewLayer(groups, breakUp))
    ensures CountAll(NewLayer(groups, breakUp)) == CountAll(groups)
    ensures breakUp ==> Small(NewLayer(groups, breakUp))
  {
    var input := if breakUp then BreakUp(groups) else groups;
    BreakUpKeepsCount(groups);
    RemoveRedundantNestingNormalizes(input);
    if breakUp {
      RemoveRedundantNestingKeepsSmall(input);
    }
  }

  lemma {:induction false} RemoveRedundantNestingKeepsSmall(groups: seq<Group>)
    requires Small(groups)
    ensures Small(RemoveRedundantNesting(groups))
    decreases groups, 1
  {
    if |groups| == 1 && groups[0].Layer? {
      RemoveRedundantNestingKeepsSmall(groups[0].groups);
    } else {
      SimplifyChildrenKeepsSmall(groups);
    }
  }

  lemma {:induction false} SimplifyChildrenKeepsSmall(groups: seq<Group>)
    requires Small(groups)
    ensures Small(SimplifyChildren(groups))
    decreases groups, 0
  {
    if groups != [] {
      SimplifyChildrenKeepsSmall(groups[1..]);
      var r := SimplifyChildren(groups);
      assert r[1..] == SimplifyChildren(groups[1..]);
      match groups[0]
      case Beats(_) =>
      case Layer(gs) =>
        RemoveRedundantNestingKeepsSmall(gs);
      forall i | 0 <= i < |r| ensures SmallGroup(r[i]) {
        if i > 0 { assert r[i] == SimplifyChildren(groups[1..])[i - 1]; }
      }
    }
  }

  /** `a + b` (`join`): `MetricLayer(a, b)`, where `b` may be a beat count or a layer. */
  function Add(a: seq<Group>, b: Group): seq<Group>
  {
    NewLayer([Layer(a), b], false)
  }

  /**
   * `a + b` puts both operands side by side one level down, each as it would
   * appear inside a parent: `[Nest(a), Nest(b)]`, where an operand that is a
   * single beat count stays that count rather than a nested layer; the beats
   * add up.
   */
  lemma AddNests(a: seq<Group>, b: seq<Group>)
    requires NormalForm(a) && NormalForm(b)
    ensures Add(a, Layer(b)) == [Nest(a), Nest(b)]
    ensures CountAll(Add(a, Layer(b))) == CountAll(a) + CountAll(b)
  {
    RemoveRedundantNestingIdempotent(a);
    RemoveRedundantNestingIdempotent(b);
    assert SimplifyChildren([Layer(a), Layer(b)]) == [SimplifyChild(Layer(a)), SimplifyChild(Layer(b))];
    if |a| == 1 && a[0].Beats? { assert CountAll(a) == Count(a[0]); }
    if |b| == 1 && b[0].Beats? { assert CountAll(b) == Count(b[0]); }
    assert Count(Nest(a)) == CountAll(a) && Count(Nest(b)) == CountAll(b);
    assert CountAll([Nest(a), Nest(b)]) == Count(Nest(a)) + CountAll([Nest(b)]);
  }

  /** `k * layer` (`__rmul__`): the layer itself for 1, else `MetricLayer(*([layer] * k))`. */
  function RMul(k: nat, layer: seq<Group>): seq<Group>
  {
    if k == 1 then layer else NewLayer(Repeat(Layer(layer), k), false)
  }

  /** `a * b` for a layer `b` (`__mul__`): every group of `a` multiplied by `b`. */
  function Mul(a: seq<Group>, b: seq<Group>): seq<Group>
    decreases a, 1
  {
    NewLayer(MulGroups(a, b), false)
  }

  function MulGroups(a: seq<Group>, b: seq<Group>): (r: seq<Group>)
    ensures |r| == |a|
    decreases a, 0
  {
    if a == [] then [] else [MulGroup(a[0], b)] + MulGroups(a[1..], b)
  }

  /** `group * b`: an int group goes through `b.__rmul__`, a layer group through `__mul__`. */
  function MulGroup(g: Group, b: seq<Group>): Group
    decreases g
  {
    match g
    case Beats(k) => Layer(RMul(k, b))
    case Layer(gs) => Layer(Mul(gs, b))
  }

  /** `a * k` for an int `k`: `a * MetricLayer(k)`. */
  function MulInt(a: seq<Group>, k: nat): seq<Group>
  {
    Mul(a, NewLayer([Beats(k)], false))
  }

  lemma {:induction false} CountRepeat(g: Group, k: nat)
    ensures CountAll(Repeat(g, k)) == k * Count(g)
  {
    if k > 0 {
      CountRepeat(g, k - 1);
      assert Repeat(g, k)[1..] == Repeat(g, k - 1);
    }
  }

  /** Multiplying layers multiplies their beat counts. */
  lemma {:induction false} MulCount(a: seq<Group>, b: seq<Group>)
    ensures CountAll(Mul(a, b)) == CountAll(a) * CountAll(b)
    decreases a, 1
  {
    MulGroupsCount(a, b);
    RemoveRedundantNestingNormalizes(MulGroups(a, b));
  }

  lemma {:induction false} MulGroupsCount(a: seq<Group>, b: seq<Group>)
    ensures CountAll(MulGroups(a, b)) == CountAll(a) * CountAll(b)
    decreases a, 0
  {
    if a != [] {
      MulGroupCount(a[0], b);
      MulGroupsCount(a[1..], b);
      assert MulGroups(a, b)[1..] == MulGroups(a[1..], b);
      calc {
        CountAll(MulGroups(a, b));
        Count(a[0]) * CountAll(b) + CountAll(a[1..]) * CountAll(b);
        (Count(a[0]) + CountAll(a[1..])) * CountAll(b);
      }
    }
  }

  lemma {:induction false} MulGroupCount(g: Group, b: seq<Group>)
    ensures Count(MulGroup(g, b)) == Count(g) * CountAll(b)
    decreases g
  {
    match g
    case Beats(k) =>
      if k != 1 {
        CountRepeat(Layer(b), k);
        RemoveRedundantNestingNormalizes(Repeat(Layer(b), k));
      }
    case Layer(gs) =>
      MulCount(gs, b);
  }

  /** Every product is a constructed layer, hence in normal form. */
  lemma MulNormal(a: seq<Group>, b: seq<Group>)
    ensures NormalForm(Mul(a, b))
  {
    RemoveRedundantNestingNormalizes(MulGroups(a, b));
  }

  lemma OperatorExamples()
    ensures Mul([Beats(2)], [Beats(3)]) == [Beats(3), Beats(3)]
    ensures Add([Beats(2), Beats(3)], Beats(3)) == [Layer([Beats(2), Beats(3)]), Beats(3)]
    ensures NewLayer([Beats(7)], true) == [Beats(2), Beats(2), Beats(3)]
  {
    assert Repeat(Layer([Beats(3)]), 2) == [Layer([Beats(3)]), Layer([Beats(3)])];
    assert Decompose(7) == [2, 2, 3] by { assert Repeat(2, 2) == [2, 2]; }
    assert BeatsOf([2, 2, 3]) == [Beats(2), Beats(2), Beats(3)];
    assert NormalForm([Beats(2), Beats(3)]);
    RemoveRedundantNestingIdempotent([Beats(2), Beats(3)]);
  }

  /**
   * `extend(other, in_place)`: the groups of `other` after this layer's, with
   * redundant nesting removed. In place that rewrites `self.groups`; otherwise
   * `MetricLayer(*self.groups, *other.groups)` builds a new layer from them.
   */
  function Extend(a: seq<Group>, b: seq<Group>, inPlace: bool): seq<Group>
  {
    if inPlace then RemoveRedundantNesting(a + b) else NewLayer(a + b, false)
  }

  /**
   * `append(other, in_place)`: `other` itself as one more group, with redundant
   * nesting removed, in place or in a new `MetricLayer(*self.groups, other)`.
   */
  function Append(a: seq<Group>, g: Group, inPlace: bool): seq<Group>
  {
    if inPlace then RemoveRedundantNesting(a + [g]) else NewLayer(a + [g], false)
  }

  /** Either way, extending gives a normal form holding the beats of both layers. */
  lemma ExtendNormal(a: seq<Group>, b: seq<Group>, inPlace: bool)
    ensures NormalForm(Extend(a, b, inPlace))
    ensures CountAll(Extend(a, b, inPlace)) == CountAll(a) + CountAll(b)
  {
    RemoveRedundantNestingNormalizes(a + b);
    CountAllAppend(a, b);
  }

  /** Extending a normal layer by a normal layer just concatenates their groups. */
  lemma ExtendConcatenates(a: seq<Group>, b: seq<Group>, inPlace: bool)
    requires NormalForm(a) && NormalForm(b)
    ensures Extend(a, b, inPlace) == a + b
  {
    ConcatNormal(a, b);
    RemoveRedundantNestingIdempotent(a + b);
  }

  /** Two normal forms side by side are a normal form. */
  lemma ConcatNormal(a: seq<Group>, b: seq<Group>)
    requires NormalForm(a) && NormalForm(b)
    ensures NormalForm(a + b)
  {
    if |a + b| == 1 {
      if a == [] { assert a + b == b; } else { assert a + b == a; }
    }
    forall i | 0 <= i < |a + b| ensures NormalChild((a + b)[i]) {
      if i >= |a| { assert (a + b)[i] == b[i - |a|]; }
    }
  }

  lemma {:induction false} SimplifyChildrenAppend(a: seq<Group>, b: seq<Group>)
    ensures SimplifyChildren(a + b) == SimplifyChildren(a) + SimplifyChildren(b)
  {
    if a == [] {
      assert a + b == b;
    } else {
      assert (a + b)[1..] == a[1..] + b;
      SimplifyChildrenAppend(a[1..], b);
    }
  }

  /**
   * Appending a layer to a non-empty normal layer adds it as one group, a
   * layer of a single beat count as that count; appended to an empty layer,
   * the layer's own groups are taken over.
   */
  lemma AppendLayer(a: seq<Group>, gs: seq<Group>, inPlace: bool)
    requires NormalForm(a) && NormalForm(gs)
    ensures a != [] ==> Append(a, Layer(gs), inPlace) == a + [Nest(gs)]
    ensures a == [] ==> Append(a, Layer(gs), inPlace) == gs
    ensures CountAll(Append(a, Layer(gs), inPlace)) == CountAll(a) + CountAll(gs)
  {
    RemoveRedundantNestingIdempotent(gs);
    RemoveRedundantNestingNormalizes(a + [Layer(gs)]);
    CountAllAppend(a, [Layer(gs)]);
    if a == [] {
      assert a + [Layer(gs)] == [Layer(gs)];
    } else {
      SimplifyChildrenIdentity(a);
      SimplifyChildrenAppend(a, [Layer(gs)]);
      assert SimplifyChildren([Layer(gs)]) == [Nest(gs)];
    }
  }

  /** Appending a beat count to a normal layer adds it as one more group. */
  lemma AppendBeats(a: seq<Group>, n: nat, inPlace: bool)
    requires NormalForm(a)
    ensures Append(a, Beats(n), inPlace) == a + [Beats(n)]
  {
    ConcatNormal(a, [Beats(n)]);
    RemoveRedundantNestingIdempotent(a + [Beats(n)]);
  }
}
