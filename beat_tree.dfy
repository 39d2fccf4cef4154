/**
 * Nested beat groups: the tree of beat numbers `get_nested_beat_groups`
 * builds from a metric layer, the nested-list `depth` it is measured by, and
 * `normalize_depth`, which wraps shallow branches until every leaf sits at the
 * same depth.
 */
module BeatTrees {
  import opened Wrappers
  import opened Builtins
  import opened MetricLayers

  /** A nested list of beat numbers. */
  datatype Tree = Leaf(value: int) | Node(children: seq<Tree>)

  /** The beat numbers of a tree, read left to right. */
  function Leaves(t: Tree): seq<int>
    decreases t, 1
  {
    match t
    case Leaf(v) => [v]
    case Node(cs) => LeavesAll(cs)
  }

  function LeavesAll(ts: seq<Tree>): seq<int>
    decreases ts, 0
  {
    if ts == [] then [] else Leaves(ts[0]) + LeavesAll(ts[1..])
  }

  lemma {:induction false} LeavesAllAppend(a: seq<Tree>, b: seq<Tree>)
    ensures LeavesAll(a + b) == LeavesAll(a) + LeavesAll(b)
  {
    if a == [] {
      assert a + b == b;
    } else {
      assert (a + b)[1..] == a[1..] + b;
      LeavesAllAppend(a[1..], b);
    }
  }

  /** Every element of `s` plus `k`. */
  function Shift(s: seq<int>, k: int): (r: seq<int>)
    ensures |r| == |s| && forall i :: 0 <= i < |s| ==> r[i] == s[i] + k
  {
    seq(|s|, i requires 0 <= i < |s| => s[i] + k)
  }

  /** `_increment_nested_list(t, k)`: adds `k` to every beat number. */
  function Increment(t: Tree, k: int): Tree
    decreases t, 1
  {
    match t
    case Leaf(v) => Leaf(v + k)
    case Node(cs) => Node(IncrementAll(cs, k))
  }

  function IncrementAll(ts: seq<Tree>, k: int): (r: seq<Tree>)
    ensures |r| == |ts|
    decreases ts, 0
  {
    if ts == [] then [] else [Increment(ts[0], k)] + IncrementAll(ts[1..], k)
  }

  /** Incrementing shifts the leaves and keeps the shape. */
  lemma {:induction false} IncrementLeaves(t: Tree, k: int)
    ensures Leaves(Increment(t, k)) == Shift(Leaves(t), k)
    decreases t, 1
  {
    match t
    case Leaf(_) =>
    case Node(cs) => IncrementAllLeaves(cs, k);
  }

  lemma {:induction false} IncrementAllLeaves(ts: seq<Tree>, k: int)
    ensures LeavesAll(IncrementAll(ts, k)) == Shift(LeavesAll(ts), k)
    decreases ts, 0
  {
    if ts != [] {
      IncrementLeaves(ts[0], k);
      IncrementAllLeaves(ts[1..], k);
      assert IncrementAll(ts, k)[1..] == IncrementAll(ts[1..], k);
    }
  }

  /** Leaves for the beat numbers in `s`. */
  function LeafList(s: seq<int>): (r: seq<Tree>)
    ensures |r| == |s| && forall i :: 0 <= i < |s| ==> r[i] == Leaf(s[i])
  {
    seq(|s|, i requires 0 <= i < |s| => Leaf(s[i]))
  }

  lemma {:induction false} LeafListLeaves(s: seq<int>)
    ensures LeavesAll(LeafList(s)) == s
  {
    if s != [] {
      LeafListLeaves(s[1..]);
      assert LeafList(s)[1..] == LeafList(s[1..]);
    }
  }

  /** The beat group of one group, numbered from 0: `range(n)` for an int, nested groups for a layer. */
  function BeatGroup(g: Group): Tree
    decreases g, 0
  {
    match g
    case Beats(n) => Node(LeafList(Range(0, n)))
    case Layer(gs) => Node(NestedBeatGroups(gs))
  }

  /**
   * `get_nested_beat_groups`: the groups in reverse order, each numbered
   * after the beats of the groups to its right.
   */
  function NestedBeatGroups(groups: seq<Group>): seq<Tree>
    decreases groups, 2, 0
  {
    NestedFrom(groups, |groups|, 0)
  }

  /** The loop over `reversed(groups[..k])`, with the running `beat`. */
  function NestedFrom(groups: seq<Group>, k: nat, beat: int): (r: seq<Tree>)
    requires k <= |groups|
    ensures |r| == k
    decreases groups, 1, k
  {
    if k == 0 then []
    else
      var bg := Increment(BeatGroup(groups[k - 1]), beat);
      [bg] + NestedFrom(groups, k - 1, beat + |Leaves(bg)|)
  }

  /** A group of n beats yields the beat numbers 0..n-1. */
  lemma {:induction false} BeatGroupLeaves(g: Group)
    ensures Leaves(BeatGroup(g)) == Range(0, Count(g))
    decreases g, 0
  {
    match g
    case Beats(n) => LeafListLeaves(Range(0, n));
    case Layer(gs) => NestedBeatGroupsLeaves(gs);
  }

  lemma {:induction false} NestedFromLeaves(groups: seq<Group>, k: nat, beat: int)
    requires k <= |groups|
    ensures LeavesAll(NestedFrom(groups, k, beat)) == Range(beat, beat + CountAll(groups[..k]))
    decreases groups, 1, k
  {
    if k == 0 {
      assert groups[..k] == [];
    } else {
      var g := groups[k - 1];
      var bg := Increment(BeatGroup(g), beat);
      BeatGroupLeaves(g);
      IncrementLeaves(BeatGroup(g), beat);
      assert Leaves(bg) == Range(beat, beat + Count(g));
      NestedFromLeaves(groups, k - 1, beat + Count(g));
      assert groups[..k] == groups[..k - 1] + [g];
      CountAllAppend(groups[..k - 1], [g]);
      assert CountAll([g]) == Count(g);
      RangeSplit(beat, beat + Count(g), beat + CountAll(groups[..k]));
    }
  }

  /** Read left to right, the leaves are exactly 0..N-1 for N beats. */
  lemma NestedBeatGroupsLeaves(groups: seq<Group>)
    ensures LeavesAll(NestedBeatGroups(groups)) == Range(0, CountAll(groups))
    decreases groups, 2, 0
  {
    NestedFromLeaves(groups, |groups|, 0);
    assert groups[..|groups|] == groups;
  }

  /**
   * Groups are numbered from the right: entry j is the group j places from the
   * end, its beats shifted by the beats of all groups after it.
   */
  lemma {:induction false} NestedFromOrder(groups: seq<Group>, k: nat, beat: int, j: nat)
    requires k <= |groups| && j < k
    ensures NestedFrom(groups, k, beat)[j]
         == Increment(BeatGroup(groups[k - 1 - j]), beat + CountAll(groups[k - j..k]))
    decreases j
  {
    var g := groups[k - 1];
    BeatGroupLeaves(g);
    IncrementLeaves(BeatGroup(g), beat);
    if j == 0 {
      assert groups[k..k] == [];
    } else {
      NestedFromOrder(groups, k - 1, beat + Count(g), j - 1);
      assert groups[k - j..k] == groups[k - j..k - 1] + [g];
      CountAllAppend(groups[k - j..k - 1], [g]);
      assert CountAll([g]) == Count(g);
    }
  }

  lemma NestedBeatGroupsOrder(groups: seq<Group>, j: nat)
    requires j < |groups|
    ensures |NestedBeatGroups(groups)| == |groups|
    ensures NestedBeatGroups(groups)[j]
         == Increment(BeatGroup(groups[|groups| - 1 - j]), CountAll(groups[|groups| - j..]))
  {
    NestedFromOrder(groups, |groups|, 0, j);
    assert groups[|groups| - j..|groups|] == groups[|groups| - j..];
  }

  /** `depth`: 0 for a leaf or an empty list, else one more than the deepest element. */
  function Depth(t: Tree): nat
    decreases t, 1
  {
    match t
    case Leaf(_) => 0
    case Node(cs) => if cs == [] then 0 else 1 + MaxDepth(cs)
  }

  /** `max(depth(e) for e in ts)`, 0 for no elements. */
  function MaxDepth(ts: seq<Tree>): nat
    decreases ts, 0
  {
    if ts == [] then 0
    else
      var d, rest := Depth(ts[0]), MaxDepth(ts[1..]);
      if d >= rest then d else rest
  }

  /** The maximum bounds every element's depth and is reached by one of them. */
  lemma {:induction false} MaxDepthBounds(ts: seq<Tree>)
    ensures forall i :: 0 <= i < |ts| ==> Depth(ts[i]) <= MaxDepth(ts)
    ensures ts != [] ==> exists i :: 0 <= i < |ts| && Depth(ts[i]) == MaxDepth(ts)
  {
    if ts != [] {
      MaxDepthBounds(ts[1..]);
      assert forall i :: 1 <= i < |ts| ==> ts[i] == ts[1..][i - 1];
      if ts[1..] != [] && Depth(ts[0]) < MaxDepth(ts[1..]) {
        var k :| 0 <= k < |ts[1..]| && Depth(ts[1..][k]) == MaxDepth(ts[1..]);
        assert Depth(ts[k + 1]) == MaxDepth(ts);
      } else {
        assert Depth(ts[0]) == MaxDepth(ts);
      }
    }
  }

  /** Every leaf of `t` lies exactly `d` levels down, and no list on the way is empty. */
  predicate Uniform(t: Tree, d: nat)
    decreases t
  {
    if d == 0 then t.Leaf?
    else t.Node? && |t.children| > 0 && forall i :: 0 <= i < |t.children| ==> Uniform(t.children[i], d - 1)
  }

  /** A non-empty list whose elements are all uniform at depth d. */
  predicate UniformList(ts: seq<Tree>, d: nat)
  {
    |ts| > 0 && forall i :: 0 <= i < |ts| ==> Uniform(ts[i], d)
  }

  lemma {:induction false} UniformDepth(t: Tree, d: nat)
    requires Uniform(t, d)
    ensures Depth(t) == d
    decreases t, 1
  {
    if d > 0 {
      UniformListDepth(t.children, d - 1);
    }
  }

  lemma {:induction false} UniformListDepth(ts: seq<Tree>, d: nat)
    requires UniformList(ts, d)
    ensures MaxDepth(ts) == d
    decreases ts, 0
  {
    forall i | 0 <= i < |ts| ensures Depth(ts[i]) == d {
      UniformDepth(ts[i], d);
    }
    MaxDepthBounds(ts);
  }

  /** No list anywhere in `t` is empty. */
  predicate NoEmptyList(t: Tree)
    decreases t
  {
    match t
    case Leaf(_) => true
    case Node(cs) => |cs| > 0 && forall i :: 0 <= i < |cs| ==> NoEmptyList(cs[i])
  }

  predicate AllNoEmptyList(ts: seq<Tree>)
  {
    forall i :: 0 <= i < |ts| ==> NoEmptyList(ts[i])
  }

  /** `max()` of an empty sequence raises ValueError. */
  datatype DepthError = MaxOfEmptySequence

  /**
   * `normalize_depth(ts)`: every element shallower than the deepest is wrapped
   * in singleton lists until it is as deep, and then every list element is
   * normalised in turn.
   */
  function NormalizeDepth(ts: seq<Tree>): Result<seq<Tree>, DepthError>
    decreases ts, 1, 0
  {
    if ts == [] then Failure(MaxOfEmptySequence)
    else NormalizeElements(ts, MaxDepth(ts))
  }

  /** The elements of a list whose deepest element has depth `m`, each wrapped and normalised. */
  function NormalizeElements(ts: seq<Tree>, m: nat): (r: Result<seq<Tree>, DepthError>)
    ensures r.Success? ==> |r.value| == |ts|
    decreases ts, 0, 0
  {
    if ts == [] then Success([])
    else
      var k := if Depth(ts[0]) < m then m - Depth(ts[0]) else 0;
      var first :- NormalizeWrapped(ts[0], k);
      var rest :- NormalizeElements(ts[1..], m);
      Success([first] + rest)
  }

  /**
   * Element `t` after it was wrapped `k` times and normalised: normalising a
   * singleton list `[x]` finds nothing to wrap and normalises `x`.
   */
  function NormalizeWrapped(t: Tree, k: nat): Result<Tree, DepthError>
    decreases t, 2, k
  {
    if k == 0 then
      match t
      case Leaf(_) => Success(t)
      case Node(cs) =>
        var r :- NormalizeDepth(cs);
        Success(Node(r))
    else
      var inner :- NormalizeWrapped(t, k - 1);
      Success(Node([inner]))
  }

  /**
   * After normalisation every element has all its leaves at the depth of the
   * deepest element, and the leaves are the same, in the same order.
   */
  lemma {:induction false} NormalizeDepthSound(ts: seq<Tree>)
    requires NormalizeDepth(ts).Success?
    ensures |NormalizeDepth(ts).value| == |ts| > 0
    ensures forall i :: 0 <= i < |ts| ==> Uniform(NormalizeDepth(ts).value[i], MaxDepth(ts))
    ensures LeavesAll(NormalizeDepth(ts).value) == LeavesAll(ts)
    decreases ts, 1, 0
  {
    MaxDepthBounds(ts);
    NormalizeElementsSound(ts, MaxDepth(ts));
  }

  lemma {:induction false} NormalizeElementsSound(ts: seq<Tree>, m: nat)
    requires forall i :: 0 <= i < |ts| ==> Depth(ts[i]) <= m
    requires NormalizeElements(ts, m).Success?
    ensures forall i :: 0 <= i < |ts| ==> Uniform(NormalizeElements(ts, m).value[i], m)
    ensures LeavesAll(NormalizeElements(ts, m).value) == LeavesAll(ts)
    decreases ts, 0, 0
  {
    if ts != [] {
      var k := if Depth(ts[0]) < m then m - Depth(ts[0]) else 0;
      NormalizeWrappedSound(ts[0], k);
      assert forall i :: 1 <= i < |ts| ==> ts[i] == ts[1..][i - 1];
      NormalizeElementsSound(ts[1..], m);
      var r := NormalizeElements(ts, m).value;
      assert r[1..] == NormalizeElements(ts[1..], m).value;
      forall i | 0 <= i < |ts| ensures Uniform(r[i], m) {
        if i > 0 { assert r[i] == r[1..][i - 1]; }
      }
    }
  }

  lemma {:induction false} NormalizeWrappedSound(t: Tree, k: nat)
    requires NormalizeWrapped(t, k).Success?
    ensures Uniform(NormalizeWrapped(t, k).value, Depth(t) + k)
    ensures Leaves(NormalizeWrapped(t, k).value) == Leaves(t)
    decreases t, 2, k
  {
    if k == 0 {
      match t
      case Leaf(_) =>
      case Node(cs) =>
        NormalizeDepthSound(cs);
    } else {
      NormalizeWrappedSound(t, k - 1);
      var inner := NormalizeWrapped(t, k - 1).value;
      assert LeavesAll([inner]) == Leaves(inner);
    }
  }

  /** A list whose elements are all uniform at one depth is left as it is. */
  lemma {:induction false} NormalizeUniform(ts: seq<Tree>, d: nat)
    requires UniformList(ts, d)
    ensures NormalizeDepth(ts) == Success(ts)
    decreases ts, 1
  {
    UniformListDepth(ts, d);
    NormalizeUniformElements(ts, d);
  }

  lemma {:induction false} NormalizeUniformElements(ts: seq<Tree>, d: nat)
    requires forall i :: 0 <= i < |ts| ==> Uniform(ts[i], d)
    ensures NormalizeElements(ts, d) == Success(ts)
    decreases ts, 0
  {
    if ts != [] {
      UniformDepth(ts[0], d);
      NormalizeUniformTree(ts[0], d);
      assert forall i :: 1 <= i < |ts| ==> ts[1..][i - 1] == ts[i];
      NormalizeUniformElements(ts[1..], d);
      assert ts == [ts[0]] + ts[1..];
    }
  }

  lemma {:induction false} NormalizeUniformTree(t: Tree, d: nat)
    requires Uniform(t, d)
    ensures NormalizeWrapped(t, 0) == Success(t)
    decreases t, 2
  {
    if d > 0 {
      NormalizeUniform(t.children, d - 1);
    }
  }

  /** `normalize_depth` is idempotent: a normalised list normalises to itself. */
  lemma NormalizeDepthIdempotent(ts: seq<Tree>)
    requires NormalizeDepth(ts).Success?
    ensures NormalizeDepth(NormalizeDepth(ts).value) == NormalizeDepth(ts)
  {
    NormalizeDepthSound(ts);
    NormalizeUniform(NormalizeDepth(ts).value, MaxDepth(ts));
  }

  /** Normalisation fails exactly when some list, or the argument itself, is empty. */
  lemma {:induction false} NormalizeDepthSucceeds(ts: seq<Tree>)
    ensures NormalizeDepth(ts).Success? <==> |ts| > 0 && AllNoEmptyList(ts)
    decreases ts, 1, 0
  {
    if ts != [] {
      NormalizeElementsSucceeds(ts, MaxDepth(ts));
    }
  }

  lemma {:induction false} NormalizeElementsSucceeds(ts: seq<Tree>, m: nat)
    ensures NormalizeElements(ts, m).Success? <==> AllNoEmptyList(ts)
    decreases ts, 0, 0
  {
    if ts != [] {
      var k := if Depth(ts[0]) < m then m - Depth(ts[0]) else 0;
      NormalizeWrappedSucceeds(ts[0], k);
      NormalizeElementsSucceeds(ts[1..], m);
      assert forall i :: 1 <= i < |ts| ==> ts[i] == ts[1..][i - 1];
      if !NoEmptyList(ts[0]) {
        assert !AllNoEmptyList(ts);
      } else if !AllNoEmptyList(ts[1..]) {
        var i :| 0 <= i < |ts[1..]| && !NoEmptyList(ts[1..][i]);
        assert !NoEmptyList(ts[i + 1]);
      }
    }
  }

  lemma {:induction false} NormalizeWrappedSucceeds(t: Tree, k: nat)
    ensures NormalizeWrapped(t, k).Success? <==> NoEmptyList(t)
    decreases t, 2, k
  {
    if k == 0 {
      match t
      case Leaf(_) =>
      case Node(cs) =>
        NormalizeDepthSucceeds(cs);
    } else {
      NormalizeWrappedSucceeds(t, k - 1);
    }
  }

  /** No group anywhere is `0` beats or an empty layer, and there is at least one group. */
  predicate NonEmptyGroups(groups: seq<Group>)
  {
    |groups| > 0 && forall i :: 0 <= i < |groups| ==> NonEmptyGroup(groups[i])
  }

  predicate NonEmptyGroup(g: Group)
  {
    match g
    case Beats(n) => n > 0
    case Layer(gs) => NonEmptyGroups(gs)
  }

  lemma {:induction false} IncrementNoEmptyList(t: Tree, k: int)
    ensures NoEmptyList(Increment(t, k)) == NoEmptyList(t)
    decreases t, 1
  {
    match t
    case Leaf(_) =>
    case Node(cs) =>
      IncrementAllNoEmptyList(cs, k);
  }

  lemma {:induction false} IncrementAllNoEmptyList(ts: seq<Tree>, k: int)
    ensures AllNoEmptyList(IncrementAll(ts, k)) == AllNoEmptyList(ts)
    decreases ts, 0
  {
    if ts != [] {
      IncrementNoEmptyList(ts[0], k);
      IncrementAllNoEmptyList(ts[1..], k);
      var r := IncrementAll(ts, k);
      assert r[1..] == IncrementAll(ts[1..], k);
      AllNoEmptyListCons(ts);
      AllNoEmptyListCons(r);
    }
  }

  lemma AllNoEmptyListCons(ts: seq<Tree>)
    requires ts != []
    ensures AllNoEmptyList(ts) <==> NoEmptyList(ts[0]) && AllNoEmptyList(ts[1..])
  {
    assert forall i :: 1 <= i < |ts| ==> ts[i] == ts[1..][i - 1];
    if NoEmptyList(ts[0]) && AllNoEmptyList(ts[1..]) {
      forall i | 0 <= i < |ts| ensures NoEmptyList(ts[i]) {
        if i > 0 { assert ts[i] == ts[1..][i - 1]; }
      }
    }
  }

  lemma {:induction false} BeatGroupNoEmptyList(g: Group)
    ensures NoEmptyList(BeatGroup(g)) <==> NonEmptyGroup(g)
    decreases g, 0
  {
    match g
    case Beats(n) =>
    case Layer(gs) => NestedBeatGroupsNoEmptyList(gs);
  }

  lemma {:induction false} NestedFromNoEmptyList(groups: seq<Group>, k: nat, beat: int)
    requires k <= |groups|
    ensures AllNoEmptyList(NestedFrom(groups, k, beat))
        <==> forall i :: 0 <= i < k ==> NonEmptyGroup(groups[i])
    decreases groups, 1, k
  {
    if k > 0 {
      var g := groups[k - 1];
      var bg := Increment(BeatGroup(g), beat);
      BeatGroupNoEmptyList(g);
      IncrementNoEmptyList(BeatGroup(g), beat);
      NestedFromNoEmptyList(groups, k - 1, beat + |Leaves(bg)|);
      var r := NestedFrom(groups, k, beat);
      assert r[1..] == NestedFrom(groups, k - 1, beat + |Leaves(bg)|);
      AllNoEmptyListCons(r);
      assert (forall i :: 0 <= i < k ==> NonEmptyGroup(groups[i]))
         <==> NonEmptyGroup(g) && forall i :: 0 <= i < k - 1 ==> NonEmptyGroup(groups[i]);
    }
  }

  /**
   * The nested beat groups normalise successfully exactly when the layer has
   * groups and no group anywhere is empty.
   */
  lemma NestedBeatGroupsNoEmptyList(groups: seq<Group>)
    ensures |NestedBeatGroups(groups)| > 0 && AllNoEmptyList(NestedBeatGroups(groups)) <==> NonEmptyGroups(groups)
    decreases groups, 2, 0
  {
    NestedFromNoEmptyList(groups, |groups|, 0);
  }
}
