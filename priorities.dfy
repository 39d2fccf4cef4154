/**
 * From nested beat groups to the indispensability array of a metric layer:
 * `get_backward_beat_priorities` normalises the depth of the beat tree and
 * flattens it one level at a time until it is a flat ranking of the beats;
 * `get_indispensibility_array` turns that ranking into the (unnormalised)
 * indispensability of each beat.
 */
module BeatPriorities {
  import opened Wrappers
  import opened Builtins
  import opened MetricLayers
  import opened BeatTrees
  import Sequences
  import Flatten

  predicate AllNodes(ts: seq<Tree>)
  {
    forall i :: 0 <= i < |ts| ==> ts[i].Node?
  }

  /** The element lists of a list of lists. */
  function ChildLists(ts: seq<Tree>): (r: seq<seq<Tree>>)
    requires AllNodes(ts)
    ensures |r| == |ts|
  {
    if ts == [] then [] else [ts[0].children] + ChildLists(ts[1..])
  }

  /** Element i of the element lists is the element list of tree i. */
  lemma {:induction false} ChildListsAt(ts: seq<Tree>)
    requires AllNodes(ts)
    ensures forall i :: 0 <= i < |ts| ==> ChildLists(ts)[i] == ts[i].children
  {
    if ts != [] {
      var tail := ts[1..];
      ChildListsAt(tail);
      assert ChildLists(ts) == [ts[0].children] + ChildLists(tail);
      forall i | 1 <= i < |ts| ensures ChildLists(ts)[i] == ts[i].children {
        assert ChildLists(ts)[i] == ChildLists(tail)[i - 1];
        assert tail[i - 1] == ts[i];
      }
    }
  }

  /** `flatten_beat_groups` on trees: every element is a non-empty list. */
  function FlattenTrees(ts: seq<Tree>, upbeats: bool): seq<Tree>
    requires |ts| > 0 && AllNodes(ts) && forall i :: 0 <= i < |ts| ==> |ts[i].children| > 0
  {
    ChildListsAt(ts);
    Flatten.Flattened(ChildLists(ts), upbeats)
  }

  /** The concatenated element lists hold the same leaves, in the same order. */
  lemma {:induction false} ConcatLeaves(ts: seq<Tree>)
    requires AllNodes(ts)
    ensures LeavesAll(Flatten.Concat(ChildLists(ts))) == LeavesAll(ts)
  {
    if ts != [] {
      assert ChildLists(ts)[1..] == ChildLists(ts[1..]);
      ConcatLeaves(ts[1..]);
      LeavesAllAppend(ts[0].children, Flatten.Concat(ChildLists(ts[1..])));
    }
  }

  lemma {:induction false} ConcatUniform(ts: seq<Tree>, d: nat)
    requires d > 0 && forall i :: 0 <= i < |ts| ==> Uniform(ts[i], d)
    ensures AllNodes(ts)
    ensures forall y :: y in Flatten.Concat(ChildLists(ts)) ==> Uniform(y, d - 1)
  {
    if ts != [] {
      assert ChildLists(ts)[1..] == ChildLists(ts[1..]);
      ConcatUniform(ts[1..], d);
      assert Uniform(ts[0], d);
    }
  }

  /** The leaves of a list with element i taken out, and those of element i, make up its leaves. */
  lemma LeavesAllSplice(b: seq<Tree>, i: nat)
    requires i < |b|
    ensures multiset(LeavesAll(b)) == multiset(LeavesAll(b[..i] + b[i + 1..])) + multiset(Leaves(b[i]))
  {
    var pre, post := b[..i], b[i + 1..];
    var single := [b[i]];
    var mid := single + post;
    assert b == pre + mid;
    LeavesAllAppend(pre, mid);
    LeavesAllAppend(single, post);
    assert single[1..] == [];
    assert LeavesAll(single) == Leaves(b[i]);
    LeavesAllAppend(pre, post);
    var lp, lb, lq := LeavesAll(pre), Leaves(b[i]), LeavesAll(post);
    assert LeavesAll(b) == lp + (lb + lq);
    assert LeavesAll(pre + post) == lp + lq;
    calc {
      multiset(LeavesAll(b));
      multiset(lp + (lb + lq));
      multiset(lp) + (multiset(lb) + multiset(lq));
      multiset(lp + lq) + multiset(lb);
    }
  }

  lemma MultisetSplice<T>(b: seq<T>, i: nat)
    requires i < |b|
    ensures multiset(b) == multiset(b[..i] + b[i + 1..]) + multiset{b[i]}
  {
    assert b == b[..i] + [b[i]] + b[i + 1..];
  }

  /** Lists holding the same trees, in any order, hold the same leaves, in some order. */
  lemma {:induction false} PermutedLeaves(a: seq<Tree>, b: seq<Tree>)
    requires multiset(a) == multiset(b)
    ensures multiset(LeavesAll(a)) == multiset(LeavesAll(b))
    decreases |a|
  {
    if a == [] {
      assert |b| == |multiset(b)| == 0;
    } else {
      assert a[0] in multiset(b);
      var i :| 0 <= i < |b| && b[i] == a[0];
      MultisetSplice(b, i);
      MultisetSplice(a, 0);
      assert a[..0] + a[1..] == a[1..];
      Flatten.MultisetCancel(multiset(a[1..]), multiset(b[..i] + b[i + 1..]), multiset{a[0]});
      PermutedLeaves(a[1..], b[..i] + b[i + 1..]);
      LeavesAllSplice(b, i);
      LeavesAllSplice(a, 0);
    }
  }

  lemma {:induction false} UniformLeaves(t: Tree, d: nat)
    requires Uniform(t, d)
    ensures |Leaves(t)| > 0
    decreases d
  {
    if d > 0 {
      UniformLeaves(t.children[0], d - 1);
      LeavesAllAppend([t.children[0]], t.children[1..]);
      assert t.children == [t.children[0]] + t.children[1..];
      assert LeavesAll([t.children[0]]) == Leaves(t.children[0]);
    }
  }

  /** A non-empty uniform list has leaves, the first of them in its first element. */
  lemma UniformListLeaves(ts: seq<Tree>, d: nat)
    requires UniformList(ts, d)
    ensures |Leaves(ts[0])| > 0 && |LeavesAll(ts)| > 0 && LeavesAll(ts)[0] == Leaves(ts[0])[0]
    ensures d == 0 ==> forall i :: 0 <= i < |ts| ==> ts[i].Leaf?
  {
    UniformLeaves(ts[0], d);
    assert ts == [ts[0]] + ts[1..];
    LeavesAllAppend([ts[0]], ts[1..]);
    assert LeavesAll([ts[0]]) == Leaves(ts[0]);
  }

  lemma MultisetMember<T>(r: seq<T>, c: seq<T>, i: nat)
    requires multiset(r) == multiset(c) && i < |r|
    ensures r[i] in c
  {
    assert r[i] in multiset(r);
  }

  /** Flattening a uniform list of depth d gives a non-empty list of depth d-1... */
  lemma FlattenTreesUniform(ts: seq<Tree>, d: nat, upbeats: bool)
    requires d > 0 && UniformList(ts, d)
    ensures AllNodes(ts) && forall i :: 0 <= i < |ts| ==> |ts[i].children| > 0
    ensures UniformList(FlattenTrees(ts, upbeats), d - 1)
  {
    ConcatUniform(ts, d);
    var gs := ChildLists(ts);
    ChildListsAt(ts);
    Flatten.FlattenedIsPermutation(gs, upbeats);
    var r := FlattenTrees(ts, upbeats);
    forall i | 0 <= i < |r| ensures Uniform(r[i], d - 1) {
      MultisetMember(r, Flatten.Concat(gs), i);
    }
  }

  /** ...with the same leaves. */
  lemma FlattenTreesLeaves(ts: seq<Tree>, upbeats: bool)
    requires |ts| > 0 && AllNodes(ts) && forall i :: 0 <= i < |ts| ==> |ts[i].children| > 0
    ensures multiset(LeavesAll(FlattenTrees(ts, upbeats))) == multiset(LeavesAll(ts))
  {
    var gs := ChildLists(ts);
    ChildListsAt(ts);
    Flatten.FlattenedIsPermutation(gs, upbeats);
    PermutedLeaves(FlattenTrees(ts, upbeats), Flatten.Concat(gs));
    ConcatLeaves(ts);
  }

  lemma FlattenTreesHead(ts: seq<Tree>, upbeats: bool)
    requires |ts| > 0 && AllNodes(ts) && forall i :: 0 <= i < |ts| ==> |ts[i].children| > 0
    ensures |FlattenTrees(ts, upbeats)| > 0 && FlattenTrees(ts, upbeats)[0] == ts[0].children[0]
  {
    ChildListsAt(ts);
    Flatten.FlattenedIsPermutation(ChildLists(ts), upbeats);
  }

  /** Flattening keeps the first leaf first: the head of the first sub-group leads. */
  lemma FlattenTreesFirst(ts: seq<Tree>, d: nat, upbeats: bool)
    requires d > 0 && UniformList(ts, d)
    ensures AllNodes(ts) && forall i :: 0 <= i < |ts| ==> |ts[i].children| > 0
    ensures |LeavesAll(FlattenTrees(ts, upbeats))| > 0 && |LeavesAll(ts)| > 0
    ensures LeavesAll(FlattenTrees(ts, upbeats))[0] == LeavesAll(ts)[0]
  {
    FlattenTreesUniform(ts, d, upbeats);
    FlattenTreesHead(ts, upbeats);
    FirstLeafOfFirstChild(FlattenTrees(ts, upbeats), ts, d);
  }

  lemma FirstLeafOfFirstChild(r: seq<Tree>, ts: seq<Tree>, d: nat)
    requires d > 0 && UniformList(ts, d)
    requires UniformList(r, d - 1)
    requires ts[0].Node? && |ts[0].children| > 0 && r[0] == ts[0].children[0]
    ensures |LeavesAll(r)| > 0 && |LeavesAll(ts)| > 0 && LeavesAll(r)[0] == LeavesAll(ts)[0]
  {
    UniformListLeaves(r, d - 1);
    UniformListLeaves(ts, d);
    assert Uniform(ts[0], d);
    UniformListLeaves(ts[0].children, d - 1);
  }

  /** What `flatten_beat_groups` needs: a non-empty list of non-empty lists. */
  predicate Flattenable(ts: seq<Tree>)
  {
    |ts| > 0 && AllNodes(ts) && forall i :: 0 <= i < |ts| ==> |ts[i].children| > 0
  }

  /** One round of `flatten_beat_groups`, where its argument is fit for it. */
  function FlattenStep(ts: seq<Tree>, upbeats: bool): seq<Tree>
  {
    if Flattenable(ts) then FlattenTrees(ts, upbeats) else ts
  }

  /** The list after k rounds of the loop `while depth(nested) > 1: flatten`. */
  function FlattenToLeaves(ts: seq<Tree>, k: nat, upbeats: bool): seq<Tree>
    decreases k
  {
    if k == 0 then ts else FlattenStep(FlattenToLeaves(ts, k - 1, upbeats), upbeats)
  }

  /**
   * After k rounds a uniform list of depth d is uniform of depth d - k, holds
   * the same leaves in some order, and keeps the first leaf first.
   */
  ghost predicate RoundsSound(ts: seq<Tree>, d: nat, k: nat, upbeats: bool)
    requires k <= d
  {
    var flat := LeavesAll(FlattenToLeaves(ts, k, upbeats));
    && UniformList(FlattenToLeaves(ts, k, upbeats), d - k)
    && multiset(flat) == multiset(LeavesAll(ts))
    && |flat| > 0 && |LeavesAll(ts)| > 0
    && flat[0] == LeavesAll(ts)[0]
  }

  /** Each round takes one level off a uniform list, reorders its leaves and keeps the first leaf first. */
  lemma {:induction false} FlattenRounds(ts: seq<Tree>, d: nat, k: nat, upbeats: bool)
    requires UniformList(ts, d) && k <= d
    ensures RoundsSound(ts, d, k, upbeats)
    decreases k
  {
    if k == 0 {
      assert FlattenToLeaves(ts, k, upbeats) == ts;
      UniformListLeaves(ts, d);
    } else {
      FlattenRounds(ts, d, k - 1, upbeats);
      NextRound(ts, d, k, upbeats);
    }
  }

  /** Round k keeps what round k - 1 established. */
  lemma NextRound(ts: seq<Tree>, d: nat, k: nat, upbeats: bool)
    requires UniformList(ts, d) && 0 < k <= d
    requires RoundsSound(ts, d, k - 1, upbeats)
    ensures RoundsSound(ts, d, k, upbeats)
  {
    var k' := k - 1;
    var e := d - k';
    var p := FlattenToLeaves(ts, k', upbeats);
    RoundStep(p, e, upbeats);
    FlattenToLeavesNext(ts, k', upbeats);
    assert k' + 1 == k && e - 1 == d - k;
  }

  lemma FlattenToLeavesNext(ts: seq<Tree>, k: nat, upbeats: bool)
    ensures FlattenToLeaves(ts, k + 1, upbeats) == FlattenStep(FlattenToLeaves(ts, k, upbeats), upbeats)
  {
  }

  /** One round on a uniform list of depth e > 0: one level less, the same leaves, the same first leaf. */
  lemma RoundStep(p: seq<Tree>, e: nat, upbeats: bool)
    requires e > 0 && UniformList(p, e)
    ensures UniformList(FlattenStep(p, upbeats), e - 1)
    ensures multiset(LeavesAll(FlattenStep(p, upbeats))) == multiset(LeavesAll(p))
    ensures |LeavesAll(FlattenStep(p, upbeats))| > 0 && |LeavesAll(p)| > 0
    ensures LeavesAll(FlattenStep(p, upbeats))[0] == LeavesAll(p)[0]
  {
    FlattenTreesUniform(p, e, upbeats);
    assert Flattenable(p);
    var q := FlattenTrees(p, upbeats);
    assert FlattenStep(p, upbeats) == q;
    FlattenTreesLeaves(p, upbeats);
    FlattenTreesFirst(p, e, upbeats);
  }

  /**
   * Flattening a uniform list of depth d d times leaves a list of leaves that
   * reorders the original leaves and keeps the first one first.
   */
  lemma FlattenToLeavesSound(ts: seq<Tree>, d: nat, upbeats: bool)
    requires UniformList(ts, d)
    ensures |FlattenToLeaves(ts, d, upbeats)| > 0
    ensures forall i :: 0 <= i < |FlattenToLeaves(ts, d, upbeats)| ==> FlattenToLeaves(ts, d, upbeats)[i].Leaf?
    ensures multiset(LeavesAll(FlattenToLeaves(ts, d, upbeats))) == multiset(LeavesAll(ts))
    ensures |LeavesAll(FlattenToLeaves(ts, d, upbeats))| > 0 && |LeavesAll(ts)| > 0
    ensures LeavesAll(FlattenToLeaves(ts, d, upbeats))[0] == LeavesAll(ts)[0]
  {
    FlattenRounds(ts, d, d, upbeats);
    UniformListLeaves(FlattenToLeaves(ts, d, upbeats), 0);
  }

  /** A non-empty uniform list of depth d is, as a list, d+1 deep. */
  lemma UniformNodeDepth(ts: seq<Tree>, d: nat)
    requires UniformList(ts, d)
    ensures Depth(Node(ts)) == 1 + d
  {
    UniformListDepth(ts, d);
  }

  /** Each round of flattening takes exactly one level off a uniform list. */
  lemma FlattenTreesDepth(ts: seq<Tree>, d: nat, upbeats: bool)
    requires d > 0 && UniformList(ts, d)
    ensures Flattenable(ts)
    ensures Depth(Node(FlattenTrees(ts, upbeats))) == Depth(Node(ts)) - 1
  {
    FlattenTreesUniform(ts, d, upbeats);
    UniformNodeDepth(ts, d);
    UniformNodeDepth(FlattenTrees(ts, upbeats), d - 1);
  }

  /**
   * `get_backward_beat_priorities`: the beats ranked from most to least
   * important. Fails where `normalize_depth` fails.
   */
  function BackwardBeatPriorities(groups: seq<Group>, upbeats: bool): Result<seq<int>, DepthError>
  {
    var nested := NestedBeatGroups(groups);
    var normalized :- NormalizeDepth(nested);
    Success(LeavesAll(FlattenToLeaves(normalized, MaxDepth(nested), upbeats)))
  }

  /**
   * Round `rounds + 1` of the source's loop on a uniform list of depth `d0`:
   * `flatten_beat_groups` applied once more.
   */
  method FlattenRound(flat: seq<Tree>, ghost start: seq<Tree>, ghost d0: nat, ghost rounds: nat, upbeats: bool)
    returns (next: seq<Tree>)
    requires UniformList(start, d0) && rounds < d0 && flat == FlattenToLeaves(start, rounds, upbeats)
    ensures next == FlattenToLeaves(start, rounds + 1, upbeats)
  {
    assert UniformList(flat, d0 - rounds) by {
      FlattenRounds(start, d0, rounds, upbeats);
    }
    assert Flattenable(flat) by {
      FlattenTreesUniform(flat, d0 - rounds, upbeats);
    }
    next := FlattenTrees(flat, upbeats);
    assert next == FlattenToLeaves(start, rounds + 1, upbeats) by {
      FlattenToLeavesNext(start, rounds, upbeats);
    }
  }

  /** `depth(nested)` after `rounds` rounds of the loop on a uniform list of depth `d0`. */
  method NestingLevel(flat: seq<Tree>, ghost start: seq<Tree>, ghost d0: nat, ghost rounds: nat, upbeats: bool)
    returns (level: nat)
    requires UniformList(start, d0) && rounds <= d0 && flat == FlattenToLeaves(start, rounds, upbeats)
    ensures level == 1 + d0 - rounds
  {
    FlattenRounds(start, d0, rounds, upbeats);
    UniformNodeDepth(flat, d0 - rounds);
    level := Depth(Node(flat));
  }

  /** The source's loop: flatten while the nested list is deeper than 1. */
  method FlattenWhileNested(start: seq<Tree>, d0: nat, upbeats: bool) returns (flat: seq<Tree>)
    requires UniformList(start, d0)
    ensures flat == FlattenToLeaves(start, d0, upbeats)
  {
    flat := start;
    ghost var rounds: nat := 0;
    var level := NestingLevel(flat, start, d0, rounds, upbeats);
    while level > 1
      invariant rounds <= d0 && level == 1 + d0 - rounds
      invariant flat == FlattenToLeaves(start, rounds, upbeats)
      decreases d0 - rounds
    {
      flat := FlattenRound(flat, start, d0, rounds, upbeats);
      rounds := rounds + 1;
      level := NestingLevel(flat, start, d0, rounds, upbeats);
    }
  }

  /** Normalise the nested beat groups, then flatten them down to a ranking of the beats. */
  method GetBackwardBeatPriorities(groups: seq<Group>, upbeats: bool) returns (r: Result<seq<int>, DepthError>)
    ensures r == BackwardBeatPriorities(groups, upbeats)
  {
    var original := NestedBeatGroups(groups);
    var normalized := NormalizeDepth(original);
    if normalized.Failure? {
      return Failure(normalized.error);
    }
    NormalizeDepthSound(original);
    var flat := FlattenWhileNested(normalized.value, MaxDepth(original), upbeats);
    return Success(LeavesAll(flat));
  }

  /**
   * Normalisation fails exactly when the layer has no groups, or a group
   * anywhere is 0 beats or an empty layer.
   */
  lemma BackwardBeatPrioritiesSucceeds(groups: seq<Group>, upbeats: bool)
    ensures BackwardBeatPriorities(groups, upbeats).Success? <==> NonEmptyGroups(groups)
  {
    NormalizeDepthSucceeds(NestedBeatGroups(groups));
    NestedBeatGroupsNoEmptyList(groups);
  }

  /** The ranking is a permutation of the N beats, and beat 0 ranks first. */
  lemma BackwardBeatPrioritiesPermutation(groups: seq<Group>, upbeats: bool)
    requires BackwardBeatPriorities(groups, upbeats).Success?
    ensures multiset(BackwardBeatPriorities(groups, upbeats).value) == multiset(Range(0, CountAll(groups)))
    ensures IsPermutationOfRange(BackwardBeatPriorities(groups, upbeats).value, CountAll(groups))
    ensures |BackwardBeatPriorities(groups, upbeats).value| > 0 && BackwardBeatPriorities(groups, upbeats).value[0] == 0
  {
    var nested := NestedBeatGroups(groups);
    NormalizeDepthSound(nested);
    var normalized := NormalizeDepth(nested).value;
    var f := FlattenToLeaves(normalized, MaxDepth(nested), upbeats);
    assert BackwardBeatPriorities(groups, upbeats) == Success(LeavesAll(f));
    var p := LeavesAll(f);
    FlattenToLeavesSound(normalized, MaxDepth(nested), upbeats);
    NestedBeatGroupsLeaves(groups);
    assert multiset(p) == multiset(LeavesAll(nested));
    RangeIsPermutation(CountAll(groups));
    PermutationTransfer(Range(0, CountAll(groups)), p, CountAll(groups));
    assert LeavesAll(nested)[0] == 0;
  }

  /** Every rank i of `bbp` names a beat: `bbp.index(i)` is defined. */
  predicate Ranks(bbp: seq<int>)
  {
    forall i :: 0 <= i < |bbp| ==> i in bbp
  }

  /** `[length - 1 - bbp.index(i) for i in range(length)]`. */
  function BackwardArray(bbp: seq<int>): (r: seq<int>)
    requires Ranks(bbp)
    ensures |r| == |bbp|
    ensures forall i :: 0 <= i < |bbp| ==> r[i] == |bbp| - 1 - IndexOf(bbp, i)
  {
    seq(|bbp|, i requires 0 <= i < |bbp| => |bbp| - 1 - IndexOf(bbp, i))
  }

  /** `get_indispensibility_array(normalize=False)` from the backward priorities. */
  function IndispensabilityArray(bbp: seq<int>): seq<int>
    requires Ranks(bbp)
  {
    Reverse(Sequences.RotateSequence(BackwardArray(bbp), 1))
  }

  /**
   * The indispensability of beat j is N-1 minus the rank of beat (N-j) mod N in
   * the backward priorities: the rotation and reversal turn a backward
   * ranking into a forward one, keeping the downbeat at the front.
   */
  lemma IndispensabilityArrayAt(bbp: seq<int>, j: nat)
    requires Ranks(bbp) && j < |bbp|
    ensures |IndispensabilityArray(bbp)| == |bbp|
    ensures IndispensabilityArray(bbp)[j] == |bbp| - 1 - IndexOf(bbp, (|bbp| - j) % |bbp|)
  {
    var n := |bbp|;
    var b := BackwardArray(bbp);
    Sequences.RotateAt(b, 1, n - 1 - j);
    assert (n - 1 - j + 1) % n == (n - j) % n;
  }

  /** A permutation ranking gives a permutation array whose downbeat is the most indispensable. */
  lemma IndispensabilityArrayPermutation(bbp: seq<int>, n: nat)
    requires multiset(bbp) == multiset(Range(0, n))
    ensures IsPermutationOfRange(bbp, n) && Ranks(bbp)
    ensures IsPermutationOfRange(IndispensabilityArray(bbp), n)
    ensures n > 0 && bbp[0] == 0 ==> IndispensabilityArray(bbp)[0] == n - 1
  {
    RangeIsPermutation(n);
    PermutationTransfer(Range(0, n), bbp, n);
    forall i | 0 <= i < n ensures i in bbp {
      assert Range(0, n)[i] == i;
      assert i in multiset(Range(0, n));
    }
    var b := BackwardArray(bbp);
    assert Distinct(b) by {
      forall i, j | 0 <= i < j < n ensures b[i] != b[j] {
        assert bbp[IndexOf(bbp, i)] == i && bbp[IndexOf(bbp, j)] == j;
      }
    }
    Sequences.RotateIsPermutation(b, 1);
    ReverseMultiset(Sequences.RotateSequence(b, 1));
    PermutationTransfer(b, IndispensabilityArray(bbp), n);
    if n > 0 && bbp[0] == 0 {
      IndispensabilityArrayAt(bbp, 0);
      assert IndexOf(bbp, 0) == 0;
    }
  }

  /** `get_indispensibility_array(upbeats, normalize=False)` of a metric layer. */
  function LayerIndispensabilityArray(groups: seq<Group>, upbeats: bool): Result<seq<int>, DepthError>
  {
    var bbp :- BackwardBeatPriorities(groups, upbeats);
    BackwardBeatPrioritiesPermutation(groups, upbeats);
    IndispensabilityArrayPermutation(bbp, CountAll(groups));
    Success(IndispensabilityArray(bbp))
  }

  /**
   * For a layer of N beats the array is a permutation of 0..N-1 whose first
   * entry (the downbeat) is N-1; it exists exactly when no group is empty.
   */
  lemma LayerIndispensabilityArrayPermutation(groups: seq<Group>, upbeats: bool)
    ensures LayerIndispensabilityArray(groups, upbeats).Success? <==> NonEmptyGroups(groups)
    ensures LayerIndispensabilityArray(groups, upbeats).Success? ==>
      IsPermutationOfRange(LayerIndispensabilityArray(groups, upbeats).value, CountAll(groups)) &&
      CountAll(groups) > 0 && LayerIndispensabilityArray(groups, upbeats).value[0] == CountAll(groups) - 1
  {
    BackwardBeatPrioritiesSucceeds(groups, upbeats);
    if BackwardBeatPriorities(groups, upbeats).Success? {
      var bbp := BackwardBeatPriorities(groups, upbeats).value;
      BackwardBeatPrioritiesPermutation(groups, upbeats);
      IndispensabilityArrayPermutation(bbp, CountAll(groups));
    }
  }

  /** The beats of "2+3", numbered from the last group backward: [[0, 1, 2], [3, 4]]. */
  lemma TwoPlusThreeBeatGroups()
    ensures NestedBeatGroups([Beats(2), Beats(3)]) == [Node([Leaf(0), Leaf(1), Leaf(2)]), Node([Leaf(3), Leaf(4)])]
  {
    var groups := [Beats(2), Beats(3)];
    assert Range(0, 3) == [0, 1, 2] && Range(0, 2) == [0, 1];
    var b3 := Node([Leaf(0), Leaf(1), Leaf(2)]);
    assert BeatGroup(Beats(3)) == b3;
    assert BeatGroup(Beats(2)) == Node([Leaf(0), Leaf(1)]);
    assert IncrementAll(b3.children, 0) == b3.children by {
      assert b3.children[1..] == [Leaf(1), Leaf(2)] && b3.children[1..][1..] == [Leaf(2)];
      assert IncrementAll([Leaf(2)], 0) == [Leaf(2)];
      assert IncrementAll([Leaf(1), Leaf(2)], 0) == [Leaf(1), Leaf(2)];
    }
    assert Increment(b3, 0) == b3;
    assert Leaves(b3) == [0, 1, 2] by {
      LeafListLeaves([0, 1, 2]);
    }
    assert IncrementAll([Leaf(0), Leaf(1)], 3) == [Leaf(3), Leaf(4)] by {
      assert [Leaf(0), Leaf(1)][1..] == [Leaf(1)];
      assert IncrementAll([Leaf(1)], 3) == [Leaf(4)];
    }
    assert NestedFrom(groups, 1, 3) == [Node([Leaf(3), Leaf(4)])];
    assert NestedFrom(groups, 2, 0) == [b3] + NestedFrom(groups, 1, 3);
  }

  /** The groups of "2+3" are already uniform, so one round of flattening ranks them. */
  lemma TwoPlusThreeOneRound(upbeats: bool)
    ensures BackwardBeatPriorities([Beats(2), Beats(3)], upbeats) ==
      Success(LeavesAll(FlattenToLeaves([Node([Leaf(0), Leaf(1), Leaf(2)]), Node([Leaf(3), Leaf(4)])], 1, upbeats)))
  {
    var ts := [Node([Leaf(0), Leaf(1), Leaf(2)]), Node([Leaf(3), Leaf(4)])];
    TwoPlusThreeBeatGroups();
    assert Uniform(ts[0], 1) && Uniform(ts[1], 1);
    NormalizeUniform(ts, 1);
    UniformListDepth(ts, 1);
  }

  /** One round on the groups of "2+3" ranks the group starts first, then the rest. */
  lemma TwoPlusThreeFlattened(upbeats: bool)
    ensures LeavesAll(FlattenToLeaves([Node([Leaf(0), Leaf(1), Leaf(2)]), Node([Leaf(3), Leaf(4)])], 1, upbeats)) ==
      if upbeats then [0, 3, 1, 4, 2] else [0, 3, 1, 2, 4]
  {
    var flat := FlattenToLeaves([Node([Leaf(0), Leaf(1), Leaf(2)]), Node([Leaf(3), Leaf(4)])], 1, upbeats);
    var p: seq<int> := if upbeats then [0, 3, 1, 4, 2] else [0, 3, 1, 2, 4];
    assert flat == LeafList(p) by {
      FlattenTwoGroups(Leaf(0), Leaf(1), Leaf(2), Leaf(3), Leaf(4), upbeats);
      var leaves := LeafList(p);
      assert |leaves| == 5 && leaves[0] == Leaf(p[0]) && leaves[1] == Leaf(p[1]) && leaves[2] == Leaf(p[2])
        && leaves[3] == Leaf(p[3]) && leaves[4] == Leaf(p[4]);
    }
    LeafListLeaves(p);
  }

  /** Flattening "2+3" once gives its backward priorities. */
  lemma TwoPlusThreePriorities(upbeats: bool)
    ensures BackwardBeatPriorities([Beats(2), Beats(3)], upbeats) ==
      Success(if upbeats then [0, 3, 1, 4, 2] else [0, 3, 1, 2, 4])
  {
    TwoPlusThreeOneRound(upbeats);
    TwoPlusThreeFlattened(upbeats);
  }

  /** One round of flattening on a group of 3 followed by a group of 2. */
  lemma FlattenTwoGroups(a: Tree, b: Tree, c: Tree, d: Tree, e: Tree, upbeats: bool)
    ensures FlattenToLeaves([Node([a, b, c]), Node([d, e])], 1, upbeats) ==
      if upbeats then [a, d, b, e, c] else [a, d, b, c, e]
  {
    var ts := [Node([a, b, c]), Node([d, e])];
    assert ChildLists(ts) == [[a, b, c], [d, e]];
    assert FlattenToLeaves(ts, 1, upbeats) == FlattenTrees(ts, upbeats);
    Flatten.FlattenExampleUpbeats(a, b, c, d, e);
    Flatten.FlattenExampleNoUpbeats(a, b, c, d, e);
  }

  /** The array of a five-beat ranking from its backward array. */
  lemma FiveBeatArray(bbp: seq<int>, b0: int, b1: int, b2: int, b3: int, b4: int)
    requires |bbp| == 5 && Ranks(bbp) && BackwardArray(bbp) == [b0, b1, b2, b3, b4]
    ensures IndispensabilityArray(bbp) == [b0, b4, b3, b2, b1]
  {
    var b := BackwardArray(bbp);
    assert Sequences.RotateSequence(b, 1) == [b1, b2, b3, b4, b0];
  }

  /** The array of the "2+3" ranking with upbeats first. */
  lemma TwoPlusThreeArrayUpbeats()
    ensures IndispensabilityArray([0, 3, 1, 4, 2]) == [4, 1, 3, 0, 2]
  {
    var p := [0, 3, 1, 4, 2];
    assert p[0] == 0 && p[2] == 1 && p[4] == 2 && p[1] == 3 && p[3] == 4;
    assert BackwardArray(p) == [4, 2, 0, 3, 1];
    FiveBeatArray(p, 4, 2, 0, 3, 1);
  }

  /** The array of the "2+3" ranking in Barlow's order. */
  lemma TwoPlusThreeArrayBarlow()
    ensures IndispensabilityArray([0, 3, 1, 2, 4]) == [4, 0, 3, 1, 2]
  {
    var p := [0, 3, 1, 2, 4];
    assert p[0] == 0 && p[2] == 1 && p[3] == 2 && p[1] == 3 && p[4] == 4;
    assert BackwardArray(p) == [4, 2, 1, 3, 0];
    FiveBeatArray(p, 4, 2, 1, 3, 0);
  }

  /**
   * "2+3" gives [4, 1, 3, 0, 2]: the pickup to the group of 3 comes before
   * the rest; Barlow's order, without upbeats first, gives [4, 0, 3, 1, 2].
   */
  lemma TwoPlusThreeExample()
    ensures LayerIndispensabilityArray([Beats(2), Beats(3)], true) == Success([4, 1, 3, 0, 2])
    ensures LayerIndispensabilityArray([Beats(2), Beats(3)], false) == Success([4, 0, 3, 1, 2])
  {
    TwoPlusThreePriorities(true);
    TwoPlusThreePriorities(false);
    TwoPlusThreeArrayUpbeats();
    TwoPlusThreeArrayBarlow();
  }

  /** The beats of "2+2": [[0, 1], [2, 3]]. */
  lemma TwoPlusTwoBeatGroups()
    ensures NestedBeatGroups([Beats(2), Beats(2)]) == [Node([Leaf(0), Leaf(1)]), Node([Leaf(2), Leaf(3)])]
  {
    var groups := [Beats(2), Beats(2)];
    assert Range(0, 2) == [0, 1];
    var b2 := Node([Leaf(0), Leaf(1)]);
    assert BeatGroup(Beats(2)) == b2;
    assert IncrementAll(b2.children, 0) == b2.children by {
      assert b2.children[1..] == [Leaf(1)];
      assert IncrementAll([Leaf(1)], 0) == [Leaf(1)];
    }
    assert Increment(b2, 0) == b2;
    assert Leaves(b2) == [0, 1] by {
      LeafListLeaves([0, 1]);
    }
    assert IncrementAll([Leaf(0), Leaf(1)], 2) == [Leaf(2), Leaf(3)] by {
      assert [Leaf(0), Leaf(1)][1..] == [Leaf(1)];
      assert IncrementAll([Leaf(1)], 2) == [Leaf(3)];
    }
    assert NestedFrom(groups, 1, 2) == [Node([Leaf(2), Leaf(3)])];
    assert NestedFrom(groups, 2, 0) == [b2] + NestedFrom(groups, 1, 2);
  }

  /** The groups of "2+2" are uniform, so one round of flattening ranks them. */
  lemma TwoPlusTwoOneRound()
    ensures BackwardBeatPriorities([Beats(2), Beats(2)], false) ==
      Success(LeavesAll(FlattenToLeaves([Node([Leaf(0), Leaf(1)]), Node([Leaf(2), Leaf(3)])], 1, false)))
  {
    var ts := [Node([Leaf(0), Leaf(1)]), Node([Leaf(2), Leaf(3)])];
    TwoPlusTwoBeatGroups();
    assert Uniform(ts[0], 1) && Uniform(ts[1], 1);
    NormalizeUniform(ts, 1);
    UniformListDepth(ts, 1);
  }

  lemma TwoPlusTwoFlattened()
    ensures LeavesAll(FlattenToLeaves([Node([Leaf(0), Leaf(1)]), Node([Leaf(2), Leaf(3)])], 1, false)) == [0, 2, 1, 3]
  {
    FlattenTwoPairs(Leaf(0), Leaf(1), Leaf(2), Leaf(3));
    assert [Leaf(0), Leaf(2), Leaf(1), Leaf(3)] == LeafList([0, 2, 1, 3]);
    LeafListLeaves([0, 2, 1, 3]);
  }

  /** One round of flattening, without upbeats first, on two groups of 2. */
  lemma FlattenTwoPairs(a: Tree, b: Tree, c: Tree, d: Tree)
    ensures FlattenToLeaves([Node([a, b]), Node([c, d])], 1, false) == [a, c, b, d]
  {
    var ts := [Node([a, b]), Node([c, d])];
    assert ChildLists(ts) == [[a, b], [c, d]];
    assert FlattenToLeaves(ts, 1, false) == FlattenTrees(ts, false);
    Flatten.FlattenExampleTwoPairs(a, b, c, d);
  }

  /** The array of a four-beat ranking from its backward array. */
  lemma FourBeatArray(bbp: seq<int>, b0: int, b1: int, b2: int, b3: int)
    requires |bbp| == 4 && Ranks(bbp) && BackwardArray(bbp) == [b0, b1, b2, b3]
    ensures IndispensabilityArray(bbp) == [b0, b3, b2, b1]
  {
    var b := BackwardArray(bbp);
    assert Sequences.RotateSequence(b, 1) == [b1, b2, b3, b0];
  }

  lemma TwoPlusTwoArray()
    ensures IndispensabilityArray([0, 2, 1, 3]) == [3, 0, 2, 1]
  {
    var p := [0, 2, 1, 3];
    assert p[0] == 0 && p[2] == 1 && p[1] == 2 && p[3] == 3;
    assert BackwardArray(p) == [3, 1, 2, 0];
    FourBeatArray(p, 3, 1, 2, 0);
  }

  /**
   * "2+2" in Barlow's order ranks both downbeats, then the two off-beats,
   * giving the array [3, 0, 2, 1].
   */
  lemma TwoPlusTwoExample()
    ensures BackwardBeatPriorities([Beats(2), Beats(2)], false) == Success([0, 2, 1, 3])
    ensures LayerIndispensabilityArray([Beats(2), Beats(2)], false) == Success([3, 0, 2, 1])
  {
    TwoPlusTwoOneRound();
    TwoPlusTwoFlattened();
    TwoPlusTwoArray();
  }
}
