/**
 * `flatten_beat_groups`: unravels one level of nested beat groups into a
 * single list, taking first the head of every sub-group, then (optionally)
 * the upbeat of every sub-group, then one element at a time from the first
 * longest remaining sub-group. The source works on a deep copy, so the
 * argument is a value here and the result is returned.
 */
module Flatten {
  import opened Builtins

  function Concat<T>(gs: seq<seq<T>>): seq<T>
  {
    if gs == [] then [] else gs[0] + Concat(gs[1..])
  }

  function TotalLength<T>(gs: seq<seq<T>>): nat
  {
    if gs == [] then 0 else |gs[0]| + TotalLength(gs[1..])
  }

  /** `max(len(g) for g in gs)`, 0 for no groups. */
  function MaxLength<T>(gs: seq<seq<T>>): nat
  {
    if gs == [] then 0
    else
      var rest := MaxLength(gs[1..]);
      if |gs[0]| >= rest then |gs[0]| else rest
  }

  /** The maximum bounds every length and is the length of some sub-group. */
  lemma {:induction false} MaxLengthBounds<T>(gs: seq<seq<T>>)
    ensures forall i :: 0 <= i < |gs| ==> |gs[i]| <= MaxLength(gs)
    ensures |gs| > 0 ==> exists i :: 0 <= i < |gs| && |gs[i]| == MaxLength(gs)
  {
    if gs != [] {
      var tail := gs[1..];
      MaxLengthBounds(tail);
      forall i | 1 <= i < |gs| ensures |gs[i]| <= MaxLength(gs) {
        assert gs[i] == tail[i - 1];
      }
      if |gs[0]| < MaxLength(tail) {
        var i :| 0 <= i < |tail| && |tail[i]| == MaxLength(tail);
        assert gs[i + 1] == tail[i];
      }
    }
  }

  /** The first sub-group whose length is `m`, or the number of sub-groups when there is none. */
  function FirstWithLength<T>(gs: seq<seq<T>>, m: nat): (j: nat)
    ensures j <= |gs|
    ensures j < |gs| ==> |gs[j]| == m
  {
    if gs == [] then 0
    else if |gs[0]| == m then 0
    else 1 + FirstWithLength(gs[1..], m)
  }

  /** No sub-group before it has length `m`, and it is found whenever one has. */
  lemma {:induction false} FirstWithLengthIsFirst<T>(gs: seq<seq<T>>, m: nat)
    ensures forall i :: 0 <= i < FirstWithLength(gs, m) ==> |gs[i]| != m
    ensures (exists i :: 0 <= i < |gs| && |gs[i]| == m) ==> FirstWithLength(gs, m) < |gs|
  {
    if gs != [] && |gs[0]| != m {
      var tail := gs[1..];
      FirstWithLengthIsFirst(tail, m);
      forall i | 1 <= i < FirstWithLength(gs, m) ensures |gs[i]| != m {
        assert gs[i] == tail[i - 1];
      }
      if exists i :: 0 <= i < |gs| && |gs[i]| == m {
        var i :| 0 <= i < |gs| && |gs[i]| == m;
        assert tail[i - 1] == gs[i];
      }
    }
  }

  /**
   * The first longest sub-group: present whenever some sub-group is
   * non-empty, no sub-group is longer and every earlier one is shorter.
   */
  lemma FirstLongest<T>(gs: seq<seq<T>>)
    requires MaxLength(gs) > 0
    ensures var j := FirstWithLength(gs, MaxLength(gs));
      && j < |gs| && |gs[j]| == MaxLength(gs)
      && (forall i :: 0 <= i < |gs| ==> |gs[i]| <= MaxLength(gs))
      && (forall i :: 0 <= i < j ==> |gs[i]| < MaxLength(gs))
  {
    MaxLengthBounds(gs);
    FirstWithLengthIsFirst(gs, MaxLength(gs));
  }

  /** `sub_group.pop(0)` on every sub-group: the heads, in order... */
  function Heads<T>(gs: seq<seq<T>>): (r: seq<T>)
    requires forall i :: 0 <= i < |gs| ==> |gs[i]| > 0
    ensures |r| == |gs| && forall i :: 0 <= i < |gs| ==> r[i] == gs[i][0]
  {
    if gs == [] then [] else [gs[0][0]] + Heads(gs[1..])
  }

  /** ...and what is left of each sub-group afterwards. */
  function Tails<T>(gs: seq<seq<T>>): (r: seq<seq<T>>)
    requires forall i :: 0 <= i < |gs| ==> |gs[i]| > 0
    ensures |r| == |gs| && forall i :: 0 <= i < |gs| ==> r[i] == gs[i][1..]
  {
    if gs == [] then [] else [gs[0][1..]] + Tails(gs[1..])
  }

  /** The upbeat pass: the head of every still non-empty sub-group, in order... */
  function Pickups<T>(gs: seq<seq<T>>): seq<T>
  {
    if gs == [] then []
    else (if |gs[0]| > 0 then [gs[0][0]] else []) + Pickups(gs[1..])
  }

  /** ...and the sub-groups after it. */
  function AfterPickups<T>(gs: seq<seq<T>>): (r: seq<seq<T>>)
    ensures |r| == |gs|
  {
    if gs == [] then []
    else [if |gs[0]| > 0 then gs[0][1..] else gs[0]] + AfterPickups(gs[1..])
  }

  /** Each sub-group loses its head, and an empty one stays empty. */
  lemma {:induction false} AfterPickupsAt<T>(gs: seq<seq<T>>)
    ensures forall i :: 0 <= i < |gs| ==> AfterPickups(gs)[i] == if |gs[i]| > 0 then gs[i][1..] else gs[i]
  {
    if gs != [] {
      AfterPickupsAt(gs[1..]);
    }
  }

  lemma {:induction false} TotalLengthUpdate<T>(gs: seq<seq<T>>, j: nat, t: seq<T>)
    requires j < |gs|
    ensures TotalLength(gs[j := t]) == TotalLength(gs) - |gs[j]| + |t|
  {
    if j > 0 {
      TotalLengthUpdate(gs[1..], j - 1, t);
      assert gs[j := t][1..] == gs[1..][j - 1 := t];
    }
  }

  lemma {:induction false} MaxLengthZero<T>(gs: seq<seq<T>>)
    requires MaxLength(gs) == 0
    ensures TotalLength(gs) == 0
  {
    if gs != [] {
      MaxLengthZero(gs[1..]);
    }
  }

  /** The last phase: one element at a time from the first sub-group of greatest remaining length. */
  function Drain<T>(gs: seq<seq<T>>): seq<T>
    decreases TotalLength(gs)
  {
    var m := MaxLength(gs);
    var j := FirstWithLength(gs, m);
    if m == 0 || j == |gs| then []
    else
      TotalLengthUpdate(gs, j, gs[j][1..]);
      [gs[j][0]] + Drain(gs[j := gs[j][1..]])
  }

  /** The whole of `flatten_beat_groups(gs, upbeats)`. */
  function Flattened<T>(gs: seq<seq<T>>, upbeats: bool): seq<T>
    requires |gs| > 0 && forall i :: 0 <= i < |gs| ==> |gs[i]| > 0
  {
    var rest := Tails(gs);
    Heads(gs) + (if upbeats then Pickups(rest) + Drain(AfterPickups(rest)) else Drain(rest))
  }

  /**
   * `flatten_beat_groups` on a private copy of the sub-groups: pop every head,
   * optionally pop every upbeat, then pop from the first longest sub-group
   * until all are empty.
   */
  method FlattenBeatGroups<T>(beatGroups: seq<seq<T>>, upbeats: bool) returns (out: seq<T>)
    requires |beatGroups| > 0 && forall i :: 0 <= i < |beatGroups| ==> |beatGroups[i]| > 0
    ensures out == Flattened(beatGroups, upbeats)
  {
    var heads, groups := PopHeads(beatGroups);
    out := heads;
    if upbeats {
      var pickups;
      pickups, groups := PopPickups(groups);
      out := out + pickups;
    }
    var rest := PopLongest(groups);
    out := out + rest;
  }

  /** First big beats: `out.append(sub_group.pop(0))` for every sub-group. */
  method PopHeads<T>(beatGroups: seq<seq<T>>) returns (out: seq<T>, groups: seq<seq<T>>)
    requires forall i :: 0 <= i < |beatGroups| ==> |beatGroups[i]| > 0
    ensures out == Heads(beatGroups) && groups == Tails(beatGroups)
  {
    groups := beatGroups;
    out := [];
    var i := 0;
    while i < |groups|
      invariant 0 <= i <= |groups| == |beatGroups|
      invariant out == Heads(beatGroups)[..i]
      invariant forall k :: 0 <= k < i ==> groups[k] == beatGroups[k][1..]
      invariant forall k :: i <= k < |groups| ==> groups[k] == beatGroups[k]
    {
      out := out + [groups[i][0]];
      groups := groups[i := groups[i][1..]];
      i := i + 1;
    }
  }

  /** Then the pickups: pop once more from every sub-group that is not yet empty. */
  method PopPickups<T>(tails: seq<seq<T>>) returns (out: seq<T>, groups: seq<seq<T>>)
    ensures out == Pickups(tails) && groups == AfterPickups(tails)
  {
    groups := tails;
    out := [];
    ghost var after := AfterPickups(tails);
    AfterPickupsAt(tails);
    var i := 0;
    while i < |groups|
      invariant 0 <= i <= |groups| == |tails| == |after|
      invariant out + Pickups(tails[i..]) == Pickups(tails)
      invariant forall k :: 0 <= k < i ==> groups[k] == after[k]
      invariant forall k :: i <= k < |groups| ==> groups[k] == tails[k]
    {
      var g := groups[i];
      var head := if |g| > 0 then [g[0]] else [];
      assert (out + head) + Pickups(tails[i + 1..]) == Pickups(tails) by {
        assert tails[i..] == [g] + tails[i + 1..];
        assert Pickups(tails[i..]) == head + Pickups(tails[i + 1..]);
      }
      if |g| > 0 {
        groups := groups[i := g[1..]];
      }
      assert groups[i] == after[i];
      out := out + head;
      i := i + 1;
    }
    assert tails[i..] == [];
    assert groups == after;
  }

  /** Then by the longest chain, and secondarily by order. */
  method PopLongest<T>(start: seq<seq<T>>) returns (out: seq<T>)
    ensures out == Drain(start)
  {
    var groups := start;
    out := [];
    while true
      invariant out + Drain(groups) == Drain(start)
      decreases TotalLength(groups)
    {
      var longest := MaxLength(groups);
      if longest == 0 {
        break;
      }
      var j := 0;
      while j < |groups|
        invariant 0 <= j <= |groups|
        invariant forall k :: 0 <= k < j ==> |groups[k]| != longest
      {
        if |groups[j]| == longest {
          break;
        }
        j := j + 1;
      }
      FirstLongest(groups);
      assert j == FirstWithLength(groups, longest);
      DrainUnfold(groups);
      TotalLengthUpdate(groups, j, groups[j][1..]);
      out := out + [groups[j][0]];
      groups := groups[j := groups[j][1..]];
    }
  }

  lemma DrainUnfold<T>(gs: seq<seq<T>>)
    requires MaxLength(gs) > 0
    ensures
      var j := FirstWithLength(gs, MaxLength(gs));
      j < |gs| && Drain(gs) == [gs[j][0]] + Drain(gs[j := gs[j][1..]])
  {
    FirstLongest(gs);
  }

  lemma {:induction false} ConcatUpdate<T>(gs: seq<seq<T>>, j: nat, t: seq<T>)
    requires j < |gs|
    ensures multiset(Concat(gs[j := t])) + multiset(gs[j]) == multiset(Concat(gs)) + multiset(t)
  {
    if j == 0 {
      assert Concat(gs[j := t]) == t + Concat(gs[1..]);
    } else {
      ConcatUpdate(gs[1..], j - 1, t);
      var u := gs[j := t];
      assert u[0] == gs[0];
      assert u[1..] == gs[1..][j - 1 := t];
      assert gs[1..][j - 1] == gs[j];
      assert Concat(u) == gs[0] + Concat(gs[1..][j - 1 := t]);
      assert Concat(gs) == gs[0] + Concat(gs[1..]);
      calc {
        multiset(Concat(u)) + multiset(gs[j]);
        multiset(gs[0]) + (multiset(Concat(gs[1..][j - 1 := t])) + multiset(gs[1..][j - 1]));
        multiset(gs[0]) + (multiset(Concat(gs[1..])) + multiset(t));
        multiset(Concat(gs)) + multiset(t);
      }
    }
  }

  lemma MultisetCancel<T>(a: multiset<T>, b: multiset<T>, c: multiset<T>)
    requires a + c == b + c
    ensures a == b
  {
    forall x ensures a[x] == b[x] {
      assert (a + c)[x] == (b + c)[x];
    }
  }

  lemma {:induction false} DrainMultiset<T>(gs: seq<seq<T>>)
    ensures multiset(Drain(gs)) == multiset(Concat(gs))
    decreases TotalLength(gs)
  {
    var m := MaxLength(gs);
    if m == 0 {
      MaxLengthZero(gs);
      ConcatEmpty(gs);
    } else {
      var j := FirstWithLength(gs, m);
      FirstLongest(gs);
      var t := gs[j][1..];
      var next := gs[j := t];
      TotalLengthUpdate(gs, j, t);
      DrainUnfold(gs);
      DrainMultiset(next);
      ConcatUpdate(gs, j, t);
      var h := multiset([gs[j][0]]);
      assert multiset(Drain(gs)) == h + multiset(Drain(next));
      assert gs[j] == [gs[j][0]] + t;
      assert multiset(gs[j]) == h + multiset(t);
      assert (multiset(Concat(next)) + h) + multiset(t) == multiset(Concat(gs)) + multiset(t);
      MultisetCancel(multiset(Concat(next)) + h, multiset(Concat(gs)), multiset(t));
    }
  }

  lemma {:induction false} ConcatEmpty<T>(gs: seq<seq<T>>)
    requires TotalLength(gs) == 0
    ensures Concat(gs) == []
  {
    if gs != [] {
      ConcatEmpty(gs[1..]);
    }
  }

  lemma {:induction false} HeadsTailsMultiset<T>(gs: seq<seq<T>>)
    requires forall i :: 0 <= i < |gs| ==> |gs[i]| > 0
    ensures multiset(Heads(gs)) + multiset(Concat(Tails(gs))) == multiset(Concat(gs))
  {
    if gs != [] {
      var g, rest := gs[0], gs[1..];
      HeadsTailsMultiset(rest);
      var tails := Tails(gs);
      assert tails == [g[1..]] + Tails(rest);
      assert tails[0] == g[1..] && tails[1..] == Tails(rest);
      assert Concat(tails) == g[1..] + Concat(Tails(rest));
      assert Concat(gs) == g + Concat(rest);
      assert Heads(gs) == [g[0]] + Heads(rest);
      assert g == [g[0]] + g[1..];
      calc {
        multiset(Heads(gs)) + multiset(Concat(tails));
        multiset([g[0]]) + multiset(Heads(rest)) + multiset(g[1..]) + multiset(Concat(Tails(rest)));
        multiset([g[0]]) + multiset(g[1..]) + multiset(Concat(rest));
        multiset(g) + multiset(Concat(rest));
      }
    }
  }

  lemma {:induction false} PickupsMultiset<T>(gs: seq<seq<T>>)
    ensures multiset(Pickups(gs)) + multiset(Concat(AfterPickups(gs))) == multiset(Concat(gs))
  {
    if gs != [] {
      PickupsMultiset(gs[1..]);
      assert AfterPickups(gs)[1..] == AfterPickups(gs[1..]);
      if |gs[0]| > 0 {
        assert gs[0] == [gs[0][0]] + gs[0][1..];
      }
    }
  }

  /**
   * `flatten_beat_groups` outputs every element of its sub-groups exactly once,
   * and begins with the head of every sub-group, in order.
   */
  lemma FlattenedIsPermutation<T>(gs: seq<seq<T>>, upbeats: bool)
    requires |gs| > 0 && forall i :: 0 <= i < |gs| ==> |gs[i]| > 0
    ensures multiset(Flattened(gs, upbeats)) == multiset(Concat(gs))
    ensures |Flattened(gs, upbeats)| >= |gs|
    ensures forall i :: 0 <= i < |gs| ==> Flattened(gs, upbeats)[i] == gs[i][0]
  {
    var rest := Tails(gs);
    HeadsTailsMultiset(gs);
    if upbeats {
      PickupsMultiset(rest);
      DrainMultiset(AfterPickups(rest));
    } else {
      DrainMultiset(rest);
    }
  }

  /**
   * Each step of the last phase takes the head of the first sub-group whose
   * length is the greatest: no sub-group is longer, and every earlier one is shorter.
   */
  lemma DrainStep<T>(gs: seq<seq<T>>)
    requires TotalLength(gs) > 0
    ensures
      var j := FirstWithLength(gs, MaxLength(gs));
      j < |gs| && |gs[j]| > 0 &&
      (forall i :: 0 <= i < |gs| ==> |gs[i]| <= |gs[j]|) &&
      (forall i :: 0 <= i < j ==> |gs[i]| < |gs[j]|) &&
      Drain(gs) == [gs[j][0]] + Drain(gs[j := gs[j][1..]])
  {
    if MaxLength(gs) == 0 {
      MaxLengthZero(gs);
    } else {
      FirstLongest(gs);
    }
  }

  lemma DrainStepAt<T>(gs: seq<seq<T>>, m: nat, j: nat, next: seq<seq<T>>)
    requires m > 0 && j < |gs| && |gs[j]| == m
    requires forall i :: 0 <= i < |gs| ==> |gs[i]| <= m
    requires forall i :: 0 <= i < j ==> |gs[i]| != m
    requires next == gs[j := gs[j][1..]]
    ensures Drain(gs) == [gs[j][0]] + Drain(next)
  {
    MaxLengthBounds(gs);
    assert MaxLength(gs) == m;
    FirstWithLengthIsFirst(gs, m);
    assert FirstWithLength(gs, m) == j;
    DrainUnfold(gs);
  }

  lemma DrainEmpty<T>(gs: seq<seq<T>>)
    requires forall i :: 0 <= i < |gs| ==> gs[i] == []
    ensures Drain(gs) == []
  {
  }

  lemma FlattenedParts<T>(gs: seq<seq<T>>, upbeats: bool, heads: seq<T>, tails: seq<seq<T>>, rest: seq<T>)
    requires |gs| > 0 && forall i :: 0 <= i < |gs| ==> |gs[i]| > 0
    requires Heads(gs) == heads && Tails(gs) == tails
    requires rest == if upbeats then Pickups(tails) + Drain(AfterPickups(tails)) else Drain(tails)
    ensures Flattened(gs, upbeats) == heads + rest
  {
  }

  lemma ExampleHeadsTails<T>(a: T, b: T, c: T, d: T, e: T)
    ensures Heads([[a, b, c], [d, e]]) == [a, d]
    ensures Tails([[a, b, c], [d, e]]) == [[b, c], [e]]
  {
    assert [a, b, c][1..] == [b, c] && [d, e][1..] == [e];
  }

  lemma ExamplePickups<T>(b: T, c: T, e: T)
    ensures Pickups([[b, c], [e]]) == [b, e]
    ensures AfterPickups([[b, c], [e]]) == [[c], []]
  {
    assert [b, c][1..] == [c] && [e][1..] == [];
    var gs := [[b, c], [e]];
    assert gs[1..] == [[e]] && gs[1..][1..] == [];
    assert Pickups(gs[1..][1..]) == [];
    assert Pickups(gs[1..]) == [e];
  }

  lemma ExampleDrainAfterPickups<T>(c: T)
    ensures Drain([[c], []]) == [c]
  {
    assert [c][1..] == [];
    assert [[c], []][0 := [c][1..]] == [[], []];
    DrainStepAt([[c], []], 1, 0, [[], []]);
    DrainEmpty<T>([[], []]);
  }

  lemma ExampleDrainTails<T>(b: T, c: T, e: T)
    ensures Drain([[b, c], [e]]) == [b, c, e]
  {
    assert [b, c][1..] == [c] && [c][1..] == [] && [e][1..] == [];
    assert [[b, c], [e]][0 := [b, c][1..]] == [[c], [e]];
    assert [[c], [e]][0 := [c][1..]] == [[], [e]];
    assert [[], [e]][1 := [e][1..]] == [[], []];
    DrainStepAt([[b, c], [e]], 2, 0, [[c], [e]]);
    DrainStepAt([[c], [e]], 1, 0, [[], [e]]);
    DrainStepAt([[], [e]], 1, 1, [[], []]);
    DrainEmpty<T>([[], []]);
  }

  /**
   * Sub-groups [a, b, c] and [d, e] (the beat groups [0, 1, 2] and [3, 4] of
   * 2 + 3): with upbeats the e comes before the c.
   */
  lemma FlattenExampleUpbeats<T>(a: T, b: T, c: T, d: T, e: T)
    ensures Flattened([[a, b, c], [d, e]], true) == [a, d, b, e, c]
  {
    ExampleHeadsTails(a, b, c, d, e);
    ExamplePickups(b, c, e);
    ExampleDrainAfterPickups(c);
    FlattenedParts([[a, b, c], [d, e]], true, [a, d], [[b, c], [e]], [b, e, c]);
  }

  lemma FlattenExampleNoUpbeats<T>(a: T, b: T, c: T, d: T, e: T)
    ensures Flattened([[a, b, c], [d, e]], false) == [a, d, b, c, e]
  {
    ExampleHeadsTails(a, b, c, d, e);
    ExampleDrainTails(b, c, e);
    FlattenedParts([[a, b, c], [d, e]], false, [a, d], [[b, c], [e]], [b, c, e]);
  }

  /**
   * Two sub-groups of two (the beat groups [0, 1] and [2, 3] of 2 + 2):
   * without upbeats first, both heads, then both second elements.
   */
  lemma FlattenExampleTwoPairs<T>(a: T, b: T, c: T, d: T)
    ensures Flattened([[a, b], [c, d]], false) == [a, c, b, d]
  {
    var gs := [[a, b], [c, d]];
    assert [a, b][1..] == [b] && [c, d][1..] == [d] && [b][1..] == [] && [d][1..] == [];
    assert gs[1..] == [[c, d]] && gs[1..][1..] == [];
    assert Heads(gs) == [a, c];
    assert Tails(gs) == [[b], [d]];
    assert Drain([[b], [d]]) == [b, d] by {
      assert [[b], [d]][0 := [b][1..]] == [[], [d]];
      assert [[], [d]][1 := [d][1..]] == [[], []];
      DrainStepAt([[b], [d]], 1, 0, [[], [d]]);
      DrainStepAt([[], [d]], 1, 1, [[], []]);
      DrainEmpty<T>([[], []]);
    }
    FlattenedParts(gs, false, [a, c], [[b], [d]], [b, d]);
  }
}
