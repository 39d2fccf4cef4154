/**
 * The sequence helpers `rotate_sequence` and `sequence_depth`.
 */
module Sequences {
  import opened Builtins

  /** `rotate_sequence(s, n)`: `s[n:] + s[:n]`, with Python's clamped and negative slice bounds. */
  function RotateSequence<T>(s: seq<T>, n: int): seq<T>
  {
    SliceFrom(s, n) + SliceTo(s, n)
  }

  /** Rotation only reorders: same length, same elements with the same multiplicities. */
  lemma RotateIsPermutation<T>(s: seq<T>, n: int)
    ensures |RotateSequence(s, n)| == |s|
    ensures multiset(RotateSequence(s, n)) == multiset(s)
  {
    var k := SliceBound(|s|, n);
    assert s == s[..k] + s[k..];
  }

  /** For `0 <= n <= len(s)`, element i of the result is `s[(i + n) mod len(s)]`. */
  lemma RotateAt<T>(s: seq<T>, n: int, i: int)
    requires 0 <= n <= |s| && 0 <= i < |s|
    ensures |RotateSequence(s, n)| == |s|
    ensures RotateSequence(s, n)[i] == s[(i + n) % |s|]
  {
    var r := RotateSequence(s, n);
    assert r == s[n..] + s[..n];
    if i < |s| - n {
      ModOfSmall(i + n, |s|);
    } else {
      ModOfSmall(i + n - |s|, |s|);
      ModShift(i + n - |s|, |s|);
    }
  }

  lemma ModOfSmall(x: int, m: int)
    requires 0 <= x < m
    ensures x % m == x
  {
  }

  lemma ModShift(x: int, m: int)
    requires m > 0
    ensures (x + m) % m == x % m
  {
    var q1, r1 := x / m, x % m;
    var q2, r2 := (x + m) / m, (x + m) % m;
    var k := q2 - q1 - 1;
    assert k * m == r1 - r2 by {
      assert x == q1 * m + r1 && x + m == q2 * m + r2;
      assert (q2 - q1 - 1) * m == q2 * m - q1 * m - m;
    }
  }

  /** A negative shift `-len(s) <= n < 0` rotates by `len(s) + n`. */
  lemma RotateNegative<T>(s: seq<T>, n: int)
    requires -|s| <= n < 0
    ensures RotateSequence(s, n) == RotateSequence(s, |s| + n)
  {
  }

  /**
   * A shift at least as long as the sequence is not reduced modulo its length:
   * one of the two slices is empty and the result is the input.
   */
  lemma RotateLongShift<T>(s: seq<T>, n: int)
    requires n >= |s| || n <= -|s|
    ensures RotateSequence(s, n) == s
  {
    if n >= |s| {
      assert SliceFrom(s, n) == [];
    } else {
      assert SliceTo(s, n) == [];
    }
  }

  /**
   * The rotation the docstring describes: a shift of any size wraps around,
   * so it is taken modulo the length (Python's `%`, never negative here).
   */
  function RotateWrapped<T>(s: seq<T>, n: int): seq<T>
  {
    if |s| == 0 then s else RotateSequence(s, n % |s|)
  }

  /** Every element lands where the wrap-around rotation puts it, for every shift. */
  lemma RotateWrappedAt<T>(s: seq<T>, n: int, i: int)
    requires 0 <= i < |s|
    ensures |RotateWrapped(s, n)| == |s|
    ensures RotateWrapped(s, n)[i] == s[(i + n) % |s|]
  {
    var m := |s|;
    var k := n % m;
    RotateAt(s, k, i);
    ModAddReduce(i, n, m);
  }

  lemma ModAddReduce(i: int, n: int, m: int)
    requires m > 0
    ensures (i + n % m) % m == (i + n) % m
  {
    var q := n / m;
    assert n == q * m + n % m;
    ModMultiple(i + n % m, q, m);
    assert i + n % m + q * m == i + n;
  }

  lemma {:induction false} ModMultiple(x: int, q: int, m: int)
    requires m > 0
    ensures (x + q * m) % m == x % m
    decreases if q < 0 then -q else q
  {
    if q > 0 {
      var y := x + (q - 1) * m;
      ModMultiple(x, q - 1, m);
      ModShift(y, m);
      assert y + m == x + q * m;
    } else if q < 0 {
      var y := x + q * m;
      var p := q + 1;
      ModMultiple(x, p, m);
      ModShift(y, m);
      assert y + m == x + p * m;
    }
  }

  /** Within `-len(s) < n < len(s)` the code and the docstring agree. */
  lemma RotateWrappedAgrees<T>(s: seq<T>, n: int)
    requires -|s| < n < |s|
    ensures RotateWrapped(s, n) == RotateSequence(s, n)
  {
    var m := |s|;
    if n >= 0 {
      ModOfSmall(n, m);
    } else {
      var k := m + n;
      ModOfSmall(k, m);
      ModShift(n, m);
      RotateNegative(s, n);
    }
  }

  /** `rotate_sequence([0, 1], 3)` returns `[0, 1]`; wrapping around gives `[1, 0]`. */
  lemma RotateLongShiftExample()
    ensures RotateSequence([0, 1], 3) == [0, 1]
    ensures RotateWrapped([0, 1], 3) == [1, 0]
  {
    RotateLongShift([0, 1], 3);
    assert 3 % 2 == 1;
    assert RotateSequence([0, 1], 1) == [0, 1][1..] + [0, 1][..1];
  }

  /**
   * The values `sequence_depth` distinguishes: anything that is not a Sequence,
   * a string, and a list or tuple of further values.
   */
  datatype PyValue = Atom | Str(chars: string) | List(items: seq<PyValue>)

  /** The depth the docstring describes: 0 for a non-Sequence or an empty one, else 1 + the deepest element. */
  function Depth(v: PyValue): nat
  {
    match v
    case Atom => 0
    case Str(_) => 0
    case List(items) => if |items| == 0 then 0 else 1 + MaxDepth(items)
  }

  /** The largest `Depth` among `vs`, 0 when there are none. */
  function MaxDepth(vs: seq<PyValue>): nat
  {
    if vs == [] then 0
    else
      var d, rest := Depth(vs[0]), MaxDepth(vs[1..]);
      if d < rest then rest else d
  }

  /** The elements a value contributes to the next frontier (`chain.from_iterable`). */
  function Elements(v: PyValue): seq<PyValue>
  {
    match v
    case List(items) => items
    case _ => []
  }

  /** One frontier step: the elements of every Sequence in `vs`, left to right. */
  function NextFrontier(vs: seq<PyValue>): seq<PyValue>
  {
    if vs == [] then [] else Elements(vs[0]) + NextFrontier(vs[1..])
  }

  /** How many more non-empty frontiers follow, counting `vs` itself. */
  function FrontierDepth(vs: seq<PyValue>): nat
  {
    if vs == [] then 0 else 1 + MaxDepth(vs)
  }

  lemma {:induction false} MaxDepthAppend(a: seq<PyValue>, b: seq<PyValue>)
    ensures MaxDepth(a + b) == if MaxDepth(a) < MaxDepth(b) then MaxDepth(b) else MaxDepth(a)
  {
    if a == [] {
      assert a + b == b;
    } else {
      assert (a + b)[0] == a[0];
      assert (a + b)[1..] == a[1..] + b;
      MaxDepthAppend(a[1..], b);
    }
  }

  lemma {:induction false} NextFrontierDepth(vs: seq<PyValue>)
    ensures FrontierDepth(NextFrontier(vs)) == MaxDepth(vs)
  {
    if vs != [] {
      NextFrontierDepth(vs[1..]);
      var e, rest := Elements(vs[0]), NextFrontier(vs[1..]);
      assert NextFrontier(vs) == e + rest;
      MaxDepthAppend(e, rest);
      assert FrontierDepth(e) == Depth(vs[0]);
    }
  }

  /**
   * `sequence_depth` with strings read as atoms: walks the nested value level
   * by level, replacing the frontier by the elements of its lists, and counts
   * the non-empty frontiers.
   */
  method SequenceDepth(v: PyValue) returns (level: nat)
    ensures level == Depth(v)
  {
    var frontier := Elements(v);
    level := 0;
    assert FrontierDepth(frontier) == Depth(v);
    while |frontier| > 0
      invariant level + FrontierDepth(frontier) == Depth(v)
      decreases FrontierDepth(frontier)
    {
      NextFrontierDepth(frontier);
      frontier := NextFrontier(frontier);
      level := level + 1;
    }
  }

  lemma SequenceDepthExample()
    ensures Depth(List([Atom, List([Atom, List([Str("")])]), List([])])) == 3
  {
  }

  /** The one-character strings a string iterates over. */
  function Chars(chars: string): (r: seq<PyValue>)
    ensures |r| == |chars|
    ensures forall i :: 0 <= i < |chars| ==> r[i] == Str([chars[i]])
  {
    if chars == [] then [] else [Str([chars[0]])] + Chars(chars[1..])
  }

  /**
   * What the source's frontier step does with a string: a str is a Sequence,
   * so it contributes its one-character strings.
   */
  function ElementsAsWritten(v: PyValue): seq<PyValue>
  {
    match v
    case Atom => []
    case Str(chars) => Chars(chars)
    case List(items) => items
  }

  /** The source's frontier step, strings included. */
  function NextFrontierAsWritten(vs: seq<PyValue>): seq<PyValue>
  {
    if vs == [] then [] else ElementsAsWritten(vs[0]) + NextFrontierAsWritten(vs[1..])
  }

  /** The frontier after `k` of the source's steps. */
  function FrontierAfter(vs: seq<PyValue>, k: nat): seq<PyValue>
  {
    if k == 0 then vs else NextFrontierAsWritten(FrontierAfter(vs, k - 1))
  }

  predicate HasNonEmptyString(vs: seq<PyValue>)
  {
    exists i :: 0 <= i < |vs| && vs[i].Str? && vs[i].chars != []
  }

  /** A one-character string is its own only element: the step maps `['a']` to `['a']`. */
  lemma OneCharStringFrontierFixed(c: char)
    ensures NextFrontierAsWritten([Str([c])]) == [Str([c])]
  {
    assert [Str([c])][1..] == [];
    assert Chars([c]) == [Str([c])];
  }

  /** A non-empty string anywhere in the frontier leaves one in the next frontier. */
  lemma {:induction false} StringSurvivesStep(vs: seq<PyValue>, i: nat)
    requires i < |vs| && vs[i].Str? && vs[i].chars != []
    ensures HasNonEmptyString(NextFrontierAsWritten(vs))
  {
    var e, rest := ElementsAsWritten(vs[0]), NextFrontierAsWritten(vs[1..]);
    assert NextFrontierAsWritten(vs) == e + rest;
    if i == 0 {
      assert (e + rest)[0] == Str([vs[0].chars[0]]);
    } else {
      var j := i - 1;
      StringSurvivesStep(vs[1..], j);
      var k :| 0 <= k < |rest| && rest[k].Str? && rest[k].chars != [];
      assert (e + rest)[|e| + k] == rest[k];
    }
  }

  /**
   * The source's loop never ends once a non-empty string occurs: every later
   * frontier is non-empty, so `next` never raises StopIteration.
   */
  lemma {:induction false} StringsNeverEnd(vs: seq<PyValue>, k: nat)
    requires HasNonEmptyString(vs)
    ensures HasNonEmptyString(FrontierAfter(vs, k))
    ensures |FrontierAfter(vs, k)| > 0
  {
    if k > 0 {
      var m := k - 1;
      StringsNeverEnd(vs, m);
      var f := FrontierAfter(vs, m);
      var i :| 0 <= i < |f| && f[i].Str? && f[i].chars != [];
      StringSurvivesStep(f, i);
    }
  }

  /** `sequence_depth(["a"])`: the first frontier is `['a']`, and it never empties. */
  lemma OneStringNeverEnds(c: char, k: nat)
    ensures |FrontierAfter(Elements(List([Str([c])])), k)| > 0
  {
    var f := Elements(List([Str([c])]));
    assert f[0].Str? && f[0].chars != [];
    StringsNeverEnd(f, k);
  }

  /** Without non-empty strings the source's step and the model's step agree. */
  lemma {:induction false} AsWrittenAgrees(vs: seq<PyValue>)
    requires forall i :: 0 <= i < |vs| ==> !(vs[i].Str? && vs[i].chars != [])
    ensures NextFrontierAsWritten(vs) == NextFrontier(vs)
  {
    if vs != [] {
      AsWrittenAgrees(vs[1..]);
      assert ElementsAsWritten(vs[0]) == Elements(vs[0]);
    }
  }
}
