/**
 * Python built-ins the modelled code leans on, with Python's own semantics:
 * slice bounds that are clamped and may be negative, `list.reverse`, `range`,
 * `sum`, `list.index`, and the decimal conversions `str(int)` and `int(str)`.
 */
module Builtins {
  /** Where Python puts a slice bound `n` of a sequence of length `len`. */
  function SliceBound(len: nat, n: int): (k: nat)
    ensures k <= len
    ensures 0 <= n <= len ==> k == n
    ensures n < 0 && len + n >= 0 ==> k == len + n
    ensures n > len ==> k == len
    ensures len + n < 0 ==> k == 0
  {
    if n < 0 then (if len + n < 0 then 0 else len + n)
    else if n > len then len
    else n
  }

  /** `s[n:]` */
  function SliceFrom<T>(s: seq<T>, n: int): seq<T>
  {
    s[SliceBound(|s|, n)..]
  }

  /** `s[:n]` */
  function SliceTo<T>(s: seq<T>, n: int): seq<T>
  {
    s[..SliceBound(|s|, n)]
  }

  /** `s[::-1]`, or the list after `list.reverse()`. */
  function Reverse<T>(s: seq<T>): (r: seq<T>)
    ensures |r| == |s|
    ensures forall i :: 0 <= i < |s| ==> r[i] == s[|s| - 1 - i]
  {
    if s == [] then [] else Reverse(s[1..]) + [s[0]]
  }

  lemma ReverseMultiset<T>(s: seq<T>)
    ensures multiset(Reverse(s)) == multiset(s)
  {
    if s != [] {
      ReverseMultiset(s[1..]);
      assert s == [s[0]] + s[1..];
    }
  }

  /** `list(range(lo, hi))` */
  function Range(lo: int, hi: int): (r: seq<int>)
    ensures |r| == if lo < hi then hi - lo else 0
    ensures forall i :: 0 <= i < |r| ==> r[i] == lo + i
    decreases hi - lo
  {
    if lo < hi then [lo] + Range(lo + 1, hi) else []
  }

  lemma RangeSplit(lo: int, mid: int, hi: int)
    requires lo <= mid <= hi
    ensures Range(lo, hi) == Range(lo, mid) + Range(mid, hi)
  {
  }

  /** `sum(s)` */
  function Sum(s: seq<int>): int
  {
    if s == [] then 0 else s[0] + Sum(s[1..])
  }

  lemma SumAppend(a: seq<int>, b: seq<int>)
    ensures Sum(a + b) == Sum(a) + Sum(b)
  {
    if a == [] {
      assert a + b == b;
    } else {
      assert (a + b)[1..] == a[1..] + b;
      SumAppend(a[1..], b);
    }
  }

  /** `[x] * n`, which is empty for every `n <= 0`. */
  function Repeat<T>(x: T, n: int): (r: seq<T>)
    ensures |r| == if n > 0 then n else 0
    ensures forall i :: 0 <= i < |r| ==> r[i] == x
    decreases n
  {
    if n <= 0 then [] else [x] + Repeat(x, n - 1)
  }

  /** All elements pairwise different. */
  predicate Distinct<T(==)>(s: seq<T>)
  {
    forall i, j :: 0 <= i < j < |s| ==> s[i] != s[j]
  }

  /** `s` holds each of 0, 1, ..., n-1 exactly once. */
  predicate IsPermutationOfRange(s: seq<int>, n: nat)
  {
    |s| == n && (forall i :: 0 <= i < |s| ==> 0 <= s[i] < n) && Distinct(s)
  }

  lemma {:induction false} DistinctMultiplicity<T>(s: seq<T>, x: T)
    requires Distinct(s)
    ensures multiset(s)[x] <= 1
  {
    if s != [] {
      assert s == [s[0]] + s[1..];
      assert forall i :: 1 <= i < |s| ==> s[i] == s[1..][i - 1];
      DistinctMultiplicity(s[1..], x);
      if x == s[0] {
        assert x !in s[1..];
      }
    }
  }

  lemma MultiplicityDistinct<T>(s: seq<T>)
    requires forall x :: multiset(s)[x] <= 1
    ensures Distinct(s)
  {
    forall i, j | 0 <= i < j < |s| ensures s[i] != s[j] {
      assert s == s[..i] + [s[i]] + s[i + 1..j] + [s[j]] + s[j + 1..];
      assert multiset(s)[s[i]] >= 1 + multiset([s[j]])[s[i]];
    }
  }

  /** Rearranging a permutation of 0..n-1 gives a permutation of 0..n-1. */
  lemma PermutationTransfer(s: seq<int>, t: seq<int>, n: nat)
    requires IsPermutationOfRange(s, n) && multiset(s) == multiset(t)
    ensures IsPermutationOfRange(t, n)
  {
    assert |t| == |multiset(t)| == |multiset(s)| == |s|;
    forall i | 0 <= i < |t| ensures 0 <= t[i] < n {
      assert t[i] in multiset(s);
    }
    forall x ensures multiset(t)[x] <= 1 {
      DistinctMultiplicity(s, x);
    }
    MultiplicityDistinct(t);
  }

  lemma RangeIsPermutation(n: nat)
    ensures IsPermutationOfRange(Range(0, n), n)
  {
  }

  lemma SubMultisetSize<T>(a: multiset<T>, b: multiset<T>)
    requires a <= b && |a| == |b|
    ensures a == b
  {
    var d := b - a;
    assert b == a + d;
  }

  /** n distinct values below n are all of them: the same multiset as `range(n)`. */
  lemma PermutationMultiset(s: seq<int>, n: nat)
    requires IsPermutationOfRange(s, n)
    ensures multiset(s) == multiset(Range(0, n))
  {
    RangeIsPermutation(n);
    forall x ensures multiset(s)[x] <= multiset(Range(0, n))[x] {
      DistinctMultiplicity(s, x);
      if x in s {
        var i :| 0 <= i < |s| && s[i] == x;
        assert Range(0, n)[x] == x;
      }
    }
    SubMultisetSize(multiset(s), multiset(Range(0, n)));
  }

  /** `s.index(x)`: the position of the first occurrence of `x` (a ValueError in Python when absent). */
  function IndexOf<T(==)>(s: seq<T>, x: T): (k: nat)
    requires x in s
    ensures k < |s| && s[k] == x
    ensures forall j :: 0 <= j < k ==> s[j] != x
  {
    if s[0] == x then 0 else 1 + IndexOf(s[1..], x)
  }

  /** `sep.join(ss)` */
  function Join(sep: string, ss: seq<string>): string
  {
    if |ss| == 0 then ""
    else if |ss| == 1 then ss[0]
    else ss[0] + sep + Join(sep, ss[1..])
  }

  predicate IsDigit(c: char)
  {
    '0' <= c <= '9'
  }

  predicate AllDigits(s: string)
  {
    forall i :: 0 <= i < |s| ==> IsDigit(s[i])
  }

  /** `int(s)` for a string of decimal digits. */
  function DigitsValue(s: string): nat
    requires AllDigits(s)
  {
    if s == [] then 0 else 10 * DigitsValue(s[..|s| - 1]) + (s[|s| - 1] - '0') as nat
  }

  /** `str(n)` for a natural number. */
  function NatToString(n: nat): (s: string)
    ensures |s| > 0 && AllDigits(s)
  {
    if n < 10 then [('0' as int + n) as char]
    else NatToString(n / 10) + [('0' as int + n % 10) as char]
  }

  /** `str(i)` for any int: a leading '-' for negatives. */
  function IntToString(i: int): string
  {
    if i < 0 then "-" + NatToString(-i) else NatToString(i)
  }

  /** Reading back what `str` wrote gives the number: `int(str(n)) == n`. */
  lemma {:induction false} DigitsValueOfNatToString(n: nat)
    ensures DigitsValue(NatToString(n)) == n
  {
    var s := NatToString(n);
    if n >= 10 {
      DigitsValueOfNatToString(n / 10);
      assert s[..|s| - 1] == NatToString(n / 10);
    }
  }
}
