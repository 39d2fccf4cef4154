/**
 * `ScaleType`: the intervals of a scale above its starting note, the last of
 * them being the period (usually the octave). `rotate` makes a modal shift,
 * and `load_from_scala` reads the lines of a Scala `.scl` file.
 */
module ScaleTypes {
  import opened Wrappers
  import MathUtil
  import Builtins
  import F = Fractions
  import opened PitchIntervals

  /** Entry `i` of `intervals[steps:] + [x + intervals[-1] for x in intervals[:steps]]`. */
  function ShiftedAt(ivs: seq<Interval>, s: nat, i: nat): Interval
    requires s < |ivs| && i < |ivs|
  {
    var n := |ivs|;
    if i < n - s then ivs[s + i] else Add(ivs[i - (n - s)], ivs[n - 1])
  }

  /**
   * The intervals after `rotate(steps)`: `steps % len(intervals)` (a
   * ZeroDivisionError for no intervals), nothing changed for a rotation of 0,
   * and otherwise the shifted intervals each minus `intervals[steps - 1]`.
   */
  function Rotated(ivs: seq<Interval>, steps: int): (r: Result<seq<Interval>, IntervalError>)
    ensures r.Failure? <==>
      |ivs| == 0 || (MathUtil.PyMod(steps, |ivs|) != 0 && ivs[MathUtil.PyMod(steps, |ivs|) - 1].ratio.num == 0)
    ensures r.Failure? ==> r.error == ZeroDivisionError
    ensures r.Success? ==> |r.value| == |ivs|
    ensures r.Success? && MathUtil.PyMod(steps, |ivs|) == 0 ==> r.value == ivs
  {
    if |ivs| == 0 then Failure(ZeroDivisionError)
    else
      var n := |ivs|;
      var s := MathUtil.PyMod(steps, n);
      if s == 0 then Success(ivs)
      else
        var back :- Neg(ivs[s - 1]);
        Success(seq(n, i requires 0 <= i < n => Add(ShiftedAt(ivs, s, i), back)))
  }

  /** The rotated intervals are measured from the old degree `steps`: the first is the step above it. */
  lemma RotatedFirst(ivs: seq<Interval>, steps: int)
    requires Rotated(ivs, steps).Success? && MathUtil.PyMod(steps, |ivs|) != 0
    ensures var s := MathUtil.PyMod(steps, |ivs|);
      Rotated(ivs, steps).value[0] == Sub(ivs[s], ivs[s - 1]).value
  {
  }

  /** Rotation keeps the period: the last interval is unchanged. */
  lemma RotatedPeriod(ivs: seq<Interval>, steps: int)
    requires Rotated(ivs, steps).Success?
    ensures Rotated(ivs, steps).value[|ivs| - 1] == ivs[|ivs| - 1]
  {
    var n := |ivs|;
    var s := MathUtil.PyMod(steps, n);
    if s != 0 {
      var a, last := ivs[s - 1], ivs[n - 1];
      assert ShiftedAt(ivs, s, n - 1) == Add(a, last);
      AddCommutes(a, last);
      SubAdd(last, a);
    }
  }

  /** A count of steps already below the number of intervals is its own remainder. */
  lemma PyModSmall(a: int, n: int)
    requires 0 <= a < n
    ensures MathUtil.PyMod(a, n) == a
  {
  }

  /** All ratios nonzero: every interval can be negated and subtracted. */
  predicate NonzeroRatios(ivs: seq<Interval>)
  {
    forall i :: 0 <= i < |ivs| ==> ivs[i].ratio.num != 0
  }

  /** A rotation of intervals with nonzero ratios succeeds and keeps the ratios nonzero. */
  lemma RotatedNonzero(ivs: seq<Interval>, steps: int)
    requires |ivs| > 0 && NonzeroRatios(ivs)
    ensures Rotated(ivs, steps).Success? && NonzeroRatios(Rotated(ivs, steps).value)
  {
    var n := |ivs|;
    var s := MathUtil.PyMod(steps, n);
    if s != 0 {
      var back := Neg(ivs[s - 1]).value;
      NegNonzero(ivs[s - 1]);
      forall i | 0 <= i < n
        ensures Add(ShiftedAt(ivs, s, i), back).ratio.num != 0
      {
        if i >= n - s {
          AddNonzero(ivs[i - (n - s)], ivs[n - 1]);
        }
        AddNonzero(ShiftedAt(ivs, s, i), back);
      }
    }
  }

  /** `(x + q) - (q - a) == x + a`. */
  lemma SubOfDifference(x: Interval, q: Interval, a: Interval)
    requires q.ratio.num != 0 && a.ratio.num != 0
    ensures Sub(q, a).Success? && Sub(q, a).value.ratio.num != 0
    ensures Sub(Add(x, q), Sub(q, a).value) == Success(Add(x, a))
  {
    var na, nq := Neg(a).value, Neg(q).value;
    NegNonzero(a);
    AddNonzero(q, na);
    NegAdd(q, na);
    NegNeg(a);
    calc {
      Add(Add(x, q), Add(nq, a));
      { AddAssociates(x, q, Add(nq, a)); }
      Add(x, Add(q, Add(nq, a)));
      { AddAssociates(q, nq, a); }
      Add(x, Add(Add(q, nq), a));
      { SubSelf(q); AddCommutes(Unison(), a); AddUnison(a); }
      Add(x, a);
    }
  }

  /** Entry `j` of a rotation by `s` followed by a rotation by `len - s`. */
  lemma RotateBackAt(ivs: seq<Interval>, s: int, j: int)
    requires 0 < s < |ivs| && NonzeroRatios(ivs) && 0 <= j < |ivs|
    ensures Rotated(ivs, s).Success?
    ensures var r1 := Rotated(ivs, s).value;
      Sub(ShiftedAt(r1, |ivs| - s, j), r1[|ivs| - s - 1]) == Success(ivs[j])
  {
    var n := |ivs|;
    RotatedNonzero(ivs, s);
    var r1 := Rotated(ivs, s).value;
    var t := n - s;
    PyModSmall(s, n);
    var a, last := ivs[s - 1], ivs[n - 1];
    var back := Neg(a).value;
    assert r1[t - 1] == Add(last, back);
    RotatedPeriod(ivs, s);
    if j < s {
      assert ShiftedAt(r1, t, j) == Add(Add(ivs[j], last), back);
      // ((ivs[j] + last) - a) - (last - a) == (ivs[j] + last) - last
      SubSub(Add(ivs[j], last), last, a);
      SubAdd(ivs[j], last);
    } else {
      assert ShiftedAt(r1, t, j) == Add(Add(ivs[j], back), last);
      SubOfDifference(Add(ivs[j], back), last, a);
      AddSub(ivs[j], a);
    }
  }

  /** Rotating by `s` and then by `len - s` gives the original intervals back. */
  lemma RotateBack(ivs: seq<Interval>, s: int)
    requires 0 < s < |ivs| && NonzeroRatios(ivs)
    ensures Rotated(ivs, s).Success?
    ensures Rotated(Rotated(ivs, s).value, |ivs| - s) == Success(ivs)
  {
    var n := |ivs|;
    RotatedNonzero(ivs, s);
    var r1 := Rotated(ivs, s).value;
    var t := n - s;
    PyModSmall(t, n);
    RotatedNonzero(r1, t);
    var r2 := Rotated(r1, t).value;
    forall j | 0 <= j < n
      ensures r2[j] == ivs[j]
    {
      RotateBackAt(ivs, s, j);
    }
    assert r2 == ivs;
  }

  /** A `ScaleType` holding its list of intervals. */
  class ScaleType {
    var intervals: seq<Interval>

    constructor(intervals: seq<Interval>)
      ensures this.intervals == intervals
    {
      this.intervals := intervals;
    }

    /**
     * `rotate(steps, in_place)`: with `in_place` the intervals are replaced and
     * this scale returned; otherwise this scale is left alone and a new one returned.
     */
    method Rotate(steps: int, inPlace: bool) returns (r: Result<ScaleType, IntervalError>)
      modifies this
      ensures Rotated(old(intervals), steps).Failure? ==>
        r == Failure(ZeroDivisionError) && intervals == old(intervals)
      ensures Rotated(old(intervals), steps).Success? ==> r.Success?
      ensures r.Success? && inPlace ==> r.value == this && intervals == Rotated(old(intervals), steps).value
      ensures r.Success? && !inPlace ==>
        fresh(r.value) && r.value.intervals == Rotated(old(intervals), steps).value && intervals == old(intervals)
    {
      var ivs := intervals;
      var n := |ivs|;
      if n == 0 {
        return Failure(ZeroDivisionError);
      }
      var s := MathUtil.PyMod(steps, n);
      var rotated: seq<Interval>;
      if s == 0 {
        rotated := ivs;
      } else {
        var shifted := ivs[s..];
        var i := 0;
        while i < s
          invariant 0 <= i <= s
          invariant |shifted| == n - s + i
          invariant forall k :: 0 <= k < |shifted| ==> shifted[k] == ShiftedAt(ivs, s, k)
        {
          shifted := shifted + [Add(ivs[i], ivs[n - 1])];
          i := i + 1;
        }
        rotated := [];
        var j := 0;
        while j < n
          invariant 0 <= j <= n
          invariant |rotated| == j
          invariant j > 0 ==> ivs[s - 1].ratio.num != 0
          invariant forall k :: 0 <= k < j ==> rotated[k] == Add(ShiftedAt(ivs, s, k), Neg(ivs[s - 1]).value)
        {
          var d := Sub(shifted[j], ivs[s - 1]);
          if d.Failure? {
            return Failure(d.error);
          }
          rotated := rotated + [d.value];
          j := j + 1;
        }
      }
      if inPlace {
        intervals := rotated;
        r := Success(this);
      } else {
        var copy := new ScaleType(rotated);
        r := Success(copy);
      }
    }
  }

  /** `x if isinstance(x, PitchInterval) else PitchInterval.parse(x)`. */
  function Coerce(v: PyValue, floatOfText: string -> Option<real>,
                  fractionOfText: string -> Result<F.Fraction, IntervalError>): Result<Interval, IntervalError>
  {
    if v.IntervalValue? then Success(v.p) else Parse(v, floatOfText, fractionOfText)
  }

  /** The intervals `ScaleType(*values)` holds, or the first error of `parse`. */
  function CoerceAll(vs: seq<PyValue>, floatOfText: string -> Option<real>,
                     fractionOfText: string -> Result<F.Fraction, IntervalError>): Result<seq<Interval>, IntervalError>
  {
    if vs == [] then Success([])
    else
      var first :- Coerce(vs[0], floatOfText, fractionOfText);
      var rest :- CoerceAll(vs[1..], floatOfText, fractionOfText);
      Success([first] + rest)
  }

  /** Construction succeeds when every value does, and then keeps one interval per value, in order. */
  lemma {:induction false} CoerceAllPerValue(vs: seq<PyValue>, floatOfText: string -> Option<real>,
                                             fractionOfText: string -> Result<F.Fraction, IntervalError>)
    ensures CoerceAll(vs, floatOfText, fractionOfText).Success? <==>
      forall i :: 0 <= i < |vs| ==> Coerce(vs[i], floatOfText, fractionOfText).Success?
    ensures CoerceAll(vs, floatOfText, fractionOfText).Success? ==>
      |CoerceAll(vs, floatOfText, fractionOfText).value| == |vs| &&
      forall i :: 0 <= i < |vs| ==>
        CoerceAll(vs, floatOfText, fractionOfText).value[i] == Coerce(vs[i], floatOfText, fractionOfText).value
  {
    if vs != [] {
      CoerceAllPerValue(vs[1..], floatOfText, fractionOfText);
      assert forall i :: 1 <= i < |vs| ==> vs[1..][i - 1] == vs[i];
      if forall i :: 0 <= i < |vs| ==> Coerce(vs[i], floatOfText, fractionOfText).Success? {
        assert forall i :: 0 <= i < |vs| - 1 ==> Coerce(vs[1..][i], floatOfText, fractionOfText).Success?;
      }
    }
  }

  /** Intervals are kept as they are: a scale of intervals holds exactly those intervals. */
  lemma CoerceIntervals(ivs: seq<Interval>, floatOfText: string -> Option<real>,
                        fractionOfText: string -> Result<F.Fraction, IntervalError>)
    ensures CoerceAll(seq(|ivs|, i requires 0 <= i < |ivs| => IntervalValue(ivs[i])), floatOfText, fractionOfText)
      == Success(ivs)
  {
    var vs := seq(|ivs|, i requires 0 <= i < |ivs| => IntervalValue(ivs[i]));
    assert forall i :: 0 <= i < |vs| ==> Coerce(vs[i], floatOfText, fractionOfText) == Success(ivs[i]);
    CoerceAllPerValue(vs, floatOfText, fractionOfText);
    assert CoerceAll(vs, floatOfText, fractionOfText).value == ivs;
  }

  /** `ScaleType(*values)`. */
  method NewScaleType(vs: seq<PyValue>, floatOfText: string -> Option<real>,
                      fractionOfText: string -> Result<F.Fraction, IntervalError>)
    returns (r: Result<ScaleType, IntervalError>)
    ensures r.Failure? <==> CoerceAll(vs, floatOfText, fractionOfText).Failure?
    ensures r.Success? ==> fresh(r.value) && r.value.intervals == CoerceAll(vs, floatOfText, fractionOfText).value
  {
    var ivs := CoerceAll(vs, floatOfText, fractionOfText);
    if ivs.Failure? {
      return Failure(ivs.error);
    }
    var st := new ScaleType(ivs.value);
    r := Success(st);
  }

  // ---------------------------------------------------------------------------
  // `load_from_scala`: the loop over the lines of a Scala file.
  // ---------------------------------------------------------------------------

  /** The whitespace `str.strip()` removes, in the ASCII range. */
  predicate IsSpace(c: char)
  {
    9 <= c as int <= 13 || 28 <= c as int <= 32
  }

  /** `s` with leading whitespace removed. */
  function StripStart(s: string): (r: string)
    ensures |r| <= |s|
  {
    if s != [] && IsSpace(s[0]) then StripStart(s[1..]) else s
  }

  /** `s` with trailing whitespace removed. */
  function StripEnd(s: string): (r: string)
    ensures |r| <= |s|
  {
    if s != [] && IsSpace(s[|s| - 1]) then StripEnd(s[..|s| - 1]) else s
  }

  /** `s.strip()`. */
  function Strip(s: string): string
  {
    StripEnd(StripStart(s))
  }

  /** Stripping the start cuts a run of whitespace and stops at a character that is not. */
  lemma {:induction false} StripStartSpec(s: string)
    ensures StripStart(s) == s[|s| - |StripStart(s)|..]
    ensures StripStart(s) != [] ==> !IsSpace(StripStart(s)[0])
    ensures forall i :: 0 <= i < |s| - |StripStart(s)| ==> IsSpace(s[i])
  {
    if s != [] && IsSpace(s[0]) {
      StripStartSpec(s[1..]);
    }
  }

  /** Stripping the end cuts a run of whitespace and stops at a character that is not. */
  lemma {:induction false} StripEndSpec(s: string)
    ensures StripEnd(s) == s[..|StripEnd(s)|]
    ensures StripEnd(s) != [] ==> !IsSpace(StripEnd(s)[|StripEnd(s)| - 1])
    ensures forall i :: |StripEnd(s)| <= i < |s| ==> IsSpace(s[i])
  {
    if s != [] && IsSpace(s[|s| - 1]) {
      StripEndSpec(s[..|s| - 1]);
    }
  }

  /** The stripped line is a contiguous slice of the line, starting where the leading whitespace ends. */
  lemma StripSlice(s: string)
    ensures |s| - |StripStart(s)| + |Strip(s)| <= |s|
    ensures Strip(s) == s[|s| - |StripStart(s)|..|s| - |StripStart(s)| + |Strip(s)|]
  {
    var t := StripStart(s);
    var u := StripEnd(t);
    StripStartSpec(s);
    StripEndSpec(t);
    var i := |s| - |t|;
    assert t == s[i..] && u == t[..|u|];
  }

  /** Everything `strip()` cuts before the stripped line is whitespace. */
  lemma StripLeading(s: string)
    ensures forall k :: 0 <= k < |s| - |StripStart(s)| ==> IsSpace(s[k])
  {
    StripStartSpec(s);
  }

  /** Everything `strip()` cuts after the stripped line is whitespace. */
  lemma StripTrailing(s: string)
    ensures forall k :: |s| - |StripStart(s)| + |Strip(s)| <= k < |s| ==> IsSpace(s[k])
  {
    var t := StripStart(s);
    var u := StripEnd(t);
    var i := |s| - |t|;
    StripStartSpec(s);
    StripEndSpec(t);
    forall k | i + |u| <= k < |s| ensures IsSpace(s[k]) {
      assert s[k] == t[k - i];
    }
  }

  /** A non-empty stripped line has no whitespace at either end. */
  lemma StripEnds(s: string)
    ensures Strip(s) != [] ==> !IsSpace(Strip(s)[0]) && !IsSpace(Strip(s)[|Strip(s)| - 1])
  {
    var t := StripStart(s);
    var u := StripEnd(t);
    StripStartSpec(s);
    StripEndSpec(t);
    if u != [] {
      assert u[0] == t[0];
    }
  }

  /** A string with no whitespace at either end is its own strip. */
  lemma StripClean(s: string)
    requires s != [] ==> !IsSpace(s[0]) && !IsSpace(s[|s| - 1])
    ensures Strip(s) == s
  {
  }

  /** `int(s)`: optional surrounding whitespace, an optional sign and at least one decimal digit. */
  function IntOf(s: string): (r: Result<int, IntervalError>)
    ensures r.Failure? ==> r.error == ValueError
  {
    var t := Strip(s);
    var digits := if t != [] && (t[0] == '-' || t[0] == '+') then t[1..] else t;
    if digits == [] || !Builtins.AllDigits(digits) then Failure(ValueError)
    else if t[0] == '-' then Success(-(Builtins.DigitsValue(digits) as int))
    else Success(Builtins.DigitsValue(digits))
  }

  /** Reading back the count `str` wrote gives it: `int(str(n)) == n`. */
  lemma IntOfIntToString(n: int)
    ensures IntOf(Builtins.IntToString(n)) == Success(n)
  {
    var t := Builtins.IntToString(n);
    if n < 0 {
      Builtins.DigitsValueOfNatToString(-n);
      assert t[1..] == Builtins.NatToString(-n);
    } else {
      Builtins.DigitsValueOfNatToString(n);
    }
    StripClean(t);
  }

  /** The characters a pitch entry keeps: `char.isnumeric() or char in (".", "/")`. */
  predicate Kept(c: char)
  {
    Builtins.IsDigit(c) || c == '.' || c == '/'
  }

  /** A pitch line cut at its first character that is not kept. */
  function Truncate(line: string): (r: string)
    ensures |r| <= |line| && r == line[..|r|]
    ensures forall i :: 0 <= i < |r| ==> Kept(r[i])
    ensures |r| < |line| ==> !Kept(line[|r|])
  {
    if line == [] || !Kept(line[0]) then [] else [line[0]] + Truncate(line[1..])
  }

  /** The cut found by scanning is the truncation: the longest prefix of kept characters. */
  lemma {:induction false} TruncateAt(line: string, i: int)
    requires 0 <= i <= |line|
    requires forall k :: 0 <= k < i ==> Kept(line[k])
    requires i == |line| || !Kept(line[i])
    ensures Truncate(line) == line[..i]
  {
    if i > 0 {
      assert forall k :: 0 <= k < i - 1 ==> line[1..][k] == line[k + 1];
      TruncateAt(line[1..], i - 1);
      assert line[..i] == [line[0]] + line[1..][..i - 1];
    }
  }

  /** A line the loop ignores: blank once stripped, or a comment starting with '!'. */
  predicate Skipped(line: string)
  {
    Strip(line) == [] || Strip(line)[0] == '!'
  }

  /** What the loop has read so far. */
  datatype ScalaState = ScalaState(description: Option<string>, numSteps: Option<int>, entries: seq<string>)

  function Unread(): ScalaState
  {
    ScalaState(None, None, [])
  }

  /** One pass of the loop body: skip, take the description, take the step count, or add an entry. */
  function ScalaStep(st: ScalaState, line: string): Result<ScalaState, IntervalError>
  {
    var t := Strip(line);
    if Skipped(line) then Success(st)
    else if st.description.None? then Success(st.(description := Some(t)))
    else if st.numSteps.None? then
      var n :- IntOf(t);
      Success(st.(numSteps := Some(n)))
    else Success(st.(entries := st.entries + [Truncate(t)]))
  }

  /** The loop over the remaining lines. */
  function ScalaFold(st: ScalaState, lines: seq<string>): Result<ScalaState, IntervalError>
    decreases |lines|
  {
    if lines == [] then Success(st)
    else
      var next :- ScalaStep(st, lines[0]);
      ScalaFold(next, lines[1..])
  }

  /** The lines that are neither blank nor comments, stripped. */
  function Content(lines: seq<string>): seq<string>
  {
    if lines == [] then []
    else if Skipped(lines[0]) then Content(lines[1..])
    else [Strip(lines[0])] + Content(lines[1..])
  }

  /** Every line of `lines` truncated. */
  function TruncateAll(lines: seq<string>): (r: seq<string>)
    ensures |r| == |lines|
    ensures forall i :: 0 <= i < |lines| ==> r[i] == Truncate(lines[i])
  {
    if lines == [] then [] else [Truncate(lines[0])] + TruncateAll(lines[1..])
  }

  /**
   * What a Scala file says, read off its content lines: the first is the
   * description, the second the step count, and every later one a pitch entry.
   */
  function ScalaContent(content: seq<string>): Result<ScalaState, IntervalError>
  {
    if |content| == 0 then Success(Unread())
    else if |content| == 1 then Success(ScalaState(Some(content[0]), None, []))
    else
      var n :- IntOf(content[1]);
      Success(ScalaState(Some(content[0]), Some(n), TruncateAll(content[2..])))
  }

  /** Once the header is read, each content line adds its truncation. */
  lemma {:induction false} FoldEntries(st: ScalaState, lines: seq<string>)
    requires st.description.Some? && st.numSteps.Some?
    ensures ScalaFold(st, lines) == Success(st.(entries := st.entries + TruncateAll(Content(lines))))
    decreases |lines|
  {
    if lines == [] {
      assert st.entries + TruncateAll(Content(lines)) == st.entries;
    } else if Skipped(lines[0]) {
      FoldEntries(st, lines[1..]);
    } else {
      var x, rest := Truncate(Strip(lines[0])), TruncateAll(Content(lines[1..]));
      var next := st.(entries := st.entries + [x]);
      calc {
        ScalaFold(st, lines);
      == { FoldEntryLine(st, lines); }
        ScalaFold(next, lines[1..]);
      == { FoldEntries(next, lines[1..]); }
        Success(st.(entries := (st.entries + [x]) + rest));
      == { assert (st.entries + [x]) + rest == st.entries + ([x] + rest); ContentEntryLine(lines); }
        Success(st.(entries := st.entries + TruncateAll(Content(lines))));
      }
    }
  }

  /** Once the header is read, the loop appends an entry line's truncation and goes on. */
  lemma FoldEntryLine(st: ScalaState, lines: seq<string>)
    requires st.description.Some? && st.numSteps.Some?
    requires lines != [] && !Skipped(lines[0])
    ensures ScalaFold(st, lines) == ScalaFold(st.(entries := st.entries + [Truncate(Strip(lines[0]))]), lines[1..])
  {
    assert ScalaStep(st, lines[0]) == Success(st.(entries := st.entries + [Truncate(Strip(lines[0]))]));
  }

  /** An entry line contributes its truncation ahead of the later content lines. */
  lemma ContentEntryLine(lines: seq<string>)
    requires lines != [] && !Skipped(lines[0])
    ensures TruncateAll(Content(lines)) == [Truncate(Strip(lines[0]))] + TruncateAll(Content(lines[1..]))
  {
    assert Content(lines) == [Strip(lines[0])] + Content(lines[1..]);
  }

  /** After the description, the next content line is the step count. */
  lemma {:induction false} FoldCount(st: ScalaState, lines: seq<string>)
    requires st.description.Some? && st.numSteps.None? && st.entries == []
    ensures ScalaFold(st, lines) ==
      if Content(lines) == [] then Success(st)
      else
        match IntOf(Content(lines)[0])
        case Failure(e) => Failure(e)
        case Success(n) => Success(ScalaState(st.description, Some(n), TruncateAll(Content(lines)[1..])))
    decreases |lines|
  {
    if lines != [] {
      if Skipped(lines[0]) {
        FoldCount(st, lines[1..]);
      } else if IntOf(Strip(lines[0])).Success? {
        var next := ScalaStep(st, lines[0]).value;
        FoldEntries(next, lines[1..]);
        assert Content(lines)[0] == Strip(lines[0]);
        assert Content(lines)[1..] == Content(lines[1..]);
        assert next.entries + TruncateAll(Content(lines[1..])) == TruncateAll(Content(lines[1..]));
      }
    }
  }

  /** The loop reads exactly what `ScalaContent` says of the content lines. */
  lemma {:induction false} FoldContent(lines: seq<string>)
    ensures ScalaFold(Unread(), lines) == ScalaContent(Content(lines))
  {
    if lines != [] {
      if Skipped(lines[0]) {
        FoldContent(lines[1..]);
      } else {
        var next := ScalaStep(Unread(), lines[0]).value;
        FoldCount(next, lines[1..]);
        var c := Content(lines);
        assert c[1..] == Content(lines[1..]);
        if |c| >= 2 {
          assert c[1..][1..] == c[2..];
        }
      }
    }
  }

  /** The result of the loop and the "wrong number of pitches" warning. */
  datatype ScalaFile = ScalaFile(state: ScalaState, wrongCount: bool)

  /**
   * The line loop of `load_from_scala`, over the file's lines already split at
   * newlines: a ValueError when the step count is not an int, and a warning
   * when the number of entries differs from it.
   */
  method LoadScalaLines(lines: seq<string>) returns (r: Result<ScalaFile, IntervalError>)
    ensures r.Failure? <==> ScalaContent(Content(lines)).Failure?
    ensures r.Failure? ==> r.error == ValueError
    ensures r.Success? ==> r.value.state == ScalaContent(Content(lines)).value
    ensures r.Success? ==> (r.value.wrongCount <==> r.value.state.numSteps != Some(|r.value.state.entries|))
  {
    FoldContent(lines);
    var description: Option<string> := None;
    var numSteps: Option<int> := None;
    var entries: seq<string> := [];
    var k := 0;
    while k < |lines|
      invariant 0 <= k <= |lines|
      invariant ScalaFold(Unread(), lines) == ScalaFold(ScalaState(description, numSteps, entries), lines[k..])
    {
      assert lines[k..][0] == lines[k] && lines[k..][1..] == lines[k + 1..];
      var line := Strip(lines[k]);
      if line == [] || line[0] == '!' {
        // a blank line or a comment
      } else if description.None? {
        description := Some(line);
      } else if numSteps.None? {
        var n := IntOf(line);
        if n.Failure? {
          return Failure(n.error);
        }
        numSteps := Some(n.value);
      } else {
        var i := 0;
        while i < |line| && Kept(line[i])
          invariant 0 <= i <= |line|
          invariant forall j :: 0 <= j < i ==> Kept(line[j])
        {
          i := i + 1;
        }
        TruncateAt(line, i);
        entries := entries + [line[..i]];
      }
      k := k + 1;
    }
    var st := ScalaState(description, numSteps, entries);
    r := Success(ScalaFile(st, numSteps != Some(|entries|)));
  }

  /** A file with a header, a negative cents entry and an octave: the minus sign cuts the entry to nothing. */
  lemma NegativeCentsEntry()
    ensures ScalaContent(Content(["! test.scl", "!", "Test scale", " 2", "-21.5", "2/1"]))
      == Success(ScalaState(Some("Test scale"), Some(2), ["", "2/1"]))
  {
    var lines := ["! test.scl", "!", "Test scale", " 2", "-21.5", "2/1"];
    StripClean(lines[0]);
    StripClean(lines[1]);
    StripClean(lines[2]);
    StripClean(lines[4]);
    StripClean(lines[5]);
    assert StripStart(" 2") == "2" by {
      assert " 2"[1..] == "2";
    }
    assert Strip(lines[3]) == "2";
    assert Content(lines[5..]) == ["2/1"] by {
      assert lines[5..][1..] == [];
    }
    assert Content(lines[4..]) == ["-21.5", "2/1"] by {
      assert lines[4..][1..] == lines[5..];
    }
    assert Content(lines[3..]) == ["2", "-21.5", "2/1"] by {
      assert lines[3..][1..] == lines[4..];
    }
    assert Content(lines[2..]) == ["Test scale", "2", "-21.5", "2/1"] by {
      assert lines[2..][1..] == lines[3..];
    }
    assert Content(lines) == Content(lines[2..]) by {
      assert lines[1..][1..] == lines[2..];
    }
    assert IntOf("2") == Success(2) by {
      StripClean("2");
      assert "2"[..0] == [];
    }
    assert Truncate("2/1") == "2/1" by {
      TruncateAt("2/1", 3);
    }
    assert Truncate("-21.5") == "" by {
      TruncateAt("-21.5", 0);
    }
    assert TruncateAll(["-21.5", "2/1"]) == ["", "2/1"] by {
      assert ["-21.5", "2/1"][1..] == ["2/1"];
      assert ["2/1"][1..] == [];
    }
  }
}
