/**
 * `PitchInterval`: a cents displacement followed by a frequency ratio. Cents
 * add and ratios multiply, so intervals compose like the product of the
 * additive reals and the multiplicative rationals. The same class appears in
 * `pitch/scale.py` and, in an older copy, in `pitch/interval.py`; both are
 * modelled here. Cents are Python floats and are modelled as exact reals.
 */
module PitchIntervals {
  import opened Wrappers
  import Builtins
  import F = Fractions

  datatype Interval = Interval(cents: real, ratio: F.Fraction)

  /** The exceptions the modelled code raises. */
  datatype IntervalError =
    | ValueError
    | TypeError
    | IndexError
    | ZeroDivisionError
    | Evaluated   // the string goes to `eval`, whose result is not modelled

  /** The value of a fraction as a real number. */
  function Value(f: F.Frac): real
    requires f.den != 0
  {
    f.num as real / f.den as real
  }

  /** The unison: no cents and ratio 1. */
  function Unison(): Interval
  {
    Interval(0.0, F.One())
  }

  /** `-p`: negated cents and the reciprocal ratio, a ZeroDivisionError for ratio 0. */
  function Neg(p: Interval): (r: Result<Interval, IntervalError>)
    ensures r.Failure? <==> p.ratio.num == 0
    ensures r.Failure? ==> r.error == ZeroDivisionError
    ensures r.Success? ==> r.value.cents == -p.cents && F.Names(r.value.ratio, p.ratio.den, p.ratio.num)
  {
    match F.Inv(p.ratio)
    case Failure(_) => Failure(ZeroDivisionError)
    case Success(i) => Success(Interval(-p.cents, i))
  }

  /** `p + q` for two intervals: cents add and ratios multiply. */
  function Add(p: Interval, q: Interval): (r: Interval)
    ensures r.cents == p.cents + q.cents
    ensures F.Names(r.ratio, p.ratio.num * q.ratio.num, p.ratio.den * q.ratio.den)
  {
    Interval(p.cents + q.cents, F.Mul(p.ratio, q.ratio))
  }

  /** `p - q`, which is `p + (-q)`. */
  function Sub(p: Interval, q: Interval): (r: Result<Interval, IntervalError>)
    ensures r.Failure? <==> q.ratio.num == 0
    ensures r.Success? ==> r.value == Add(p, Neg(q).value)
  {
    var n :- Neg(q);
    Success(Add(p, n))
  }

  /** The Python values `parse` and `+` distinguish. */
  datatype PyValue =
    | IntervalValue(p: Interval)
    | IntValue(i: int)
    | FractionValue(f: F.Fraction)
    | FloatValue(x: F.Fraction)              // a finite float, by its exact rational value
    | TextValue(s: string)
    | SizedValue(items: seq<PyValue>)        // a list, tuple or other object with `__len__`
    | DictValue(cents: real, ratio: seq<int>) // `{"cents": c, "ratio": [...]}`
    | OtherValue                              // anything else, None included

  /** `p + other`: a ValueError unless `other` is a `PitchInterval`. */
  function AddValue(p: Interval, other: PyValue): (r: Result<Interval, IntervalError>)
    ensures r.Success? <==> other.IntervalValue?
    ensures r.Failure? ==> r.error == ValueError
    ensures r.Success? ==> r.value == Add(p, other.p)
  {
    if other.IntervalValue? then Success(Add(p, other.p)) else Failure(ValueError)
  }

  /** `Fraction(*args)` for a list of ints: 0, `Fraction(n)`, `Fraction(n, d)`, or a TypeError. */
  function FractionOfArgs(args: seq<int>): (r: Result<F.Fraction, IntervalError>)
    ensures |args| == 2 && args[1] != 0 ==> r.Success? && F.Names(r.value, args[0], args[1])
    ensures |args| == 2 && args[1] == 0 ==> r == Failure(ZeroDivisionError)
    ensures |args| > 2 ==> r == Failure(TypeError)
  {
    if |args| == 0 then Success(F.FromInt(0))
    else if |args| == 1 then Success(F.FromInt(args[0]))
    else if |args| == 2 then
      (match F.Make(args[0], args[1])
       case Failure(_) => Failure(ZeroDivisionError)
       case Success(f) => Success(f))
    else Failure(TypeError)
  }

  /** `_to_dict` / `_to_json`: the cents and the ratio's numerator and denominator. */
  function ToDict(p: Interval): PyValue
  {
    DictValue(p.cents, [p.ratio.num, p.ratio.den])
  }

  /** `_from_dict` / `_from_json` on the values of a dict: the ratio list goes through `Fraction(*ratio)`. */
  function FromDict(cents: real, ratio: seq<int>): (r: Result<Interval, IntervalError>)
    ensures r.Success? ==> r.value.cents == cents
  {
    var f :- FractionOfArgs(ratio);
    Success(Interval(cents, f))
  }

  /** `float(v)`, with `float` of a string left to the given converter. */
  function FloatOf(v: PyValue, floatOfText: string -> Option<real>): Result<real, IntervalError>
  {
    match v
    case IntValue(i) => Success(i as real)
    case FractionValue(f) => Success(Value(f))
    case FloatValue(x) => Success(Value(x))
    case TextValue(s) => if floatOfText(s).Some? then Success(floatOfText(s).value) else Failure(ValueError)
    case _ => Failure(TypeError)
  }

  /** `Fraction(v)`, with `Fraction` of a string left to the given converter. */
  function FractionOf(v: PyValue, fractionOfText: string -> Result<F.Fraction, IntervalError>)
    : Result<F.Fraction, IntervalError>
  {
    match v
    case IntValue(i) => Success(F.FromInt(i))
    case FractionValue(f) => Success(f)
    case FloatValue(x) => Success(x)
    case TextValue(s) => fractionOfText(s)
    case _ => Failure(TypeError)
  }

  /** `s.split(c)`: the pieces between the occurrences of `c`. */
  function Split(s: string, c: char): (r: seq<string>)
    ensures |r| > 0
  {
    if s == [] then [[]]
    else
      var rest := Split(s[1..], c);
      if s[0] == c then [[]] + rest else [[s[0]] + rest[0]] + rest[1..]
  }

  /** How often `c` occurs in `s`. */
  function Count(s: string, c: char): nat
  {
    if s == [] then 0 else (if s[0] == c then 1 else 0) + Count(s[1..], c)
  }

  /** Splitting gives one piece more than there are separators, none holding a separator. */
  lemma {:induction false} SplitPieces(s: string, c: char)
    ensures |Split(s, c)| == Count(s, c) + 1
    ensures forall i :: 0 <= i < |Split(s, c)| ==> c !in Split(s, c)[i]
  {
    if s != [] {
      SplitPieces(s[1..], c);
    }
  }

  /** Joining the pieces with the separator gives the string back. */
  lemma {:induction false} SplitJoin(s: string, c: char)
    ensures Builtins.Join([c], Split(s, c)) == s
  {
    if s != [] {
      var rest := Split(s[1..], c);
      SplitJoin(s[1..], c);
      if s[0] == c {
        assert ([[]] + rest)[1..] == rest;
      } else {
        var r := [[s[0]] + rest[0]] + rest[1..];
        if |rest| == 1 {
          assert r == [[s[0]] + rest[0]];
        } else {
          assert r[1..] == rest[1..];
          assert Builtins.Join([c], rest) == rest[0] + [c] + Builtins.Join([c], rest[1..]);
        }
      }
    }
  }

  /**
   * `PitchInterval.parse(representation)`, in the order of its branches:
   * a dict, a string (with a comma, with a slash, otherwise `eval`), a sized
   * value, a float, an int or Fraction, and a ValueError for anything else.
   */
  function Parse(v: PyValue, floatOfText: string -> Option<real>,
                 fractionOfText: string -> Result<F.Fraction, IntervalError>): (r: Result<Interval, IntervalError>)
    ensures v.FloatValue? ==> r == Success(Interval(Value(v.x), F.One()))
    ensures v.IntValue? ==> r == Success(Interval(0.0, F.FromInt(v.i)))
    ensures v.FractionValue? ==> r == Success(Interval(0.0, v.f))
    ensures v.IntervalValue? || v.OtherValue? ==> r == Failure(ValueError)
    ensures v.SizedValue? && |v.items| == 0 ==> r == Failure(IndexError)
    ensures v.TextValue? && Count(v.s, ',') > 1 ==> r == Failure(ValueError)
    ensures v.TextValue? && ',' !in v.s && '/' !in v.s ==> r == Failure(Evaluated)
    ensures v.TextValue? && ',' !in v.s && '/' in v.s ==>
      r == match fractionOfText(v.s)
           case Success(f) => Success(Interval(0.0, f))
           case Failure(e) => Failure(e)
    ensures v.SizedValue? && |v.items| > 0 && FloatOf(v.items[0], floatOfText).Failure? ==>
      r == Failure(FloatOf(v.items[0], floatOfText).error)
    ensures v.SizedValue? && |v.items| == 1 && FloatOf(v.items[0], floatOfText).Success? ==> r == Failure(IndexError)
    ensures v.SizedValue? && |v.items| >= 2 && FloatOf(v.items[0], floatOfText).Success? ==>
      r == match FractionOf(v.items[1], fractionOfText)
           case Success(f) => Success(Interval(FloatOf(v.items[0], floatOfText).value, f))
           case Failure(e) => Failure(e)
  {
    match v
    case DictValue(c, ratio) => FromDict(c, ratio)
    case TextValue(s) =>
      CountMember(s, ',');
      if ',' in s then
        SplitPieces(s, ',');
        var parts := Split(s, ',');
        if |parts| != 2 then Failure(ValueError)
        else
          var c :- FloatOf(TextValue(parts[0]), floatOfText);
          var f :- fractionOfText(parts[1]);
          Success(Interval(c, f))
      else if '/' in s then
        var f :- fractionOfText(s);
        Success(Interval(0.0, f))
      else Failure(Evaluated)
    case SizedValue(items) =>
      if |items| == 0 then Failure(IndexError)
      else
        var c :- FloatOf(items[0], floatOfText);
        if |items| < 2 then Failure(IndexError)
        else
          var f :- FractionOf(items[1], fractionOfText);
          Success(Interval(c, f))
    case FloatValue(x) => Success(Interval(Value(x), F.One()))
    case IntValue(i) => Success(Interval(0.0, F.FromInt(i)))
    case FractionValue(f) => Success(Interval(0.0, f))
    case _ => Failure(ValueError)
  }

  /** Parsing what `_to_dict` wrote gives the same interval back, whatever the string converters. */
  lemma DictRoundTrip(p: Interval, floatOfText: string -> Option<real>,
                      fractionOfText: string -> Result<F.Fraction, IntervalError>)
    ensures Parse(ToDict(p), floatOfText, fractionOfText) == Success(p)
  {
    F.MakeNormal(p.ratio);
  }

  /** A (cents, ratio) pair parses to exactly that interval. */
  lemma PairRoundTrip(x: F.Fraction, ratio: F.Fraction, floatOfText: string -> Option<real>,
                      fractionOfText: string -> Result<F.Fraction, IntervalError>)
    ensures Parse(SizedValue([FloatValue(x), FractionValue(ratio)]), floatOfText, fractionOfText)
      == Success(Interval(Value(x), ratio))
  {
  }

  /** A string with exactly one comma parses its two sides with `float` and `Fraction`. */
  lemma CommaText(s: string, floatOfText: string -> Option<real>,
                  fractionOfText: string -> Result<F.Fraction, IntervalError>)
    requires Count(s, ',') == 1
    ensures var parts := Split(s, ',');
      && |parts| == 2 && parts[0] + "," + parts[1] == s
      && (floatOfText(parts[0]).None? ==> Parse(TextValue(s), floatOfText, fractionOfText) == Failure(ValueError))
      && (floatOfText(parts[0]).Some? && fractionOfText(parts[1]).Success? ==>
            Parse(TextValue(s), floatOfText, fractionOfText)
              == Success(Interval(floatOfText(parts[0]).value, fractionOfText(parts[1]).value)))
      && (floatOfText(parts[0]).Some? && fractionOfText(parts[1]).Failure? ==>
            Parse(TextValue(s), floatOfText, fractionOfText) == Failure(fractionOfText(parts[1]).error))
  {
    SplitPieces(s, ',');
    SplitJoin(s, ',');
    var parts := Split(s, ',');
    assert ',' in s by {
      CountMember(s, ',');
    }
    assert parts[1..] == [parts[1]];
  }

  /** A character that is counted occurs. */
  lemma {:induction false} CountMember(s: string, c: char)
    ensures Count(s, c) > 0 <==> c in s
  {
    if s != [] {
      CountMember(s[1..], c);
      assert s == [s[0]] + s[1..];
    }
  }

  /** Negation undoes itself on intervals with a nonzero ratio. */
  lemma NegNeg(p: Interval)
    requires p.ratio.num != 0
    ensures Neg(p).Success? && Neg(Neg(p).value) == Success(p)
  {
    F.InvInvolutive(p.ratio);
  }

  /** Addition commutes. */
  lemma AddCommutes(p: Interval, q: Interval)
    ensures Add(p, q) == Add(q, p)
  {
    F.MulCommutes(p.ratio, q.ratio);
  }

  /** Addition associates. */
  lemma AddAssociates(p: Interval, q: Interval, s: Interval)
    ensures Add(Add(p, q), s) == Add(p, Add(q, s))
  {
    F.MulAssociates(p.ratio, q.ratio, s.ratio);
  }

  /** The unison adds nothing. */
  lemma AddUnison(p: Interval)
    ensures Add(p, Unison()) == p
  {
    F.MulOne(p.ratio);
  }

  /** An interval minus itself is the unison. */
  lemma SubSelf(p: Interval)
    requires p.ratio.num != 0
    ensures Sub(p, p) == Success(Unison())
  {
    F.MulInverse(p.ratio);
  }

  /** Subtracting what was added gives the interval back. */
  lemma SubAdd(p: Interval, q: Interval)
    requires q.ratio.num != 0
    ensures Sub(Add(p, q), q) == Success(p)
  {
    var n := Neg(q).value;
    AddAssociates(p, q, n);
    SubSelf(q);
    AddUnison(p);
  }

  /** Adding a difference: `(p - q) + q == p`. */
  lemma AddSub(p: Interval, q: Interval)
    requires q.ratio.num != 0
    ensures Sub(p, q).Success? && Add(Sub(p, q).value, q) == p
  {
    var n := Neg(q).value;
    AddAssociates(p, n, q);
    AddCommutes(n, q);
    SubSelf(q);
    AddUnison(p);
  }

  /** The ratio of a sum is nonzero when both ratios are. */
  lemma AddNonzero(p: Interval, q: Interval)
    requires p.ratio.num != 0 && q.ratio.num != 0
    ensures Add(p, q).ratio.num != 0
  {
    F.InvMul(p.ratio, q.ratio);
  }

  /** Subtraction as a difference of differences: `(p - r) - (q - r) == p - q`. */
  lemma SubSub(p: Interval, q: Interval, r: Interval)
    requires q.ratio.num != 0 && r.ratio.num != 0
    ensures Sub(p, r).Success? && Sub(q, r).Success?
    ensures Sub(q, r).value.ratio.num != 0
    ensures Sub(Sub(p, r).value, Sub(q, r).value) == Sub(p, q)
  {
    var nr, nq := Neg(r).value, Neg(q).value;
    NegNonzero(r);
    AddNonzero(q, nr);
    var qr := Add(q, nr);
    NegAdd(q, nr);
    NegNeg(r);
    // (p - r) - (q - r) == (p + -r) + (-q + r) == p + -q
    calc {
      Add(Add(p, nr), Neg(qr).value);
      { NegAdd(q, nr); }
      Add(Add(p, nr), Add(nq, r));
      { AddAssociates(p, nr, Add(nq, r)); }
      Add(p, Add(nr, Add(nq, r)));
      { AddCommutes(nq, r); AddAssociates(nr, r, nq); }
      Add(p, Add(Add(nr, r), nq));
      { AddCommutes(nr, r); SubSelf(r); }
      Add(p, Add(Unison(), nq));
      { AddCommutes(Unison(), nq); AddUnison(nq); }
      Add(p, nq);
    }
  }

  /** The reciprocal of a nonzero ratio is nonzero. */
  lemma NegNonzero(p: Interval)
    requires p.ratio.num != 0
    ensures Neg(p).Success? && Neg(p).value.ratio.num != 0
  {
    F.InvInvolutive(p.ratio);
  }

  /** Negation of a sum is the sum of the negations. */
  lemma NegAdd(p: Interval, q: Interval)
    requires p.ratio.num != 0 && q.ratio.num != 0
    ensures Add(p, q).ratio.num != 0
    ensures Neg(Add(p, q)) == Success(Add(Neg(p).value, Neg(q).value))
  {
    F.InvMul(p.ratio, q.ratio);
  }

  /** What a dict's "ratio" entry holds: the list `_to_dict` wrote, or the Fraction `_from_dict` put there. */
  datatype RatioEntry = RatioList(args: seq<int>) | RatioFraction(f: F.Fraction)

  /** The dict `_from_dict` receives, with its two keys. */
  class IntervalDict {
    var cents: real
    var ratio: RatioEntry

    constructor(cents: real, ratio: RatioEntry)
      ensures this.cents == cents && this.ratio == ratio
    {
      this.cents := cents;
      this.ratio := ratio;
    }
  }

  /**
   * `_from_dict(json_dict)`: overwrites the dict's "ratio" entry with
   * `Fraction(*ratio)` before building the interval. A dict already read
   * once holds a Fraction there, which `*` cannot unpack: a TypeError.
   */
  method FromDictInPlace(d: IntervalDict) returns (r: Result<Interval, IntervalError>)
    modifies d
    ensures d.cents == old(d.cents)
    ensures old(d.ratio).RatioFraction? ==> r == Failure(TypeError) && d.ratio == old(d.ratio)
    ensures old(d.ratio).RatioList? ==> r == FromDict(d.cents, old(d.ratio).args)
    ensures r.Success? ==> d.ratio == RatioFraction(r.value.ratio)
    ensures r.Failure? ==> d.ratio == old(d.ratio)
  {
    match d.ratio
    case RatioFraction(_) =>
      r := Failure(TypeError);
    case RatioList(args) =>
      var f := FractionOfArgs(args);
      if f.Failure? {
        r := Failure(f.error);
        return;
      }
      d.ratio := RatioFraction(f.value);
      r := Success(Interval(d.cents, f.value));
  }
}
