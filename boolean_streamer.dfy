/**
 * `BooleanStreamer`: a generator function of booleans together with the
 * arguments it is called with. Every iteration calls the generator function
 * afresh, and streamers combine pointwise with `&`, `|` and `~`. The
 * `SieveStreamer` yields the Xenakis sieve of a modulus and its residues.
 *
 * Calling a generator function either fails at once, when its arguments do
 * not bind to its parameters (a TypeError), or returns a generator. What a
 * deterministic generator yields is a stream: a number of values (possibly
 * unbounded), after which it either stops or raises.
 */
module BooleanStreams {
  import opened Wrappers
  import MathUtil

  datatype Length = Finite(n: nat) | Unbounded

  /** `a < b` for lengths: no finite length reaches an unbounded one. */
  predicate Shorter(a: Length, b: Length)
  {
    a.Finite? && (b.Unbounded? || a.n < b.n)
  }

  /** `i` is an index of a stream of this length. */
  predicate Within(i: nat, len: Length)
  {
    len.Unbounded? || i < len.n
  }

  /** The values yielded (`at(i)` for each index within `count`), and whether the generator raises after them. */
  datatype Stream = Stream(count: Length, at: nat -> bool, raises: bool)

  /** A stream that raises before its first value. */
  function Raising(): Stream
  {
    Stream(Finite(0), (i: nat) => false, true)
  }

  /** An unbounded stream of False. */
  function AllFalse(): Stream
  {
    Stream(Unbounded, (i: nat) => false, false)
  }

  /** Two streams that yield the same values and end the same way. */
  ghost predicate Same(s: Stream, t: Stream)
  {
    s.count == t.count && s.raises == t.raises && forall i: nat :: Within(i, s.count) ==> s.at(i) == t.at(i)
  }

  /** A call `f(*args, **kwargs)` of a generator function: the binding fails, or a generator is returned. */
  datatype Call = BindingFails | Generator(stream: Stream)

  /** The values an argument of a generator function can take here. */
  datatype Arg = IntArg(i: int) | FloatArg(x: real) | SizedArg(items: seq<int>) | OtherArg

  /** A float with no fractional part, which `%` and `==` treat like the int of the same value. */
  predicate Integral(x: real)
  {
    x.Floor as real == x
  }

  /** A generator function: what each call `f(*args, **kwargs)` does. */
  type GeneratorFunction = (seq<Arg>, map<string, Arg>) -> Call

  datatype BooleanStreamer = BooleanStreamer(generatorFunction: GeneratorFunction, args: seq<Arg>, kwargs: map<string, Arg>)

  /** What the constructor can be given: a streamer, a generator function, or any other callable. */
  datatype Source = FromStreamer(b: BooleanStreamer) | FromGenerator(g: GeneratorFunction) | FromOther

  datatype StreamError = ValueError

  /** `BooleanStreamer(generator_function, *args, **kwargs)`. */
  function New(source: Source, args: seq<Arg>, kwargs: map<string, Arg>): (r: Result<BooleanStreamer, StreamError>)
    ensures r.Failure? <==> source.FromOther?
    ensures source.FromGenerator? ==> r == Success(BooleanStreamer(source.g, args, kwargs))
    ensures source.FromStreamer? ==> r.Success? && r.value.generatorFunction == source.b.generatorFunction
    ensures source.FromStreamer? ==>
      && r.value.args == (if |args| == 0 then source.b.args else args)
      && r.value.kwargs == (if |kwargs| == 0 then source.b.kwargs else kwargs)
  {
    match source
    case FromStreamer(b) =>
      Success(BooleanStreamer(b.generatorFunction,
                              if |args| == 0 then b.args else args,
                              if |kwargs| == 0 then b.kwargs else kwargs))
    case FromGenerator(g) => Success(BooleanStreamer(g, args, kwargs))
    case FromOther => Failure(ValueError)
  }

  /** `iter(b)`: a fresh call of the generator function with the stored arguments. */
  function Iter(b: BooleanStreamer): Call
  {
    b.generatorFunction(b.args, b.kwargs)
  }

  /**
   * What `for x in b` sees: the stream of the call, where a failing binding is
   * an exception before the first value.
   */
  function Yielded(b: BooleanStreamer): Stream
  {
    match Iter(b)
    case BindingFails => Raising()
    case Generator(s) => s
  }

  /** Wrapping a streamer without new arguments copies it, and iterating the copy calls it alike. */
  lemma CopyKeepsStream(b: BooleanStreamer)
    ensures New(FromStreamer(b), [], map[]) == Success(b)
    ensures Iter(New(FromStreamer(b), [], map[]).value) == Iter(b)
  {
  }

  /** Wrapping a streamer with new arguments keeps its generator function but calls it with those. */
  lemma CopyWithArgs(b: BooleanStreamer, args: seq<Arg>, kwargs: map<string, Arg>)
    requires |args| > 0 && |kwargs| > 0
    ensures New(FromStreamer(b), args, kwargs) == Success(BooleanStreamer(b.generatorFunction, args, kwargs))
  {
  }

  /** The shorter of two lengths. */
  function Min(a: Length, b: Length): (r: Length)
    ensures Within(0, r) ==> Within(0, a) && Within(0, b)
  {
    if a.Unbounded? then b
    else if b.Unbounded? then a
    else if a.n <= b.n then a
    else b
  }

  /**
   * `for x, y in zip(s, t): yield op(x, y)` once both generators exist: `zip`
   * asks `s` first, so when both end at the same index it is `s` whose stop or
   * exception ends the pairs.
   */
  function Zip(s: Stream, t: Stream, op: (bool, bool) -> bool): (r: Stream)
    ensures forall i: nat :: Within(i, r.count) <==> Within(i, s.count) && Within(i, t.count)
    ensures forall i: nat :: Within(i, r.count) ==> r.at(i) == op(s.at(i), t.at(i))
    ensures r.count.Finite? ==> r.raises == (if Shorter(t.count, s.count) then t.raises else s.raises)
  {
    var count := Min(s.count, t.count);
    Stream(count, (i: nat) => op(s.at(i), t.at(i)),
           if count.Unbounded? then false else if Shorter(t.count, s.count) then t.raises else s.raises)
  }

  /**
   * `zip(a, b)` calls `iter` on both operands before asking either for a
   * value, so a failing binding on either side raises before the first pair.
   */
  function ZipCalls(a: Call, b: Call, op: (bool, bool) -> bool): (r: Stream)
    ensures a.BindingFails? || b.BindingFails? ==> r == Raising()
    ensures a.Generator? && b.Generator? ==> r == Zip(a.stream, b.stream, op)
  {
    if a.BindingFails? || b.BindingFails? then Raising() else Zip(a.stream, b.stream, op)
  }

  /** A streamer over a generator function without parameters that yields `s` when called without arguments. */
  function Of(s: Stream): BooleanStreamer
  {
    BooleanStreamer((args, kwargs) => if args == [] && kwargs == map[] then Generator(s) else BindingFails, [], map[])
  }

  /** `a & b`: the pointwise `and`, as long as both streams last. */
  function And(a: BooleanStreamer, b: BooleanStreamer): BooleanStreamer
  {
    Of(ZipCalls(Iter(a), Iter(b), (x, y) => x && y))
  }

  /** `a | b`: the pointwise `or`, as long as both streams last. */
  function Or(a: BooleanStreamer, b: BooleanStreamer): BooleanStreamer
  {
    Of(ZipCalls(Iter(a), Iter(b), (x, y) => x || y))
  }

  /** `~a`: the pointwise `not`, ending like what `for x in a` sees. */
  function Not(a: BooleanStreamer): BooleanStreamer
  {
    var s := Yielded(a);
    Of(Stream(s.count, (i: nat) => !s.at(i), s.raises))
  }

  /** The right operand of `&` and `|`: another streamer, or anything else. */
  datatype Operand = StreamerOperand(b: BooleanStreamer) | OtherOperand

  /** `a & other`: a ValueError unless `other` is a streamer. */
  function AndOperand(a: BooleanStreamer, other: Operand): (r: Result<BooleanStreamer, StreamError>)
    ensures r.Failure? <==> other.OtherOperand?
    ensures r.Success? ==> Same(Yielded(r.value), Yielded(And(a, other.b)))
  {
    if other.StreamerOperand? then Success(And(a, other.b)) else Failure(ValueError)
  }

  /** `a | other`: a ValueError unless `other` is a streamer. */
  function OrOperand(a: BooleanStreamer, other: Operand): (r: Result<BooleanStreamer, StreamError>)
    ensures r.Failure? <==> other.OtherOperand?
    ensures r.Success? ==> Same(Yielded(r.value), Yielded(Or(a, other.b)))
  {
    if other.StreamerOperand? then Success(Or(a, other.b)) else Failure(ValueError)
  }

  /** `~~a` yields what `a` yields and ends the same way, a failing binding included. */
  lemma NotNot(a: BooleanStreamer)
    ensures Same(Yielded(Not(Not(a))), Yielded(a))
  {
  }

  /**
   * `a & b` raises at once when either binding fails; otherwise it yields the
   * pointwise `and` while both last, and ends with the first stream to end,
   * `a` on a tie.
   */
  lemma AndValues(a: BooleanStreamer, b: BooleanStreamer)
    ensures Iter(a).BindingFails? || Iter(b).BindingFails? ==> Yielded(And(a, b)) == Raising()
    ensures Iter(a).Generator? && Iter(b).Generator? ==>
      var s, t, r := Iter(a).stream, Iter(b).stream, Yielded(And(a, b));
      && (forall i: nat :: Within(i, r.count) <==> Within(i, s.count) && Within(i, t.count))
      && (forall i: nat :: Within(i, r.count) ==> (r.at(i) <==> s.at(i) && t.at(i)))
      && (r.count.Finite? ==> r.raises == if Shorter(t.count, s.count) then t.raises else s.raises)
  {
  }

  /**
   * `&` commutes in what it yields, and in how it ends unless both streams end
   * at the same index: then the left one decides between stopping and raising.
   */
  lemma AndCommutes(a: BooleanStreamer, b: BooleanStreamer)
    ensures Yielded(And(a, b)).count == Yielded(And(b, a)).count
    ensures forall i: nat :: Within(i, Yielded(And(a, b)).count) ==> Yielded(And(a, b)).at(i) == Yielded(And(b, a)).at(i)
    ensures Yielded(a).count != Yielded(b).count || Yielded(a).raises == Yielded(b).raises ==>
      Same(Yielded(And(a, b)), Yielded(And(b, a)))
    ensures Iter(a).Generator? && Iter(b).Generator? && Yielded(a).count == Yielded(b).count && Yielded(a).count.Finite? ==>
      Yielded(And(a, b)).raises == Yielded(a).raises && Yielded(And(b, a)).raises == Yielded(b).raises
  {
  }

  /** De Morgan: when both bindings succeed, `~(a & b)` and `~a | ~b` yield the same and end the same way. */
  lemma DeMorgan(a: BooleanStreamer, b: BooleanStreamer)
    requires Iter(a).Generator? && Iter(b).Generator?
    ensures Same(Yielded(Not(And(a, b))), Yielded(Or(Not(a), Not(b))))
  {
  }

  /**
   * Where De Morgan fails: when `b`'s binding fails, `~(a & b)` raises at once,
   * while `~a | ~b` ends as `~a` does if `a` yields nothing, because `~b` is a
   * generator that raises only when asked and `zip` asks `~a` first.
   */
  lemma DeMorganBindingFails(a: BooleanStreamer, b: BooleanStreamer)
    requires Iter(b).BindingFails?
    ensures Yielded(Not(And(a, b))).count == Finite(0) && Yielded(Not(And(a, b))).raises
    ensures Yielded(a).count == Finite(0) ==> Yielded(Or(Not(a), Not(b))).raises == Yielded(a).raises
  {
  }

  /** `e & SieveStreamer(foo=1)` with `e` yielding nothing: `~(e & b)` raises, `~e | ~b` stops. */
  lemma DeMorganCounterexample()
    ensures var e, b := Of(Stream(Finite(0), (i: nat) => false, false)), BooleanStreamer(SieveGenerator, [], map["foo" := IntArg(1)]);
      Yielded(Not(And(e, b))).raises && !Yielded(Or(Not(e), Not(b))).raises
  {
    var e, b := Of(Stream(Finite(0), (i: nat) => false, false)), BooleanStreamer(SieveGenerator, [], map["foo" := IntArg(1)]);
    assert "foo" in map["foo" := IntArg(1)].Keys - {"modulo", "shift"};
    DeMorganBindingFails(e, b);
  }

  // ---------------------------------------------------------------------------
  // `SieveStreamer(modulo, shift)`
  // ---------------------------------------------------------------------------

  /** `(shift,)` for a scalar shift, `tuple(shift)` for a sized one; an integral float acts as its int. */
  function Residues(shift: Arg): Option<seq<int>>
  {
    match shift
    case IntArg(s) => Some([s])
    case FloatArg(x) => if Integral(x) then Some([x.Floor]) else None
    case SizedArg(items) => Some(items)
    case OtherArg => None
  }

  /** `any((i - s) % modulo == 0 for s in shifts)`, for a nonzero modulus. */
  predicate InSieve(modulo: int, shifts: seq<int>, i: int)
    requires modulo != 0
  {
    exists k :: 0 <= k < |shifts| && MathUtil.PyMod(i - shifts[k], modulo) == 0
  }

  /**
   * The stream of `SieveStreamer(modulo, shift)`: unbounded, except that the
   * first value already raises for a zero modulus with at least one residue
   * (a ZeroDivisionError) or for a shift that is neither a number nor sized
   * (a TypeError). A float shift with a fractional part leaves `i - shift`
   * fractional, so no value is ever True.
   */
  function SieveStream(modulo: int, shift: Arg): Stream
  {
    if shift.FloatArg? && !Integral(shift.x) then
      if modulo == 0 then Raising() else AllFalse()
    else
      var shifts := Residues(shift);
      if shifts.None? || (modulo == 0 && |shifts.value| > 0) then Raising()
      else if modulo == 0 then AllFalse()
      else Stream(Unbounded, (i: nat) => InSieve(modulo, shifts.value, i), false)
  }

  /**
   * Python's binding of a call to the parameters `(modulo, shift=0)`: the
   * modulus and the shift, or None for the TypeError of too many positional
   * arguments, an unknown keyword, a parameter given twice, or a missing modulus.
   */
  function BindSieve(args: seq<Arg>, kwargs: map<string, Arg>): Option<(Arg, Arg)>
  {
    if |args| > 2 || kwargs.Keys - {"modulo", "shift"} != {} then None
    else if |args| >= 1 && "modulo" in kwargs then None
    else if |args| == 2 && "shift" in kwargs then None
    else if |args| == 0 && "modulo" !in kwargs then None
    else
      var modulo := if |args| >= 1 then args[0] else kwargs["modulo"];
      var shift := if |args| == 2 then args[1] else if "shift" in kwargs then kwargs["shift"] else IntArg(0);
      Some((modulo, shift))
  }

  /**
   * The generator function of `SieveStreamer`: the call fails when its
   * arguments do not bind. Otherwise the body runs at the first value: with no
   * residues `any` is False without touching the modulus, and with some a
   * modulus that is not an int raises at the first `%`.
   */
  function SieveGenerator(args: seq<Arg>, kwargs: map<string, Arg>): Call
  {
    match BindSieve(args, kwargs)
    case Some((modulo, shift)) =>
      if modulo.IntArg? then Generator(SieveStream(modulo.i, shift))
      else if Residues(shift) == Some([]) then Generator(AllFalse())
      else Generator(Raising())
    case None => BindingFails
  }

  /** `SieveStreamer(modulo, shift)`. */
  function SieveStreamer(modulo: int, shift: Arg): BooleanStreamer
  {
    BooleanStreamer(SieveGenerator, [IntArg(modulo), shift], map[])
  }

  /**
   * The arguments bind by position or by keyword alike: `SieveStreamer(m)`,
   * `SieveStreamer(m, shift=s)` and `SieveStreamer(modulo=m, shift=s)` are the
   * sieves of `(m, 0)`, `(m, s)` and `(m, s)`; an unknown keyword or a modulus
   * given twice raises a TypeError when the generator function is called.
   */
  lemma SieveKeywords(m: int, s: Arg, name: string, other: Arg)
    ensures Iter(BooleanStreamer(SieveGenerator, [IntArg(m)], map[])) == Iter(SieveStreamer(m, IntArg(0)))
    ensures Iter(BooleanStreamer(SieveGenerator, [IntArg(m)], map["shift" := s])) == Iter(SieveStreamer(m, s))
    ensures Iter(BooleanStreamer(SieveGenerator, [], map["modulo" := IntArg(m), "shift" := s])) == Iter(SieveStreamer(m, s))
    ensures name != "modulo" && name != "shift" ==>
      Iter(BooleanStreamer(SieveGenerator, [IntArg(m)], map[name := other])) == BindingFails
    ensures Iter(BooleanStreamer(SieveGenerator, [IntArg(m)], map["modulo" := other])) == BindingFails
  {
    var one := map["shift" := s];
    assert one.Keys == {"shift"};
    var both := map["modulo" := IntArg(m), "shift" := s];
    assert both.Keys == {"modulo", "shift"};
    if name != "modulo" && name != "shift" {
      assert name in map[name := other].Keys - {"modulo", "shift"};
    }
    assert map["modulo" := other].Keys == {"modulo"};
  }

  /**
   * With no residues the modulus is never used: any modulus, even one that is
   * not a number, gives an unbounded stream of False.
   */
  lemma SieveEmptyShift(modulo: Arg)
    ensures Iter(BooleanStreamer(SieveGenerator, [modulo, SizedArg([])], map[])).Generator?
    ensures Same(Yielded(BooleanStreamer(SieveGenerator, [modulo, SizedArg([])], map[])), AllFalse())
  {
  }

  /**
   * A float shift with a fractional part never lands on a multiple of the
   * modulus: the stream is unbounded and all False, or raises at once for a
   * zero modulus. An integral float shift is the sieve of its int.
   */
  lemma FloatShift(modulo: int, x: real, i: nat)
    ensures !Integral(x) && modulo != 0 ==>
      Yielded(SieveStreamer(modulo, FloatArg(x))).count == Unbounded && !Yielded(SieveStreamer(modulo, FloatArg(x))).at(i)
    ensures !Integral(x) && modulo == 0 ==> Yielded(SieveStreamer(modulo, FloatArg(x))).raises
    ensures Integral(x) ==> Yielded(SieveStreamer(modulo, FloatArg(x))) == Yielded(SieveStreamer(modulo, IntArg(x.Floor)))
  {
  }

  /** `(i - s) % m == 0` exactly when `i` and `s` leave the same remainder: the sieve repeats every `m`. */
  lemma PyModShift(x: int, m: int)
    requires m != 0
    ensures MathUtil.PyMod(x + m, m) == MathUtil.PyMod(x, m)
  {
    MathUtil.FloorDivModIdentity(x, m);
    var q, r := MathUtil.FloorDiv(x, m), MathUtil.PyMod(x, m);
    var y, q1 := x + m, q + 1;
    assert y == m * q1 + r;
    MathUtil.PyModUnique(y, m, q1, r);
  }

  /** A sieve has period `modulo`. */
  lemma SievePeriodic(modulo: int, shift: Arg, i: nat)
    requires modulo != 0 && Residues(shift).Some?
    ensures Yielded(SieveStreamer(modulo, shift)).count == Unbounded
    ensures i + MathUtil.Abs(modulo) >= 0
    ensures Yielded(SieveStreamer(modulo, shift)).at(i + MathUtil.Abs(modulo)) == Yielded(SieveStreamer(modulo, shift)).at(i)
  {
    var shifts := Residues(shift).value;
    var m := MathUtil.Abs(modulo);
    forall k | 0 <= k < |shifts|
      ensures MathUtil.PyMod(i + m - shifts[k], modulo) == MathUtil.PyMod(i - shifts[k], modulo)
    {
      if modulo > 0 {
        PyModShift(i - shifts[k], modulo);
      } else {
        PyModShift(i + m - shifts[k], modulo);
      }
    }
  }

  /** A scalar shift is the sieve of its one-residue tuple. */
  lemma ScalarShift(modulo: int, s: int)
    ensures Same(Yielded(SieveStreamer(modulo, IntArg(s))), Yielded(SieveStreamer(modulo, SizedArg([s]))))
  {
  }

  /** The sieve of several residues is the union (`|`) of their one-residue sieves. */
  lemma SieveUnion(modulo: int, s: int, t: int)
    requires modulo != 0
    ensures Same(Yielded(SieveStreamer(modulo, SizedArg([s, t]))),
                 Yielded(Or(SieveStreamer(modulo, IntArg(s)), SieveStreamer(modulo, IntArg(t)))))
  {
    var u := Yielded(SieveStreamer(modulo, SizedArg([s, t])));
    var v := Yielded(Or(SieveStreamer(modulo, IntArg(s)), SieveStreamer(modulo, IntArg(t))));
    forall i: nat
      ensures u.at(i) == v.at(i)
    {
      assert u.at(i) == InSieve(modulo, [s, t], i);
      assert v.at(i) == (InSieve(modulo, [s], i) || InSieve(modulo, [t], i));
      if MathUtil.PyMod(i - s, modulo) == 0 {
        assert [s, t][0] == s && [s][0] == s;
      }
      if MathUtil.PyMod(i - t, modulo) == 0 {
        assert [s, t][1] == t && [t][0] == t;
      }
    }
  }

  /** A zero modulus raises as soon as a value is asked for, unless there are no residues at all. */
  lemma SieveZeroModulus(shifts: seq<int>)
    ensures |shifts| > 0 ==> Yielded(SieveStreamer(0, SizedArg(shifts))) == Raising()
    ensures |shifts| == 0 ==> Yielded(SieveStreamer(0, SizedArg(shifts))).count == Unbounded
  {
  }

  /** The value at index `i` of a sieve given a tuple of residues. */
  lemma SieveAt(modulo: int, shifts: seq<int>, i: nat)
    ensures modulo != 0 ==> Yielded(SieveStreamer(modulo, SizedArg(shifts))).at(i) == InSieve(modulo, shifts, i)
    ensures modulo == 0 && |shifts| == 0 ==> !Yielded(SieveStreamer(modulo, SizedArg(shifts))).at(i)
  {
  }

  /**
   * The first `n` values of `SieveStreamer(modulo, shift)`, computed the way the
   * generator does: `i` counts up, and `any` tries the residues in order,
   * stopping at the first hit. A ZeroDivisionError ends it for a zero modulus.
   */
  method SieveTake(modulo: int, shifts: seq<int>, n: nat) returns (r: Option<seq<bool>>)
    ensures r.None? <==> n > 0 && modulo == 0 && |shifts| > 0
    ensures r.Some? ==> |r.value| == n
    ensures r.Some? ==> forall i :: 0 <= i < n ==>
      r.value[i] == Yielded(SieveStreamer(modulo, SizedArg(shifts))).at(i)
  {
    var values: seq<bool> := [];
    var i := 0;
    while i < n
      invariant 0 <= i <= n && |values| == i
      invariant i > 0 ==> modulo != 0 || |shifts| == 0
      invariant forall j :: 0 <= j < i ==> values[j] == Yielded(SieveStreamer(modulo, SizedArg(shifts))).at(j)
    {
      var hit := false;
      var k := 0;
      while k < |shifts| && !hit
        invariant 0 <= k <= |shifts|
        invariant modulo != 0 || (k == 0 && !hit)
        invariant modulo != 0 ==>
          (hit <==> exists j :: 0 <= j < k && MathUtil.PyMod(i - shifts[j], modulo) == 0)
      {
        if modulo == 0 {
          return None;
        }
        hit := MathUtil.PyMod(i - shifts[k], modulo) == 0;
        k := k + 1;
      }
      SieveAt(modulo, shifts, i);
      values := values + [hit];
      i := i + 1;
    }
    r := Some(values);
  }
}
