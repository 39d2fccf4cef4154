/**
 * Python's `fractions.Fraction`, as far as pitch ratios use it: a rational
 * number kept in lowest terms with a positive denominator, so that two
 * fractions are equal exactly when they name the same number.
 */
module Fractions {
  import opened Wrappers
  import MathUtil

  datatype Frac = Frac(num: int, den: int)

  /** Lowest terms, with the sign on the numerator. */
  predicate Normal(f: Frac)
  {
    f.den > 0 && MathUtil.Gcd(MathUtil.Abs(f.num), f.den) == 1
  }

  /** A `Fraction` object: always normal. */
  type Fraction = f: Frac | Normal(f) witness Frac(0, 1)

  /** The ZeroDivisionError of `Fraction(n, 0)` and of `1 / Fraction(0)`. */
  datatype FracError = ZeroDenominator

  /** `f` names the number `n / d`. */
  predicate Names(f: Frac, n: int, d: int)
  {
    f.num * d == n * f.den
  }

  /** `(g * k1) * x + (g * k2) * y` factored by `g`. */
  lemma Factor(g: int, k1: int, k2: int, x: int, y: int)
    ensures (g * k1) * x + (g * k2) * y == g * (k1 * x + k2 * y)
  {
  }

  /** Scaling one side of `p * q == r * t` by a sign. */
  lemma SignScale(s: int, p: int, q: int, r: int, t: int)
    requires p * q == r * t
    ensures (s * p) * q == t * (s * r)
  {
    assert (s * p) * q == s * (p * q);
    assert t * (s * r) == s * (r * t);
  }

  /** A nonzero factor cancels. */
  lemma Cancel(d: int, x: int, y: int)
    requires d != 0 && x * d == y * d
    ensures x == y
  {
    assert d * (x - y) == 0;
    if d > 0 {
      MathUtil.MultipleBound(d, x - y);
    } else {
      MathUtil.MultipleBound(-d, y - x);
    }
  }

  /** Regrouping a product of three. */
  lemma Associate(x: int, y: int, z: int)
    ensures x * (y * z) == (x * y) * z
  {
  }

  /** Integers without zero divisors. */
  lemma NonzeroProduct(x: int, y: int)
    requires x != 0 && y != 0
    ensures x * y != 0
  {
    if x > 0 {
      MathUtil.MultipleBound(x, y);
    } else {
      MathUtil.MultipleBound(-x, y);
    }
  }

  /**
   * If `r` names `(p * c)` and `p` names `n / d`, then `r` names `(n / d) * c`:
   * each of the cross products below is `r.num * (pd * cd) == (pn * cn) * r.den`.
   */
  lemma TransferRight(rn: int, rd: int, pn: int, pd: int, cn: int, cd: int, n: int, d: int)
    requires pd != 0
    requires rn * (pd * cd) == (pn * cn) * rd
    requires pn * d == n * pd
    ensures rn * (d * cd) == (n * cn) * rd
  {
    calc {
      (rn * (d * cd)) * pd;
      (rn * (pd * cd)) * d;
      ((pn * cn) * rd) * d;
      ((pn * d) * cn) * rd;
      ((n * pd) * cn) * rd;
      ((n * cn) * rd) * pd;
    }
    Cancel(pd, rn * (d * cd), (n * cn) * rd);
  }

  /** The mirror image of `TransferRight`: the right factor is replaced by the number it names. */
  lemma TransferLeft(rn: int, rd: int, cn: int, cd: int, pn: int, pd: int, n: int, d: int)
    requires pd != 0
    requires rn * (cd * pd) == (cn * pn) * rd
    requires pn * d == n * pd
    ensures rn * (cd * d) == (cn * n) * rd
  {
    calc {
      (rn * (cd * d)) * pd;
      (rn * (cd * pd)) * d;
      ((cn * pn) * rd) * d;
      ((pn * d) * cn) * rd;
      ((n * pd) * cn) * rd;
      ((cn * n) * rd) * pd;
    }
    Cancel(pd, rn * (cd * d), (cn * n) * rd);
  }

  /** If `j` names the reciprocal of `i`, and `i` names `d / n`, then `j` names `n / d`. */
  lemma Flip(jn: int, jd: int, iN: int, id: int, n: int, d: int)
    requires id != 0
    requires jn * iN == id * jd
    requires iN * n == d * id
    ensures jn * d == n * jd
  {
    calc {
      (jn * d) * id;
      jn * (iN * n);
      (jn * iN) * n;
      (id * jd) * n;
      (n * jd) * id;
    }
    Cancel(id, jn * d, n * jd);
  }

  /** The cross products of `x / y` and `(s * x) / (s * y)` agree. */
  lemma CrossScaled(s: int, x: int, y: int)
    ensures x * (s * y) == (s * x) * y
  {
  }

  /** Division that leaves no remainder gives the cofactor back, for either sign of divisor. */
  lemma DivExact(s: int, k: int)
    requires s != 0
    ensures (s * k) / s == k
  {
    var q, r := (s * k) / s, (s * k) % s;
    assert s * (k - q) == r;
    if s > 0 {
      MathUtil.MultipleBound(s, k - q);
    } else {
      assert (-s) * (q - k) == r;
      MathUtil.MultipleBound(-s, q - k);
    }
  }

  /** `a * x + b * y == 1` leaves no common factor but 1. */
  lemma CoprimeByCombination(a: nat, b: nat, x: int, y: int)
    requires a * x + b * y == 1
    ensures MathUtil.Gcd(a, b) == 1
  {
    var g := MathUtil.Gcd(a, b);
    MathUtil.GcdDivides(a, b);
    var k1 :| a == g * k1;
    var k2 :| b == g * k2;
    Factor(g, k1, k2, x, y);
    assert MathUtil.Divides(g, 1);
    if g > 0 {
      MathUtil.DividesBound(g, 1);
    }
  }

  /** Dividing `n` and `d` by a common factor `g`, signed like `d`, leaves the cofactors. */
  lemma ReduceParts(n: int, d: int, g: int, a: int, b: int)
    requires d != 0 && g > 0
    requires MathUtil.Abs(n) == g * a && MathUtil.Abs(d) == g * b
    ensures var s: int := if d < 0 then -g else g;
      && n == s * (n / s) && d == s * (d / s)
      && MathUtil.Abs(n / s) == a && d / s == b && b > 0
  {
    var s: int := if d < 0 then -g else g;
    var c := if (n < 0) == (d < 0) then a else -a;
    assert n == s * c;
    assert d == s * b;
    DivExact(s, c);
    DivExact(s, b);
    MathUtil.MultipleBound(g, b);
    MathUtil.MultipleBound(g, a);
  }

  /** A factor that leaves a nonzero number unchanged is 1. */
  lemma UnitFactor(g: int, c: int)
    requires g != 0 && g * c == g
    ensures c == 1
  {
    Cancel(g, c, 1);
  }

  /** Dividing `n` and `d` by their gcd, signed like `d`, leaves coprime parts with a positive denominator. */
  lemma ReduceLemma(n: int, d: int)
    requires d != 0
    ensures var g: int := MathUtil.MathGcd(n, d);
      var s: int := if d < 0 then -g else g;
      && g > 0
      && n == s * (n / s) && d == s * (d / s)
      && d / s > 0
      && MathUtil.Gcd(MathUtil.Abs(n / s), d / s) == 1
  {
    var an, ad := MathUtil.Abs(n), MathUtil.Abs(d);
    var g: int := MathUtil.MathGcd(n, d);
    MathUtil.GcdDivides(an, ad);
    var a :| an == g * a;
    var b :| ad == g * b;
    ReduceParts(n, d, g, a, b);
    var s: int := if d < 0 then -g else g;
    var q := n / s;
    var aq: nat := MathUtil.Abs(q);
    assert aq == a;
    var x, y := MathUtil.Bezout(an, ad);
    Factor(g, a, b, x, y);
    var c := a * x + b * y;
    assert (g * a) * x + (g * b) * y == g;
    UnitFactor(g, c);
    CoprimeByCombination(aq, b, x, y);
  }

  /** `Fraction(n, d)`: reduced to lowest terms, a ZeroDivisionError for d == 0. */
  function Make(n: int, d: int): (r: Result<Fraction, FracError>)
    ensures r.Failure? <==> d == 0
    ensures r.Success? ==> Names(r.value, n, d)
  {
    if d == 0 then Failure(ZeroDenominator)
    else
      ReduceLemma(n, d);
      var g: int := MathUtil.MathGcd(n, d);
      var s: int := if d < 0 then -g else g;
      var f: Fraction := Frac(n / s, d / s);
      CrossScaled(s, f.num, f.den);
      Success(f)
  }

  /** `Fraction(n)` for an int. */
  function FromInt(n: int): (r: Fraction)
    ensures Names(r, n, 1)
  {
    assert MathUtil.Gcd(MathUtil.Abs(n), 1) == 1 by {
      assert MathUtil.Abs(n) % 1 == 0;
    }
    Frac(n, 1)
  }

  /** `Fraction(1)`. */
  function One(): Fraction
  {
    FromInt(1)
  }

  /** `a * b`. */
  function Mul(a: Fraction, b: Fraction): (r: Fraction)
    ensures Names(r, a.num * b.num, a.den * b.den)
  {
    MathUtil.MultipleBound(a.den, b.den);
    Make(a.num * b.num, a.den * b.den).value
  }

  /** `1 / a`: a ZeroDivisionError for a zero fraction. */
  function Inv(a: Fraction): (r: Result<Fraction, FracError>)
    ensures r.Failure? <==> a.num == 0
    ensures r.Success? ==> Names(r.value, a.den, a.num)
  {
    Make(a.den, a.num)
  }

  /** Euclid's lemma: a factor coprime to `b` that divides `b * c` divides `c`. */
  lemma EuclidLemma(a: nat, b: nat, c: int)
    requires MathUtil.Gcd(a, b) == 1 && MathUtil.Divides(a, b * c)
    ensures MathUtil.Divides(a, c)
  {
    var x, y := MathUtil.Bezout(a, b);
    var k :| b * c == a * k;
    var p, q, bc := a * x, b * y, b * c;
    var u, v := x * c, k * y;
    assert c == p * c + q * c by {
      assert p + q == 1;
      Distribute(p, q, c);
    }
    assert p * c == a * u by { Regroup(a, x, c); }
    assert q * c == a * v by {
      Regroup(b, y, c);
      assert y * c == c * y;
      Regroup(b, c, y);
      assert bc * y == (a * k) * y;
      Regroup(a, k, y);
    }
    assert a * u + a * v == a * (u + v) by { Distribute(u, v, a); }
  }

  /** Multiplication distributes over a sum. */
  lemma Distribute(p: int, q: int, r: int)
    ensures (p + q) * r == p * r + q * r
    ensures r * (p + q) == r * p + r * q
  {
  }

  /** Multiplication is associative. */
  lemma Regroup(p: int, q: int, r: int)
    ensures (p * q) * r == p * (q * r)
  {
  }

  /** One number has one normal form: equal cross products make equal fractions. */
  lemma Unique(f: Fraction, g: Fraction)
    requires f.num * g.den == g.num * f.den
    ensures f == g
  {
    MathUtil.GcdSymmetric(MathUtil.Abs(f.num), f.den);
    MathUtil.GcdSymmetric(MathUtil.Abs(g.num), g.den);
    var sf := if f.num < 0 then -1 else 1;
    var sg := if g.num < 0 then -1 else 1;
    assert MathUtil.Abs(f.num) == sf * f.num && MathUtil.Abs(g.num) == sg * g.num;
    SignScale(sf, f.num, g.den, g.num, f.den);
    SignScale(sg, g.num, f.den, f.num, g.den);
    EuclidLemma(f.den, MathUtil.Abs(f.num), g.den);
    EuclidLemma(g.den, MathUtil.Abs(g.num), f.den);
    MathUtil.DividesBound(f.den, g.den);
    MathUtil.DividesBound(g.den, f.den);
    Cancel(f.den, f.num, g.num);
  }

  /** Two fractions of the same number `n / d` have equal cross products. */
  lemma SameRatio(fn: int, fd: int, gn: int, gd: int, n: int, d: int)
    requires d != 0 && fn * d == n * fd && gn * d == n * gd
    ensures fn * gd == gn * fd
  {
    calc {
      (fn * gd) * d;
      (fn * d) * gd;
      (n * fd) * gd;
      (n * gd) * fd;
      (gn * d) * fd;
      (gn * fd) * d;
    }
    Cancel(d, fn * gd, gn * fd);
  }

  /** Two fractions naming the same number are the same fraction. */
  lemma SameNumber(f: Fraction, g: Fraction, n: int, d: int)
    requires d != 0 && Names(f, n, d) && Names(g, n, d)
    ensures f == g
  {
    SameRatio(f.num, f.den, g.num, g.den, n, d);
    Unique(f, g);
  }

  /** Reducing a fraction already in lowest terms gives it back. */
  lemma MakeNormal(f: Fraction)
    ensures Make(f.num, f.den) == Success(f)
  {
    SameNumber(Make(f.num, f.den).value, f, f.num, f.den);
  }

  /** A fraction scaled by a nonzero factor on both sides names the same number. */
  lemma Rescale(f: Frac, n: int, d: int, k: int)
    requires Names(f, n, d)
    ensures Names(f, n * k, d * k)
  {
    assert f.num * (d * k) == (f.num * d) * k == (n * f.den) * k;
  }

  /** Multiplication of fractions commutes. */
  lemma MulCommutes(a: Fraction, b: Fraction)
    ensures Mul(a, b) == Mul(b, a)
  {
    assert a.num * b.num == b.num * a.num && a.den * b.den == b.den * a.den;
  }

  /** A product of three fractions names the product of the numerators over that of the denominators. */
  lemma MulNames3(a: Fraction, b: Fraction, c: Fraction)
    ensures Names(Mul(Mul(a, b), c), (a.num * b.num) * c.num, (a.den * b.den) * c.den)
    ensures Names(Mul(a, Mul(b, c)), a.num * (b.num * c.num), a.den * (b.den * c.den))
  {
    var ab, bc := Mul(a, b), Mul(b, c);
    var l, r := Mul(ab, c), Mul(a, bc);
    TransferRight(l.num, l.den, ab.num, ab.den, c.num, c.den, a.num * b.num, a.den * b.den);
    TransferLeft(r.num, r.den, a.num, a.den, bc.num, bc.den, b.num * c.num, b.den * c.den);
  }

  /** Multiplication of fractions associates. */
  lemma MulAssociates(a: Fraction, b: Fraction, c: Fraction)
    ensures Mul(Mul(a, b), c) == Mul(a, Mul(b, c))
  {
    MulNames3(a, b, c);
    Associate(a.num, b.num, c.num);
    Associate(a.den, b.den, c.den);
    NonzeroProduct(a.den, b.den);
    NonzeroProduct(a.den * b.den, c.den);
    SameNumber(Mul(Mul(a, b), c), Mul(a, Mul(b, c)), (a.num * b.num) * c.num, (a.den * b.den) * c.den);
  }

  /** 1 is the unit of multiplication. */
  lemma MulOne(a: Fraction)
    ensures Mul(a, One()) == a
  {
    MakeNormal(a);
  }

  /** A nonzero fraction times its reciprocal is 1. */
  lemma MulInverse(a: Fraction)
    requires a.num != 0
    ensures Mul(a, Inv(a).value) == One()
  {
    var i := Inv(a).value;
    var p := Mul(a, i);
    TransferLeft(p.num, p.den, a.num, a.den, i.num, i.den, a.den, a.num);
    var k := a.den * a.num;
    NonzeroProduct(a.den, a.num);
    assert a.num * a.den == k;
    Cancel(k, p.num, p.den);
    SameNumber(p, One(), 1, 1);
  }

  /** Taking the reciprocal twice gives the fraction back. */
  lemma InvInvolutive(a: Fraction)
    requires a.num != 0
    ensures Inv(a).Success? && Inv(Inv(a).value).Success? && Inv(Inv(a).value).value == a
  {
    var i := Inv(a).value;
    NonzeroProduct(a.den, i.den);
    assert i.num != 0 by {
      assert i.num * a.num == a.den * i.den;
    }
    var j := Inv(i).value;
    Flip(j.num, j.den, i.num, i.den, a.num, a.den);
    SameNumber(j, a, a.num, a.den);
  }

  /** The reciprocal of a product is the product of the reciprocals. */
  lemma InvMul(a: Fraction, b: Fraction)
    requires a.num != 0 && b.num != 0
    ensures Mul(a, b).num != 0
    ensures Inv(Mul(a, b)).value == Mul(Inv(a).value, Inv(b).value)
  {
    var p := Mul(a, b);
    NonzeroProduct(a.num, b.num);
    NonzeroProduct(a.den, b.den);
    NonzeroProduct(a.num * b.num, p.den);
    assert p.num != 0 by {
      assert p.num * (a.den * b.den) == (a.num * b.num) * p.den;
    }
    var ip, ia, ib := Inv(p).value, Inv(a).value, Inv(b).value;
    var q := Mul(ia, ib);
    // both name (a.den * b.den) / (a.num * b.num)
    Flip(ip.num, ip.den, p.num, p.den, a.den * b.den, a.num * b.num);
    TransferRight(q.num, q.den, ia.num, ia.den, ib.num, ib.den, a.den, a.num);
    TransferLeft(q.num, q.den, a.den, a.num, ib.num, ib.den, b.den, b.num);
    SameNumber(ip, q, a.den * b.den, a.num * b.num);
  }
}
