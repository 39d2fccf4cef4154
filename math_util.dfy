/**
 * Integer helpers: Python's floor division and modulo, Euclid's gcd as
 * `math.gcd` computes it, and `lcm(a, b) = a * b // gcd(a, b)`.
 */
module MathUtil {
  import opened Wrappers

  datatype MathError = ZeroDivisionError

  function Abs(x: int): nat
  {
    if x < 0 then -x else x
  }

  /** `d` divides `n`: some integer multiple of `d` is `n`. */
  ghost predicate Divides(d: int, n: int)
  {
    exists k :: n == d * k
  }

  /** Python's `a // b`: the quotient rounded toward minus infinity. */
  function FloorDiv(a: int, b: int): int
    requires b != 0
  {
    if b > 0 || a % b == 0 then a / b else a / b - 1
  }

  /** Python's `a % b`: the remainder takes the sign of the divisor. */
  function PyMod(a: int, b: int): int
    requires b != 0
  {
    if b > 0 || a % b == 0 then a % b else a % b + b
  }

  /** Python's division identity, and the sign rule for its remainder. */
  lemma FloorDivModIdentity(a: int, b: int)
    requires b != 0
    ensures a == b * FloorDiv(a, b) + PyMod(a, b)
    ensures b > 0 ==> 0 <= PyMod(a, b) < b
    ensures b < 0 ==> b < PyMod(a, b) <= 0
  {
    if !(b > 0 || a % b == 0) {
      assert b * (a / b - 1) + (a % b + b) == b * (a / b) + a % b;
    }
  }

  /** Python's remainder is the only one in the divisor's sign range that completes the division identity. */
  lemma PyModUnique(a: int, b: int, q: int, r: int)
    requires b != 0 && a == b * q + r
    requires b > 0 ==> 0 <= r < b
    requires b < 0 ==> b < r <= 0
    ensures PyMod(a, b) == r
  {
    FloorDivModIdentity(a, b);
    var q0, r0 := FloorDiv(a, b), PyMod(a, b);
    var d := q - q0;
    assert b * d == r0 - r by {
      assert b * q + r == b * q0 + r0;
      assert b * d == b * q - b * q0;
    }
    if b > 0 {
      MultipleBound(b, d);
    } else {
      var e := -d;
      assert (-b) * e == b * d;
      MultipleBound(-b, e);
    }
  }

  /** Euclid's algorithm on naturals, as `math.gcd` computes it on absolute values. */
  function Gcd(a: nat, b: nat): nat
    decreases b
  {
    if b == 0 then a else Gcd(b, a % b)
  }

  /** `math.gcd(a, b)`: the gcd of the absolute values. */
  function MathGcd(a: int, b: int): nat
  {
    Gcd(Abs(a), Abs(b))
  }

  /** The gcd divides both arguments, and is zero only for `gcd(0, 0)`. */
  lemma {:induction false} GcdDivides(a: nat, b: nat)
    ensures Divides(Gcd(a, b), a) && Divides(Gcd(a, b), b)
    ensures Gcd(a, b) == 0 <==> a == 0 && b == 0
    decreases b
  {
    var g := Gcd(a, b);
    if b == 0 {
      assert a == g * 1;
      assert b == g * 0;
    } else {
      GcdDivides(b, a % b);
      var k1 :| b == g * k1;
      var k2 :| a % b == g * k2;
      var q := a / b;
      assert a == q * b + a % b;
      assert a == g * (q * k1 + k2) by {
        assert q * b == q * (g * k1) == g * (q * k1);
      }
    }
  }

  /** Every common divisor of `a` and `b` divides their gcd. */
  lemma {:induction false} GcdGreatest(a: nat, b: nat, d: int)
    requires Divides(d, a) && Divides(d, b)
    ensures Divides(d, Gcd(a, b))
    decreases b
  {
    if b != 0 {
      var k1 :| a == d * k1;
      var k2 :| b == d * k2;
      var q := a / b;
      assert a % b == d * (k1 - q * k2) by {
        assert a % b == a - q * b;
        assert q * b == q * (d * k2) == d * (q * k2);
      }
      GcdGreatest(b, a % b, d);
    }
  }

  /** Bezout's identity: the gcd is an integer combination of the arguments. */
  lemma {:induction false} Bezout(a: nat, b: nat) returns (x: int, y: int)
    ensures a * x + b * y == Gcd(a, b)
    decreases b
  {
    if b == 0 {
      x, y := 1, 0;
    } else {
      var q, r := a / b, a % b;
      var x1, y1 := Bezout(b, r);
      x, y := y1, x1 - q * y1;
      BezoutStep(a, b, q, r, x1, y1);
    }
  }

  /** One Euclid step of Bezout's identity, as integer algebra. */
  lemma BezoutStep(a: int, b: int, q: int, r: int, x1: int, y1: int)
    requires a == q * b + r
    ensures a * y1 + b * (x1 - q * y1) == b * x1 + r * y1
  {
    calc {
      a * y1 + b * (x1 - q * y1);
      (q * b + r) * y1 + b * x1 - b * (q * y1);
      { assert (q * b) * y1 == b * (q * y1); }
      b * x1 + r * y1;
    }
  }

  lemma DividesBound(d: int, n: int)
    requires d > 0 && n > 0 && Divides(d, n)
    ensures d <= n
  {
    var k :| n == d * k;
    assert d * k >= d;
  }

  /** The gcd does not depend on argument order. */
  lemma GcdSymmetric(a: nat, b: nat)
    ensures Gcd(a, b) == Gcd(b, a)
  {
    var g1, g2 := Gcd(a, b), Gcd(b, a);
    GcdDivides(a, b);
    GcdDivides(b, a);
    if g1 != 0 {
      GcdGreatest(b, a, g1);
      GcdGreatest(a, b, g2);
      DividesBound(g1, g2);
      DividesBound(g2, g1);
    }
  }

  /** `lcm(a, b)`: `a * b // gcd(a, b)`; ZeroDivisionError exactly when both are 0. */
  function Lcm(a: int, b: int): (r: Result<int, MathError>)
    ensures r.Failure? <==> a == 0 && b == 0
  {
    GcdDivides(Abs(a), Abs(b));
    var g := MathGcd(a, b);
    if g == 0 then Failure(ZeroDivisionError) else Success(FloorDiv(a * b, g))
  }

  lemma MultipleBound(g: int, k: int)
    requires g > 0
    ensures k >= 1 ==> g * k >= g
    ensures k <= -1 ==> g * k <= -g
  {
  }

  lemma ExactDivision(g: int, t: int)
    requires g > 0
    ensures (g * t) / g == t && (g * t) % g == 0
  {
    var q, r := (g * t) / g, (g * t) % g;
    assert g * (q - t) == -r by {
      assert g * t == g * q + r;
    }
    MultipleBound(g, q - t);
  }

  /** For positive arguments the lcm is `a * (b / gcd)`, which is also `(a / gcd) * b`. */
  lemma LcmValue(a: int, b: int) returns (ka: int, kb: int)
    requires a > 0 && b > 0
    ensures Gcd(a, b) > 0 && a == Gcd(a, b) * ka && b == Gcd(a, b) * kb
    ensures Lcm(a, b) == Success(ka * b) && ka * b == a * kb
  {
    GcdDivides(a, b);
    var g := Gcd(a, b);
    ka :| a == g * ka;
    kb :| b == g * kb;
    assert a * b == g * (ka * b) by {
      assert a * b == (g * ka) * b;
    }
    ExactDivision(g, ka * b);
    assert ka * b == ka * (g * kb) == (g * ka) * kb;
  }

  /** For positive arguments both divide the lcm, and lcm times gcd is the product. */
  lemma LcmIsCommonMultiple(a: int, b: int)
    requires a > 0 && b > 0
    ensures Lcm(a, b).Success?
    ensures Lcm(a, b).value * Gcd(a, b) == a * b
    ensures Divides(a, Lcm(a, b).value) && Divides(b, Lcm(a, b).value)
  {
    var ka, kb := LcmValue(a, b);
    var g, l := Gcd(a, b), Lcm(a, b).value;
    assert l * g == a * b by {
      assert l * g == (ka * b) * g == (g * ka) * b;
    }
    assert l == a * kb;
    assert l == b * ka;
  }

  lemma ScaledCombination(a: int, b: int, m: int, p: int, q: int, x: int, y: int)
    requires m == a * p && m == b * q
    ensures m * (a * x + b * y) == (a * b) * (q * x + p * y)
  {
    assert m * (a * x) == (b * q) * (a * x) == (a * b) * (q * x);
    assert m * (b * y) == (a * p) * (b * y) == (a * b) * (p * y);
  }

  lemma CancelFactor(m: int, g: int, l: int, t: int)
    requires g > 0 && m * g == (l * g) * t
    ensures m == l * t
  {
    assert g * (m - l * t) == 0;
    MultipleBound(g, m - l * t);
  }

  /** The lcm is the least common multiple: it divides every common multiple. */
  lemma LcmDividesCommonMultiples(a: int, b: int, m: int)
    requires a > 0 && b > 0
    requires Divides(a, m) && Divides(b, m)
    ensures Lcm(a, b).Success? && Divides(Lcm(a, b).value, m)
  {
    LcmIsCommonMultiple(a, b);
    var g, l := Gcd(a, b), Lcm(a, b).value;
    assert g > 0 by { GcdDivides(a, b); }
    var x, y := Bezout(a, b);
    var p :| m == a * p;
    var q :| m == b * q;
    ScaledCombination(a, b, m, p, q, x, y);
    CancelFactor(m, g, l, q * x + p * y);
  }

  /** `lcm(a, b) == lcm(b, a)` for all integers, including the failing `(0, 0)`. */
  lemma LcmSymmetric(a: int, b: int)
    ensures Lcm(a, b) == Lcm(b, a)
  {
    GcdSymmetric(Abs(a), Abs(b));
    assert a * b == b * a;
  }

  lemma LcmZeroZero()
    ensures Lcm(0, 0) == Failure(ZeroDivisionError)
  {
  }
}
