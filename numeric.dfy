/** Numbers as the collision engine uses them: the shared comparison tolerance,
    absolute value, an optional value (Java's null), the parts of java.lang.Math
    the engine calls, and Java's Math.round and (int) conversions. */
module Numeric {

  /** A value that may be absent; the engine returns null where this returns None. */
  datatype Option<+T> = None | Some(value: T)

  /** The tolerance of every comparison between two coordinates (Line.EPSILON; Paddle.EPSILON has the same value). */
  const EPSILON: real := 0.001

  function Abs(a: real): (r: real)
    ensures r >= 0.0
    ensures r == a || r == -a
  {
    if a < 0.0 then -a else a
  }

  /** a and b are equal up to the tolerance eps. */
  predicate Threshold(a: real, b: real, eps: real)
  {
    Abs(a - b) < eps
  }

  lemma ThresholdSymmetric(a: real, b: real, eps: real)
    ensures Threshold(a, b, eps) == Threshold(b, a, eps)
  {
  }

  /** a times a. Facts about squares are stated with this function and proved one step
      at a time, because the solver rewrites a product of a term with itself. */
  function Square(a: real): real
  {
    a * a
  }

  /** The product of two positive numbers is positive. */
  lemma ProductPositive(a: real, b: real)
    requires a > 0.0 && b > 0.0
    ensures a * b > 0.0
  {
  }

  /** A square is never negative, and is positive unless its root is zero. */
  lemma SquareSign(a: real)
    ensures Square(a) >= 0.0
    ensures a != 0.0 ==> Square(a) > 0.0
  {
    if a > 0.0 {
      calc { Square(a); a * a; > { ProductPositive(a, a); } 0.0; }
    } else if a < 0.0 {
      calc { Square(a); (-a) * (-a); > { ProductPositive(-a, -a); } 0.0; }
    } else {
      calc { Square(a); Square(0.0); 0.0; }
    }
  }

  /** Squaring is strictly increasing on the non-negative numbers. */
  lemma SquareStrictlyIncreasing(lo: real, hi: real)
    requires 0.0 <= lo < hi
    ensures Square(lo) < Square(hi)
  {
    calc {
      Square(lo);
      lo * lo;
    <= { assert lo * lo <= lo * hi; }
      lo * hi;
    <
      hi * hi;
      Square(hi);
    }
  }

  /** Two non-negative numbers with the same square are equal. */
  lemma SquareInjective(r: real, s: real)
    requires 0.0 <= r && 0.0 <= s && Square(r) == Square(s)
    ensures r == s
  {
    if r < s {
      SquareStrictlyIncreasing(r, s);
    } else if s < r {
      SquareStrictlyIncreasing(s, r);
    }
  }

  /** The functions of java.lang.Math that the engine calls. Nothing is assumed about
      them, except where a lemma says so in its hypotheses (see IsSqrt). */
  datatype MathLib = MathLib(sqrt: real -> real, sin: real -> real, cos: real -> real, toRadians: real -> real)

  /** sqrt returns the non-negative square root of every non-negative number. */
  ghost predicate IsSqrt(sqrt: real -> real)
  {
    forall x: real :: 0.0 <= x ==> 0.0 <= sqrt(x) && Square(sqrt(x)) == x
  }

  /** A square root orders its arguments as they are ordered. */
  lemma SqrtOrder(sqrt: real -> real, a: real, b: real)
    requires IsSqrt(sqrt) && 0.0 <= a && 0.0 <= b
    ensures sqrt(a) < sqrt(b) <==> a < b
  {
    var ra, rb := sqrt(a), sqrt(b);
    assert 0.0 <= ra && Square(ra) == a;
    assert 0.0 <= rb && Square(rb) == b;
    if ra < rb {
      SquareStrictlyIncreasing(ra, rb);
    } else if rb < ra {
      SquareStrictlyIncreasing(rb, ra);
    }
  }

  /** The square root of k*k*a is k times the square root of a. */
  lemma SqrtScale(sqrt: real -> real, k: real, a: real)
    requires IsSqrt(sqrt) && 0.0 <= k && 0.0 <= a
    ensures sqrt(Square(k) * a) == k * sqrt(a)
  {
    var s := sqrt(a);
    assert 0.0 <= s && Square(s) == a;
    var ka := Square(k) * a;
    assert 0.0 <= ka;
    var t := sqrt(ka);
    assert 0.0 <= t && Square(t) == ka;
    assert Square(k * s) == Square(k) * Square(s) by {
      assert (k * s) * (k * s) == (k * k) * (s * s);
    }
    SquareInjective(t, k * s);
  }

  const LONG_MIN: int := -0x8000_0000_0000_0000
  const LONG_MAX: int := 0x7FFF_FFFF_FFFF_FFFF
  const INT_MIN: int := -0x8000_0000
  const INT_MAX: int := 0x7FFF_FFFF

  /** Math.round(double): the long nearest to v, halves rounded up, saturated at the long range. */
  function Round(v: real): (r: int)
    ensures LONG_MIN <= r <= LONG_MAX
    ensures LONG_MIN < r < LONG_MAX ==> v - 0.5 < r as real <= v + 0.5
  {
    var n := (v + 0.5).Floor;
    if n < LONG_MIN then LONG_MIN else if n > LONG_MAX then LONG_MAX else n
  }

  /** Java's narrowing (int) cast of a long: keeps the low 32 bits, read as two's complement. */
  function ToInt(l: int): (r: int)
    ensures INT_MIN <= r <= INT_MAX
    ensures INT_MIN <= l <= INT_MAX ==> r == l
    ensures (l - r) % 0x1_0000_0000 == 0
  {
    (l - INT_MIN) % 0x1_0000_0000 + INT_MIN
  }
}
