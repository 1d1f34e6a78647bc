/**
 The hand-written forward derivatives of `zero_safe_arctan2` and
 `zero_safe_sqrt` (geometry.py lines 205-241). Their primal values are the
 library `arctan2` and `sqrt`; what the source adds is the tangent rule,
 whose denominator is replaced by 1 near the singular point so that it is
 never zero.
 */
module ZeroSafe {
  import opened RealMath

  /** `10 * finfo(float64).eps`, the closeness threshold of both rules. */
  const TOL: real := 10.0 * EPS64

  predicate NearZero(v: real) {
    -TOL < v < TOL
  }

  /** Denominator of the arctan2 tangent: 1 at the origin's neighbourhood, else x^2 + y^2. */
  function Arctan2JvpDenominator(x: real, y: real): (d: real)
    ensures d > 0.0
    ensures !(NearZero(x) && NearZero(y)) ==> d >= Sq(TOL)
    ensures !(NearZero(x) && NearZero(y)) ==> d == Sq(x) + Sq(y)
  {
    if NearZero(x) && NearZero(y) then 1.0
    else
      SquareAtLeast(x);
      SquareAtLeast(y);
      Sq(x) + Sq(y)
  }

  lemma SquareAtLeast(v: real)
    ensures !NearZero(v) ==> Sq(v) >= Sq(TOL)
  {
    if !NearZero(v) {
      var a := Abs(v);
      assert Sq(a) == Sq(v);
      SquareMonotone(TOL, a);
    }
  }

  lemma SquareMonotone(t: real, a: real)
    requires 0.0 <= t <= a
    ensures Sq(t) <= Sq(a)
  {
    MulMonotone(t, a, t);
    MulMonotone(t, a, a);
    assert Mul(a, t) == Mul(t, a);
  }

  /**
   The arctan2 tangent. Away from the origin it is the exact derivative
   (y dx - x dy) / (x^2 + y^2); at the origin itself it is zero.
   */
  function Arctan2Tangent(x: real, y: real, dx: real, dy: real): (t: real)
    ensures !(NearZero(x) && NearZero(y)) ==> t * (Sq(x) + Sq(y)) == y * dx - x * dy
    ensures NearZero(x) && NearZero(y) ==> t == y * dx - x * dy
  {
    (y * dx - x * dy) / Arctan2JvpDenominator(x, y)
  }

  /** Denominator of the sqrt tangent: sqrt(1) at or below the threshold, else sqrt(x). */
  function SqrtJvpDenominator(m: Math, x: real): (d: real)
    requires Laws(m)
    ensures d > 0.0
    ensures x > TOL ==> Sq(d) == x
    ensures x <= TOL ==> d == 1.0
  {
    var v := if x <= TOL then 1.0 else x;
    var d := m.sqrt(v);
    assert Sq(d) == v;
    if x <= TOL then
      SquareRootOfOne(d);
      d
    else
      PositiveRoot(d, v);
      d
  }

  lemma SquareRootOfOne(d: real)
    requires d >= 0.0 && Sq(d) == 1.0
    ensures d == 1.0
  {
    if d > 1.0 {
      SquareMonotone(1.0, d);
      SquareAboveOne(d);
      assert false;
    } else if d < 1.0 {
      SquareBelowOne(d);
      assert false;
    }
  }

  lemma SquareBelowOne(d: real)
    requires 0.0 <= d < 1.0
    ensures Sq(d) < 1.0
  {
    assert d * d <= d * 1.0;
  }

  lemma PositiveRoot(d: real, v: real)
    requires d >= 0.0 && Sq(d) == v && v > 0.0
    ensures d > 0.0
  {
  }

  /**
   The sqrt tangent. Above the threshold it is the exact derivative
   dx / (2 sqrt x); at or below it, it is 0.5 dx rather than unbounded.
   */
  function SqrtTangent(m: Math, x: real, dx: real): (t: real)
    requires Laws(m)
    ensures x > TOL ==> 2.0 * t * m.sqrt(x) == dx
    ensures x <= TOL ==> t == 0.5 * dx
  {
    0.5 * dx / SqrtJvpDenominator(m, x)
  }
}
