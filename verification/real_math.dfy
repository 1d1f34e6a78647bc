/**
 Real-number foundations shared by every module of the dust-plume model.

 The simulator computes in 64-bit floating point; the model computes over
 Dafny's exact `real`, so rounding is not modelled. Transcendental functions
 cannot be defined exactly, so they travel together as a `Math` record of
 function values, and the predicate `Laws` states the few facts about them
 that the proofs rely on.
 */
module RealMath {

  /** `jnp.pi` as a decimal literal. */
  const PI: real := 3.141592653589793
  const TWO_PI: real := 2.0 * PI

  /** Kilometres in one astronomical unit (geometry.py `AU2km`). */
  const AU2KM: real := 149600000.0
  /** Seconds in a Julian year (geometry.py `yr2s` = 365.25 * 24 * 60 * 60). */
  const YR2S: real := 31557600.0
  /** Solar mass in kilograms (geometry.py `M_odot`). */
  const M_ODOT: real := 1980000000000000000000000000000.0
  /** Gravitational constant in SI units (geometry.py `G`). */
  const G_SI: real := 0.0000000000667
  /** Machine epsilon of a 64-bit float, 2^-52. */
  const EPS64: real := 1.0 / 4503599627370496.0

  /** The transcendental functions the simulator calls, as opaque values. */
  datatype Math = Math(
    exp: real -> real,
    tanh: real -> real,
    sin: real -> real,
    cos: real -> real,
    sqrt: real -> real,
    cbrt: real -> real,
    tan: real -> real,
    pow: (real, real) -> real,       // x ** p
    arctan2: (real, real) -> real,
    arccos: real -> real)

  ghost predicate ExpLaw(exp: real -> real) {
    && exp(0.0) == 1.0
    && (forall x :: x <= 0.0 ==> 0.0 < exp(x) <= 1.0)
    && (forall x, y :: x <= y ==> exp(x) <= exp(y))
  }

  ghost predicate TanhLaw(tanh: real -> real) {
    && (forall x :: x >= 0.0 ==> 0.0 <= tanh(x) < 1.0)
    && (forall x, y :: x <= y ==> tanh(x) <= tanh(y))
  }

  ghost predicate TrigLaw(sin: real -> real, cos: real -> real) {
    forall x :: Sq(sin(x)) + Sq(cos(x)) == 1.0
  }

  /** The values at zero that the periastron case relies on. */
  ghost predicate ZeroLaw(m: Math) {
    && m.tan(0.0) == 0.0
    && m.sin(0.0) == 0.0
    && m.cos(0.0) == 1.0
    && (forall x :: x > 0.0 ==> m.arctan2(0.0, x) == 0.0)
  }

  ghost predicate ArccosLaw(arccos: real -> real) {
    forall x :: 0.0 <= arccos(x) <= PI
  }

  ghost predicate SqrtLaw(sqrt: real -> real) {
    forall x :: x >= 0.0 ==> sqrt(x) >= 0.0 && Sq(sqrt(x)) == x
  }

  ghost predicate CbrtLaw(cbrt: real -> real) {
    forall x :: Cube(cbrt(x)) == x
  }

  ghost predicate PowLaw(pow: (real, real) -> real) {
    && (forall x, p :: x >= 0.0 ==> pow(x, p) >= 0.0)
    && (forall x, p :: x > 0.0 ==> pow(x, p) > 0.0)
    && (forall x :: pow(x, 1.0) == x)
    && (forall p :: pow(1.0, p) == 1.0)
    && (forall x, y, p :: 0.0 <= x <= y && p >= 0.0 ==> pow(x, p) <= pow(y, p))
  }

  /** Everything the model assumes about the transcendental functions. */
  ghost predicate Laws(m: Math) {
    && ExpLaw(m.exp)
    && TanhLaw(m.tanh)
    && TrigLaw(m.sin, m.cos)
    && SqrtLaw(m.sqrt)
    && CbrtLaw(m.cbrt)
    && PowLaw(m.pow)
    && ArccosLaw(m.arccos)
    && ZeroLaw(m)
  }

  /** A point or direction in the orbital frame. */
  datatype Vec3 = Vec3(x: real, y: real, z: real)

  function Add(a: Vec3, b: Vec3): Vec3 {
    Vec3(a.x + b.x, a.y + b.y, a.z + b.z)
  }

  function Sub(a: Vec3, b: Vec3): Vec3 {
    Vec3(a.x - b.x, a.y - b.y, a.z - b.z)
  }

  function Scale(k: real, v: Vec3): Vec3 {
    Vec3(k * v.x, k * v.y, k * v.z)
  }

  function NormSq(v: Vec3): real {
    Sq(v.x) + Sq(v.y) + Sq(v.z)
  }

  /** A product, with the sign rules the proofs need stated once. */
  function Mul(a: real, b: real): (r: real)
    ensures a > 0.0 && b > 0.0 ==> r > 0.0
    ensures a < 0.0 && b < 0.0 ==> r > 0.0
    ensures a == 0.0 || b == 0.0 ==> r == 0.0
  {
    MulSign(a, b);
    a * b
  }

  lemma MulSign(a: real, b: real)
    ensures a > 0.0 && b > 0.0 ==> a * b > 0.0
    ensures a < 0.0 && b < 0.0 ==> a * b > 0.0
  {
    if a < 0.0 && b < 0.0 {
      assert a * b == (-a) * (-b);
    }
  }

  /** Multiplying by a non-negative factor keeps order. */
  lemma MulMonotone(a: real, b: real, c: real)
    requires a <= b && c >= 0.0
    ensures Mul(a, c) <= Mul(b, c)
  {
    assert b * c - a * c == (b - a) * c;
    MulSign(b - a, c);
  }

  /** The square of a real: never negative, and zero only at zero. */
  function Sq(x: real): (r: real)
    ensures r >= 0.0
    ensures x != 0.0 ==> r > 0.0
  {
    Mul(x, x)
  }

  /** The cube of a real keeps the sign of its argument. */
  function Cube(x: real): (r: real)
    ensures x <= 0.0 ==> r <= 0.0
    ensures x > 0.0 ==> r > 0.0
  {
    Sq(x) * x
  }

  lemma SqOfProduct(a: real, b: real)
    ensures Sq(a * b) == Sq(a) * Sq(b)
  {
  }

  /** A number above 1 has a square above 1. */
  lemma SquareAboveOne(d: real)
    requires d > 1.0
    ensures Sq(d) > 1.0
  {
    assert d * d >= d * 1.0;
  }

  /** Expanding the squared norm of a vector rotated in the plane. */
  lemma RotationIdentity(c: real, s: real, x: real, y: real)
    ensures Sq(c * x - s * y) + Sq(s * x + c * y) == (Sq(c) + Sq(s)) * (Sq(x) + Sq(y))
  {
  }

  function Max(a: real, b: real): real {
    if a >= b then a else b
  }

  function Min(a: real, b: real): real {
    if a <= b then a else b
  }

  function Abs(x: real): real {
    if x < 0.0 then -x else x
  }

  function Deg2Rad(d: real): real {
    d * PI / 180.0
  }

  /** `jnp.heaviside(x, h0)`: 0 below zero, `h0` at zero, 1 above. */
  function Heaviside(x: real, h0: real): real {
    if x < 0.0 then 0.0 else if x == 0.0 then h0 else 1.0
  }

  /** `10 ** x` through the opaque power function. */
  function Pow10(m: Math, x: real): real {
    m.pow(10.0, x)
  }

  /** Python's float `x % w` for a positive modulus: rounds the quotient down. */
  function FloorMod(x: real, w: real): (r: real)
    requires w > 0.0
    ensures 0.0 <= r < w
  {
    var q := (x / w).Floor;
    FloorQuotientBounds(x, w);
    x - w * q as real
  }

  lemma FloorQuotientBounds(x: real, w: real)
    requires w > 0.0
    ensures 0.0 <= x - w * (x / w).Floor as real < w
  {
    var q := x / w;
    DivTimes(x, w);
    RemainderBounds(x, w, q, q.Floor as real);
  }

  lemma DivTimes(x: real, w: real)
    requires w != 0.0
    ensures w * (x / w) == x
  {
  }

  lemma RemainderBounds(x: real, w: real, q: real, f: real)
    requires w > 0.0 && w * q == x
    requires f <= q < f + 1.0
    ensures 0.0 <= x - w * f < w
  {
    var d := q - f;
    assert x - w * f == w * d;
    assert w * d < w by {
      assert w * (1.0 - d) > 0.0;
    }
  }

  /** A value already in `[0, w)` is its own remainder. */
  lemma FloorModOfRange(x: real, w: real)
    requires w > 0.0
    requires 0.0 <= x < w
    ensures FloorMod(x, w) == x
  {
    var q := x / w;
    DivTimes(x, w);
    QuotientBelowOne(x, w, q);
    assert q.Floor == 0;
  }

  lemma QuotientBelowOne(x: real, w: real, q: real)
    requires w > 0.0 && w * q == x && 0.0 <= x < w
    ensures 0.0 <= q < 1.0
  {
  }

  /** Shifting by whole periods does not change the remainder. */
  lemma FloorModPeriodic(x: real, w: real, k: int)
    requires w > 0.0
    ensures FloorMod(x + k as real * w, w) == FloorMod(x, w)
  {
    var q := x / w;
    var q' := (x + k as real * w) / w;
    assert q' == q + k as real by {
      assert q' * w == x + k as real * w;
      assert (q + k as real) * w == x + k as real * w;
    }
    assert q'.Floor == q.Floor + k;
  }

  /** An angle within one turn either side of 0 is brought into `[0, 2 pi)` by at most one turn. */
  lemma InTurn(x: real)
    ensures 0.0 <= x < TWO_PI ==> FloorMod(x, TWO_PI) == x
    ensures -TWO_PI <= x < 0.0 ==> FloorMod(x, TWO_PI) == x + TWO_PI
  {
    if 0.0 <= x < TWO_PI {
      FloorModOfRange(x, TWO_PI);
    } else if -TWO_PI <= x < 0.0 {
      FloorModOfRange(x + TWO_PI, TWO_PI);
      FloorModPeriodic(x, TWO_PI, 1);
    }
  }
}
