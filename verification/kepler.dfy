/**
 The Kepler-equation solve (geometry.py `kepler_solver_impl`, `kepler`).

 The solver proper -- a rational starter followed by a quartic corrector --
 is floating-point approximation work and is kept opaque: it is the
 parameter `core`, which is only ever asked about a mean anomaly in
 `[0, pi]`. What is modelled is the range reduction around it: the mean
 anomaly is taken modulo 2 pi, a value above pi is mirrored to 2 pi - M,
 and the eccentric anomaly found for the mirror is mirrored back.
 */
module Kepler {
  import opened RealMath

  /** A mean anomaly reduced to `[0, pi]`, and whether the mirror was taken. */
  datatype Reduced = Reduced(anomaly: real, mirrored: bool)

  function ReduceMeanAnomaly(meanAnom: real): (r: Reduced)
    ensures 0.0 <= r.anomaly <= PI
    ensures r.mirrored <==> FloorMod(meanAnom, TWO_PI) > PI
    ensures var turns := (meanAnom / TWO_PI).Floor + (if r.mirrored then 1 else 0);
            meanAnom == turns as real * TWO_PI + (if r.mirrored then -r.anomaly else r.anomaly)
    ensures 0.0 <= meanAnom <= PI ==> r == Reduced(meanAnom, false)
    ensures PI < meanAnom < TWO_PI ==> r == Reduced(TWO_PI - meanAnom, true)
  {
    var m := FloorMod(meanAnom, TWO_PI);
    FloorQuotientBounds(meanAnom, TWO_PI);
    InTurn(meanAnom);
    if m > PI then Reduced(TWO_PI - m, true) else Reduced(m, false)
  }

  /**
   The eccentric anomaly for `meanAnom`, solving only on the reduced range:
   on `[0, pi]` the core answers directly, on `(pi, 2 pi)` it answers for the
   mirror and the answer is mirrored back.
   */
  function Solve(core: (real, real) -> real, meanAnom: real, ecc: real): (e: real)
    ensures 0.0 <= meanAnom <= PI ==> e == core(meanAnom, ecc)
    ensures PI < meanAnom < TWO_PI ==> e == TWO_PI - core(TWO_PI - meanAnom, ecc)
  {
    var red := ReduceMeanAnomaly(meanAnom);
    var e := core(red.anomaly, ecc);
    if red.mirrored then TWO_PI - e else e
  }

  /**
   Mirror symmetry: away from 0 and pi, the solutions for M and 2 pi - M add
   up to 2 pi, whatever the core computes.
   */
  lemma SolveMirror(core: (real, real) -> real, meanAnom: real, ecc: real)
    requires 0.0 < meanAnom < TWO_PI && meanAnom != PI
    ensures Solve(core, meanAnom, ecc) + Solve(core, TWO_PI - meanAnom, ecc) == TWO_PI
  {
    FloorModOfRange(meanAnom, TWO_PI);
    FloorModOfRange(TWO_PI - meanAnom, TWO_PI);
  }

  /** Whole turns of mean anomaly give the same eccentric anomaly. */
  lemma SolvePeriodic(core: (real, real) -> real, meanAnom: real, ecc: real, k: int)
    ensures Solve(core, meanAnom + k as real * TWO_PI, ecc) == Solve(core, meanAnom, ecc)
  {
    FloorModPeriodic(meanAnom, TWO_PI, k);
  }

  /** The implicit-function derivatives of the solve (`kepler_solver_jvp`). */
  datatype KeplerJvp = KeplerJvp(dEdM: real, dEde: real)

  /**
   For a bound orbit the denominator 1 - e cos E is positive, so dE/dM is
   its reciprocal -- the implicit derivative of M = E - e sin E -- and lies
   between 1 / (1 + e) and 1 / (1 - e); dE/de is sin E over the same
   denominator.
   */
  function SolveJvp(m: Math, eccAnom: real, ecc: real): (r: KeplerJvp)
    requires Laws(m)
    requires 0.0 <= ecc < 1.0
    ensures r.dEdM * (1.0 - ecc * m.cos(eccAnom)) == 1.0
    ensures 1.0 / (1.0 + ecc) <= r.dEdM <= 1.0 / (1.0 - ecc)
    ensures r.dEde * (1.0 - ecc * m.cos(eccAnom)) == m.sin(eccAnom)
  {
    CosBounded(m, eccAnom);
    JvpOf(m.sin(eccAnom), m.cos(eccAnom), ecc)
  }

  /** The two derivatives from `sin E` and `cos E`. */
  function JvpOf(s: real, c: real, ecc: real): (r: KeplerJvp)
    requires 0.0 <= ecc < 1.0 && -1.0 <= c <= 1.0
    ensures r.dEdM * (1.0 - ecc * c) == 1.0
    ensures 1.0 / (1.0 + ecc) <= r.dEdM <= 1.0 / (1.0 - ecc)
    ensures r.dEde * (1.0 - ecc * c) == s
  {
    DerivativeBounds(ecc, c);
    ReciprocalTimes(s, 1.0 - ecc * c);
    var dEdM := 1.0 / (1.0 - ecc * c);
    KeplerJvp(dEdM, s * dEdM)
  }

  /** Dividing by a non-zero `d` and multiplying back by it is the identity. */
  lemma ReciprocalTimes(s: real, d: real)
    requires d != 0.0
    ensures 1.0 / d * d == 1.0
    ensures s * (1.0 / d) * d == s
  {
    assert s * (1.0 / d) * d == s * (1.0 / d * d);
  }

  lemma DerivativeBounds(ecc: real, c: real)
    requires 0.0 <= ecc < 1.0 && -1.0 <= c <= 1.0
    ensures 1.0 - ecc * c > 0.0
    ensures 1.0 / (1.0 + ecc) <= 1.0 / (1.0 - ecc * c) <= 1.0 / (1.0 - ecc)
  {
    ScaledBounds(ecc, c);
    var denom := 1.0 - ecc * c;
    assert 1.0 - ecc <= denom <= 1.0 + ecc;
    ReciprocalBounds(1.0 - ecc, denom, 1.0 + ecc);
  }

  lemma CosBounded(m: Math, x: real)
    requires Laws(m)
    ensures -1.0 <= m.cos(x) <= 1.0
  {
    var c := m.cos(x);
    assert Sq(m.sin(x)) + Sq(c) == 1.0;
    if c > 1.0 {
      SquareAboveOne(c);
    } else if c < -1.0 {
      SquareAboveOne(-c);
    }
  }

  lemma ScaledBounds(e: real, c: real)
    requires 0.0 <= e && -1.0 <= c <= 1.0
    ensures -e <= e * c <= e
  {
    assert e * (1.0 - c) >= 0.0;
    assert e * (1.0 + c) >= 0.0;
  }

  lemma ReciprocalBounds(lo: real, d: real, hi: real)
    requires 0.0 < lo <= d <= hi
    ensures 1.0 / hi <= 1.0 / d <= 1.0 / lo
  {
  }
}
