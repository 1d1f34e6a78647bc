/**
 Orbit geometry of the binary: Kepler's third law split between the two
 stars (geometry.py `calculate_semi_major`) and the stars' positions in the
 orbital plane for one ring (the `r1`/`r2`/`positions` lines of
 `dust_plume_sub`).
 */
module Orbit {
  import opened RealMath

  /** Each star's semi-major axis about the centre of mass, in metres. */
  datatype SemiMajorAxes = SemiMajorAxes(a1: real, a2: real)

  /**
   Kepler's third law gives the total separation a with a^3 = (P / 2 pi)^2 G M;
   the primary takes the fraction m2 / M of it and the secondary the rest, so
   the centre of mass stays put (m1 a1 = m2 a2).
   */
  function SemiMajor(m: Math, periodS: real, m1: real, m2: real): (r: SemiMajorAxes)
    requires Laws(m)
    requires m1 + m2 != 0.0
    ensures Cube(r.a1 + r.a2) == Sq(periodS / TWO_PI) * (G_SI * (m1 * M_ODOT + m2 * M_ODOT))
    ensures m1 * r.a1 == m2 * r.a2
    ensures periodS != 0.0 && m1 >= 0.0 && m2 >= 0.0 ==> r.a1 >= 0.0 && r.a2 >= 0.0 && r.a1 + r.a2 > 0.0
  {
    var m1kg := m1 * M_ODOT;
    var m2kg := m2 * M_ODOT;
    var mkg := m1kg + m2kg;
    var mu := G_SI * mkg;
    var a := m.cbrt(Sq(periodS / TWO_PI) * mu);
    var a1 := m2kg / mkg * a;
    var a2 := a - a1;
    SplitBalances(m1kg, m2kg, a);
    assert m1 * a1 == m2 * a2 by {
      assert m1kg * a1 == m2kg * a2;
    }
    SplitSigns(periodS, m1, m2, a);
    SemiMajorAxes(a1, a2)
  }

  lemma SplitBalances(m1kg: real, m2kg: real, a: real)
    requires m1kg + m2kg != 0.0
    ensures var a1 := m2kg / (m1kg + m2kg) * a;
            m1kg * a1 == m2kg * (a - a1)
  {
    var mkg := m1kg + m2kg;
    var f := m2kg / mkg;
    assert f * mkg == m2kg;
    assert (1.0 - f) * mkg == m1kg;
    calc {
      m1kg * (f * a);
      ((1.0 - f) * mkg) * (f * a);
      (f * mkg) * ((1.0 - f) * a);
      m2kg * (a - f * a);
    }
  }

  lemma SplitSigns(periodS: real, m1: real, m2: real, a: real)
    requires m1 + m2 != 0.0
    requires Cube(a) == Sq(periodS / TWO_PI) * (G_SI * (m1 * M_ODOT + m2 * M_ODOT))
    ensures periodS != 0.0 && m1 >= 0.0 && m2 >= 0.0 ==>
              var a1 := m2 * M_ODOT / (m1 * M_ODOT + m2 * M_ODOT) * a;
              a1 >= 0.0 && a - a1 >= 0.0 && a > 0.0
  {
    if periodS != 0.0 && m1 >= 0.0 && m2 >= 0.0 {
      PositiveCubeRoot(a, periodS / TWO_PI, m1 * M_ODOT + m2 * M_ODOT);
      SplitNonNegative(m1 * M_ODOT, m2 * M_ODOT, a);
    }
  }

  lemma PositiveCubeRoot(a: real, q: real, mass: real)
    requires q != 0.0 && mass > 0.0
    requires Cube(a) == Sq(q) * (G_SI * mass)
    ensures a > 0.0
  {
    assert Sq(q) > 0.0;
    assert G_SI * mass > 0.0;
    assert Sq(q) * (G_SI * mass) > 0.0;
  }

  lemma SplitNonNegative(m1kg: real, m2kg: real, a: real)
    requires m1kg >= 0.0 && m2kg >= 0.0 && m1kg + m2kg > 0.0 && a > 0.0
    ensures 0.0 <= m2kg / (m1kg + m2kg) * a <= a
  {
    var f := m2kg / (m1kg + m2kg);
    QuotientUnit(m2kg, m1kg + m2kg);
    MulMonotone(0.0, f, a);
    MulMonotone(f, 1.0, a);
  }

  /** A part over a whole it belongs to is a fraction in [0, 1]. */
  lemma QuotientUnit(x: real, t: real)
    requires t > 0.0 && 0.0 <= x <= t
    ensures 0.0 <= x / t <= 1.0
  {
    var q := x / t;
    assert q * t == x;
    if q > 1.0 {
      MulSign(q - 1.0, t);
    }
    if q < 0.0 {
      MulSign(-q, t);
    }
  }

  /** Where the two stars are when one ring is launched. */
  datatype BodyPositions = BodyPositions(primary: Vec3, secondary: Vec3)

  /**
   Each star sits at its own orbital radius a_i (1 - e cos E), converted from
   metres to kilometres, on opposite sides of the centre of mass along the
   true-anomaly direction.
   */
  function Positions(m: Math, axes: SemiMajorAxes, ecc: real, eccAnom: real, trueAnom: real): (p: BodyPositions)
    ensures p.primary.z == 0.0 && p.secondary.z == 0.0
    ensures Add(Scale(axes.a2, p.primary), Scale(axes.a1, p.secondary)) == Vec3(0.0, 0.0, 0.0)
  {
    var factor := (1.0 - ecc * m.cos(eccAnom)) * 0.001;
    var r1 := axes.a1 * factor;
    var r2 := axes.a2 * factor;
    var dir := Vec3(m.cos(trueAnom), m.sin(trueAnom), 0.0);
    CrossCancel(axes.a1, axes.a2, factor, dir.x);
    CrossCancel(axes.a1, axes.a2, factor, dir.y);
    BodyPositions(Scale(r1, dir), Scale(-r2, dir))
  }

  /** Radii proportional to the axes, weighted crosswise, cancel. */
  lemma CrossCancel(a1: real, a2: real, f: real, c: real)
    ensures a2 * ((a1 * f) * c) + a1 * (-(a2 * f) * c) == 0.0
  {
    assert a2 * ((a1 * f) * c) == (a1 * a2) * (f * c);
    assert a1 * (-(a2 * f) * c) == -((a1 * a2) * (f * c));
  }

  /** The separation of the stars, a (1 - e cos E), in kilometres. */
  function Separation(axes: SemiMajorAxes, cosE: real, ecc: real): real {
    (axes.a1 + axes.a2) * (1.0 - ecc * cosE) * 0.001
  }

  /** The two stars are `sep` apart. */
  predicate Apart(p: BodyPositions, sep: real) {
    NormSq(Sub(p.primary, p.secondary)) == Sq(sep)
  }

  /** The true anomaly from the eccentric anomaly by the half-angle relation. */
  function TrueFromEccentric(m: Math, eccAnom: real, ecc: real): (nu: real)
    requires Laws(m)
    ensures 0.0 <= ecc < 1.0 && eccAnom == 0.0 ==> nu == 0.0
  {
    PeriapsisRoot(m, 1.0 - ecc);
    2.0 * m.arctan2(m.sqrt(1.0 + ecc) * m.sin(eccAnom / 2.0), m.sqrt(1.0 - ecc) * m.cos(eccAnom / 2.0))
  }

  /** At periapsis the half-angle relation reads `arctan2(0, sqrt(1 - e))`, which is 0. */
  lemma PeriapsisRoot(m: Math, x: real)
    requires Laws(m)
    ensures x > 0.0 ==> m.sqrt(x) * m.cos(0.0) > 0.0
  {
    if x > 0.0 {
      var r := m.sqrt(x);
      assert Sq(r) == x;
    }
  }

  /**
   The positions are mass-weighted opposites -- the centre of mass is the
   origin -- and the primary-to-secondary separation is the full orbital
   radius a (1 - e cos E).
   */
  lemma CentreOfMass(m: Math, periodS: real, m1: real, m2: real,
                     ecc: real, eccAnom: real, trueAnom: real)
    requires Laws(m)
    requires m1 + m2 != 0.0
    ensures var axes := SemiMajor(m, periodS, m1, m2);
            var p := Positions(m, axes, ecc, eccAnom, trueAnom);
            Add(Scale(m1, p.primary), Scale(m2, p.secondary)) == Vec3(0.0, 0.0, 0.0)
    ensures Apart(Positions(m, SemiMajor(m, periodS, m1, m2), ecc, eccAnom, trueAnom),
                  Separation(SemiMajor(m, periodS, m1, m2), m.cos(eccAnom), ecc))
  {
    Balanced(m, SemiMajor(m, periodS, m1, m2), m1, m2, ecc, eccAnom, trueAnom);
    StarsApart(m, SemiMajor(m, periodS, m1, m2), ecc, eccAnom, trueAnom);
  }

  lemma Balanced(m: Math, axes: SemiMajorAxes, m1: real, m2: real,
                 ecc: real, eccAnom: real, trueAnom: real)
    requires m1 * axes.a1 == m2 * axes.a2
    ensures var p := Positions(m, axes, ecc, eccAnom, trueAnom);
            Add(Scale(m1, p.primary), Scale(m2, p.secondary)) == Vec3(0.0, 0.0, 0.0)
  {
    var f := (1.0 - ecc * m.cos(eccAnom)) * 0.001;
    var r1, r2 := axes.a1 * f, axes.a2 * f;
    var c, s := m.cos(trueAnom), m.sin(trueAnom);
    assert m1 * r1 == m2 * r2 by {
      assert m1 * (axes.a1 * f) == (m1 * axes.a1) * f;
      assert m2 * (axes.a2 * f) == (m2 * axes.a2) * f;
    }
    assert m1 * (r1 * c) + m2 * (-r2 * c) == (m1 * r1 - m2 * r2) * c;
    assert m1 * (r1 * s) + m2 * (-r2 * s) == (m1 * r1 - m2 * r2) * s;
  }

  lemma StarsApart(m: Math, axes: SemiMajorAxes, ecc: real, eccAnom: real, trueAnom: real)
    requires Laws(m)
    ensures Apart(Positions(m, axes, ecc, eccAnom, trueAnom), Separation(axes, m.cos(eccAnom), ecc))
  {
    var p := Positions(m, axes, ecc, eccAnom, trueAnom);
    var d := Separation(axes, m.cos(eccAnom), ecc);
    var c, s := m.cos(trueAnom), m.sin(trueAnom);
    OffsetAlongHeading(m, axes, ecc, eccAnom, trueAnom, d);
    assert Sq(s) + Sq(c) == 1.0;
    RadialNorm(d, c, s);
  }

  /** The primary-to-secondary offset is the separation along the true-anomaly direction. */
  lemma OffsetAlongHeading(m: Math, axes: SemiMajorAxes, ecc: real, eccAnom: real, trueAnom: real, d: real)
    requires d == Separation(axes, m.cos(eccAnom), ecc)
    ensures var p := Positions(m, axes, ecc, eccAnom, trueAnom);
            Sub(p.primary, p.secondary) == Vec3(d * m.cos(trueAnom), d * m.sin(trueAnom), 0.0)
  {
    var f := (1.0 - ecc * m.cos(eccAnom)) * 0.001;
    SeparationSplit(axes.a1, axes.a2, 1.0 - ecc * m.cos(eccAnom), f, d);
    Opposite(axes.a1 * f, axes.a2 * f, m.cos(trueAnom), d);
    Opposite(axes.a1 * f, axes.a2 * f, m.sin(trueAnom), d);
  }

  lemma SeparationSplit(a1: real, a2: real, g: real, f: real, d: real)
    requires f == g * 0.001 && d == (a1 + a2) * g * 0.001
    ensures a1 * f + a2 * f == d
  {
  }

  lemma Opposite(r1: real, r2: real, c: real, d: real)
    requires r1 + r2 == d
    ensures r1 * c - -r2 * c == d * c
  {
  }

  /** A vector of length d along a unit direction in the plane has squared norm d^2. */
  lemma RadialNorm(d: real, c: real, s: real)
    requires Sq(s) + Sq(c) == 1.0
    ensures NormSq(Vec3(d * c, d * s, 0.0)) == Sq(d)
  {
    SqOfProduct(d, c);
    SqOfProduct(d, s);
    assert Sq(d) * Sq(c) + Sq(d) * Sq(s) == Sq(d) * (Sq(c) + Sq(s));
  }
}
