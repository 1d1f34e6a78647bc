/**
 Wind anisotropy (geometry.py `spin_orbit_mult`): the Wolf-Rayet star's wind
 may be faster and wider towards its spin poles. The multipliers blend from 1
 in the spin equator towards the polar-to-equatorial ratio, through a tanh of
 the companion's latitude above that equator.
 */
module Anisotropy {
  import opened RealMath
  import opened Params

  /** Multipliers of the ring's opening angle and of its expansion speed. */
  datatype SpinMultipliers = SpinMultipliers(openAngleMult: real, velMult: real)

  /**
   The sine of the latitude of the line to the companion above the spin
   equator, in absolute value, scaled by the spin inclination.
   */
  function Latitude(m: Math, trueAnom: real, sd: StarData): (d: real)
    ensures d >= 0.0
  {
    Abs(sd.spinInc * m.sin(trueAnom - Deg2Rad(sd.spinOmega)))
  }

  /**
   `1 + (ratio - 1) tanh(10^steep * dist^power)`: 1 in the equator, tending
   to `ratio` at high latitude, and never beyond either.
   */
  function Blend(m: Math, ratio: real, steep: real, dist: real, power: real): (r: real)
    requires Laws(m)
    requires dist >= 0.0
    ensures Min(1.0, ratio) <= r <= Max(1.0, ratio)
    ensures ratio == 1.0 ==> r == 1.0
  {
    var t := m.tanh(Steepness(m, steep, dist, power));
    BlendBetween(ratio, t);
    1.0 + Mul(ratio - 1.0, t)
  }

  /** The tanh argument, never negative. */
  function Steepness(m: Math, steep: real, dist: real, power: real): (x: real)
    requires Laws(m)
    requires dist >= 0.0
    ensures x >= 0.0
  {
    var scale := Pow10(m, steep);
    var reach := m.pow(dist, power);
    assert scale > 0.0 && reach >= 0.0;
    Mul(scale, reach)
  }

  lemma BlendBetween(ratio: real, t: real)
    requires 0.0 <= t < 1.0
    ensures Min(1.0, ratio) <= 1.0 + Mul(ratio - 1.0, t) <= Max(1.0, ratio)
  {
    var k := ratio - 1.0;
    ScaleOrder(k, 0.0, t);
    ScaleOrder(k, t, 1.0);
    assert Mul(k, 1.0) == k;
  }

  /**
   The source's `spin_orbit_mult`; the `direction` argument it takes is
   unused there and is left out here. Speeds and angles are divided by their
   equatorial values, so those must be non-zero.
   */
  function SpinOrbitMult(m: Math, trueAnom: real, sd: StarData): (r: SpinMultipliers)
    requires Laws(m)
    requires sd.windspeed1 != 0.0 && sd.openAngle != 0.0
    ensures var ratio := sd.windspeedPolar / sd.windspeed1;
            Min(1.0, ratio) <= r.velMult <= Max(1.0, ratio)
    ensures var ratio := sd.openAnglePolar / sd.openAngle;
            Min(1.0, ratio) <= r.openAngleMult <= Max(1.0, ratio)
    ensures sd.windspeedPolar == sd.windspeed1 ==> r.velMult == 1.0
    ensures sd.openAnglePolar == sd.openAngle ==> r.openAngleMult == 1.0
  {
    var dist := Latitude(m, trueAnom, sd);
    assert sd.windspeedPolar == sd.windspeed1 ==> sd.windspeedPolar / sd.windspeed1 == 1.0;
    assert sd.openAnglePolar == sd.openAngle ==> sd.openAnglePolar / sd.openAngle == 1.0;
    var vel := Blend(m, sd.windspeedPolar / sd.windspeed1, sd.anisoVelMult, dist, sd.anisoVelPower);
    var oa := Blend(m, sd.openAnglePolar / sd.openAngle, sd.anisoOAMult, dist, sd.anisoOAPower);
    SpinMultipliers(oa, vel)
  }

  /**
   With a non-negative power, a multiplier moves monotonically towards its
   polar ratio as the latitude grows: up when the poles are faster or wider,
   down when they are slower or narrower.
   */
  lemma BlendMonotone(m: Math, ratio: real, steep: real, d1: real, d2: real, power: real)
    requires Laws(m)
    requires 0.0 <= d1 <= d2 && power >= 0.0
    ensures ratio >= 1.0 ==> Blend(m, ratio, steep, d1, power) <= Blend(m, ratio, steep, d2, power)
    ensures ratio <= 1.0 ==> Blend(m, ratio, steep, d1, power) >= Blend(m, ratio, steep, d2, power)
  {
    var s1 := Steepness(m, steep, d1, power);
    var s2 := Steepness(m, steep, d2, power);
    assert m.pow(d1, power) <= m.pow(d2, power);
    MulMonotone(m.pow(d1, power), m.pow(d2, power), Pow10(m, steep));
    assert Mul(Pow10(m, steep), m.pow(d1, power)) == Mul(m.pow(d1, power), Pow10(m, steep));
    assert Mul(Pow10(m, steep), m.pow(d2, power)) == Mul(m.pow(d2, power), Pow10(m, steep));
    assert s1 <= s2;
    var t1, t2 := m.tanh(s1), m.tanh(s2);
    assert t1 <= t2;
    ScaleOrder(ratio - 1.0, t1, t2);
  }

  lemma ScaleOrder(k: real, t1: real, t2: real)
    requires t1 <= t2
    ensures k >= 0.0 ==> Mul(k, t1) <= Mul(k, t2)
    ensures k <= 0.0 ==> Mul(k, t1) >= Mul(k, t2)
  {
    assert k * t2 - k * t1 == k * (t2 - t1);
    MulSign(k, t2 - t1);
    MulSign(-k, t2 - t1);
    assert -k * (t2 - t1) == -(k * (t2 - t1));
  }
}
