/**
 One dust ring (geometry.py `dust_circle`): where its particles sit and how
 bright each one is.

 A ring's brightness is switched by the dust-production window in true
 anomaly and by the nucleation distance, softened by an optional gradual
 turn-on/off, dimmed inside the cone around a tertiary companion, and
 scaled by the orbital and azimuthal variation curves. Every factor is
 kept within [0, 1], so a particle weight is too.
 */
module Ring {
  import opened RealMath
  import opened Params
  import opened ZeroSafe
  import opened Anisotropy

  /** A true anomaly moved into `[-pi, pi)`, so production windows may straddle periastron. */
  function WrapAnomaly(nu: real): (r: real)
    ensures -PI <= r < PI
  {
    FloorMod(nu - PI, TWO_PI) - PI
  }

  /** An anomaly already in `[-pi, pi)` is left alone... */
  lemma WrapFixed(nu: real)
    requires -PI <= nu < PI
    ensures WrapAnomaly(nu) == nu
  {
    FloorModPeriodic(nu - PI, TWO_PI, 1);
    FloorModOfRange(nu + PI, TWO_PI);
  }

  /** ...and whole turns make no difference. */
  lemma WrapPeriodic(nu: real, k: int)
    ensures WrapAnomaly(nu + k as real * TWO_PI) == WrapAnomaly(nu)
  {
    WrapShift(nu, nu + k as real * TWO_PI, k);
  }

  lemma WrapShift(nu: real, x: real, k: int)
    requires x - PI == (nu - PI) + k as real * TWO_PI
    ensures WrapAnomaly(x) == WrapAnomaly(nu)
  {
    FloorModPeriodic(nu - PI, TWO_PI, k);
  }

  /** `exp(-z^2 / 2)`, the bell curve every soft factor uses. */
  function Bell(m: Math, z: real): (g: real)
    requires Laws(m)
    ensures 0.0 < g <= 1.0
    ensures z == 0.0 ==> g == 1.0
  {
    m.exp(-0.5 * Sq(z))
  }

  /** Whether dust is being produced: inside the window, and far enough out to nucleate. */
  function ProductionGate(nu: real, width: real, sd: StarData): (g: real)
    ensures g == 0.0 || g == 1.0
    ensures g == 1.0 <==>
              && Deg2Rad(sd.turnOn) < WrapAnomaly(nu) < Deg2Rad(sd.turnOff)
              && width >= sd.nucDist * AU2KM
  {
    var t := WrapAnomaly(nu);
    var turnedOn := Heaviside(t - Deg2Rad(sd.turnOn), 0.0);
    var turnedOff := Heaviside(Deg2Rad(sd.turnOff) - t, 0.0);
    var nucleated := Heaviside(width - sd.nucDist * AU2KM, 1.0);
    turnedOn * turnedOff * nucleated
  }

  /**
   The soft edges of the production window: outside it, a bell curve in the
   distance to the nearer edge with width `gradual_turn` (at least 0.001
   radians), capped at 1. A width of a radian or more switches the soft edges
   off altogether.
   */
  function GradualResidual(m: Math, nu: real, sd: StarData): (r: real)
    requires Laws(m)
    ensures 0.0 <= r <= 1.0
    ensures Deg2Rad(sd.gradualTurn) >= 1.0 ==> r == 0.0
    ensures Deg2Rad(sd.turnOn) < WrapAnomaly(nu) < Deg2Rad(sd.turnOff) ==> r == 0.0
    ensures Deg2Rad(sd.gradualTurn) < 1.0 ==>
              (r > 0.0 <==> !(Deg2Rad(sd.turnOn) < WrapAnomaly(nu) < Deg2Rad(sd.turnOff)))
    ensures Deg2Rad(sd.gradualTurn) < 1.0 && WrapAnomaly(nu) <= Deg2Rad(sd.turnOn)
              && WrapAnomaly(nu) < Deg2Rad(sd.turnOff) ==>
              r == Bell(m, (WrapAnomaly(nu) - Deg2Rad(sd.turnOn)) / EdgeWidth(sd))
    ensures Deg2Rad(sd.gradualTurn) < 1.0 && Deg2Rad(sd.turnOn) < WrapAnomaly(nu)
              && Deg2Rad(sd.turnOff) <= WrapAnomaly(nu) ==>
              r == Bell(m, (WrapAnomaly(nu) - Deg2Rad(sd.turnOff)) / EdgeWidth(sd))
    ensures Deg2Rad(sd.gradualTurn) < 1.0 && Deg2Rad(sd.turnOff) <= WrapAnomaly(nu) <= Deg2Rad(sd.turnOn) ==>
              r == Min(Bell(m, (WrapAnomaly(nu) - Deg2Rad(sd.turnOn)) / EdgeWidth(sd))
                       + Bell(m, (WrapAnomaly(nu) - Deg2Rad(sd.turnOff)) / EdgeWidth(sd)), 1.0)
  {
    var sigma := EdgeWidth(sd);
    (1.0 - Heaviside(sigma - 1.0, 1.0)) * SoftEdges(m, WrapAnomaly(nu), Deg2Rad(sd.turnOn), Deg2Rad(sd.turnOff), sigma)
  }

  /**
   The residual at anomaly `t` of a window from `on` to `off` (radians) with
   edges of width `sigma`: the bell of each edge that is switched off, summed
   and capped at 1.
   */
  function SoftEdges(m: Math, t: real, on: real, off: real, sigma: real): (r: real)
    requires Laws(m)
    requires sigma > 0.0
    ensures 0.0 <= r <= 1.0
    ensures r > 0.0 <==> !(on < t < off)
    ensures t <= on && t < off ==> r == Bell(m, (t - on) / sigma)
    ensures on < t && off <= t ==> r == Bell(m, (t - off) / sigma)
    ensures off <= t <= on ==> r == Min(Bell(m, (t - on) / sigma) + Bell(m, (t - off) / sigma), 1.0)
  {
    var turnedOn := Heaviside(t - on, 0.0);
    var turnedOff := Heaviside(off - t, 0.0);
    Min(EdgeResidual(m, turnedOn, (t - on) / sigma) + EdgeResidual(m, turnedOff, (t - off) / sigma), 1.0)
  }

  /** The width of the soft edges in radians, `gradual_turn` but at least 0.001. */
  function EdgeWidth(sd: StarData): real {
    Max(Deg2Rad(sd.gradualTurn), 0.001)
  }

  /** `(1 - turned) * exp(-z^2 / 2)`: the soft tail on the side of one edge that is switched off. */
  function EdgeResidual(m: Math, turned: real, z: real): (r: real)
    requires Laws(m)
    requires turned == 0.0 || turned == 1.0
    ensures 0.0 <= r <= 1.0
    ensures turned == 1.0 ==> r == 0.0
  {
    UnitProduct(1.0 - turned, Bell(m, z));
    Mul(1.0 - turned, Bell(m, z))
  }

  /** A product of two weights in [0, 1] is a weight in [0, 1]. */
  lemma UnitProduct(a: real, b: real)
    requires 0.0 <= a <= 1.0 && 0.0 <= b <= 1.0
    ensures 0.0 <= Mul(a, b) <= Mul(a, 1.0) <= 1.0
  {
    MulMonotone(b, 1.0, a);
    assert Mul(b, a) == Mul(a, b);
    assert Mul(1.0, a) == Mul(a, 1.0);
  }

  /**
   The ring's weight before any dimming: 1 inside the window once nucleated,
   the soft residual outside it once nucleated, 0 before nucleation.
   */
  function BaseWeight(m: Math, nu: real, width: real, sd: StarData): (w: real)
    requires Laws(m)
    ensures 0.0 <= w <= 1.0
    ensures ProductionGate(nu, width, sd) == 1.0 ==> w == 1.0
    ensures width < sd.nucDist * AU2KM ==> w == 0.0
    ensures Deg2Rad(sd.gradualTurn) >= 1.0 ==> w == ProductionGate(nu, width, sd)
    ensures width >= sd.nucDist * AU2KM && !(Deg2Rad(sd.turnOn) < WrapAnomaly(nu) < Deg2Rad(sd.turnOff)) ==>
              w == GradualResidual(m, nu, sd)
    ensures width >= sd.nucDist * AU2KM && Deg2Rad(sd.gradualTurn) < 1.0 ==> w > 0.0
  {
    var nucleated := Heaviside(width - sd.nucDist * AU2KM, 1.0);
    ProductionGate(nu, width, sd) + GradualResidual(m, nu, sd) * nucleated
  }

  /**
   Photodissociation by a tertiary companion: inside the cone of half-angle
   `comp_open / 2` around it, a particle keeps `1 - comp_reduction` times a
   bell in its angular distance (never below 0); outside, it is untouched.
   The angular distance is an arccos, so it is never negative.
   */
  function CompanionFactor(m: Math, sd: StarData, angDist: real): (f: real)
    requires Laws(m)
    requires angDist >= 0.0
    ensures f >= 0.0
    ensures sd.compReduction >= 0.0 ==> f <= 1.0
    ensures angDist >= Deg2Rad(sd.compOpen / 2.0) ==> f == 1.0
    ensures sd.compReduction == 0.0 ==> f == 1.0
  {
    var halfTheta := Deg2Rad(sd.compOpen / 2.0);
    if angDist < halfTheta then
      var g := m.exp(-Sq(angDist / halfTheta));
      assert 0.0 < g <= 1.0;
      MulSign(sd.compReduction, g);
      Max(1.0 - Mul(sd.compReduction, g), 0.0)
    else 1.0
  }

  /** A stronger companion never brightens a particle. */
  lemma CompanionMonotone(m: Math, sd: StarData, reduction: real, angDist: real)
    requires Laws(m)
    requires angDist >= 0.0 && reduction >= sd.compReduction
    ensures CompanionFactor(m, sd.(compReduction := reduction), angDist) <= CompanionFactor(m, sd, angDist)
  {
    var halfTheta := Deg2Rad(sd.compOpen / 2.0);
    if angDist < halfTheta {
      var g := m.exp(-Sq(angDist / halfTheta));
      assert 0.0 < g <= 1.0;
      MulMonotone(sd.compReduction, reduction, g);
    }
  }

  /**
   The brightness-variation curve shared by the orbital and the azimuthal
   variation: 1 less `(1 - amp)` times a bell centred on `centre` (degrees)
   with spread `sd` (at least 0.0001), plus 1 whenever that spread is below 1
   -- which, once clipped to [0, 1], turns the variation off.
   */
  function Variation(m: Math, amp: real, centre: real, sd: real, xDeg: real): (v: real)
    requires Laws(m)
    ensures sd >= 1.0 ==> v == 1.0 - Mul(1.0 - amp, Bell(m, (xDeg - centre) / sd))
    ensures sd >= 1.0 && xDeg == centre ==> v == amp
    ensures sd < 1.0 ==> v == 2.0 - Mul(1.0 - amp, Bell(m, (xDeg - centre) / Max(sd, 0.0001)))
  {
    var spread := Max(sd, 0.0001);
    1.0 - Mul(1.0 - amp, Bell(m, (xDeg - centre) / spread)) + (1.0 - Heaviside(spread - 1.0, 1.0))
  }

  /** The variation curve is at most 1 above its floor... */
  lemma VariationBounds(m: Math, amp: real, centre: real, sd: real, xDeg: real)
    requires Laws(m)
    ensures 0.0 <= amp <= 1.0 ==> amp <= Variation(m, amp, centre, sd, xDeg)
    ensures 0.0 <= amp <= 1.0 && sd >= 1.0 ==> Variation(m, amp, centre, sd, xDeg) <= 1.0
  {
    if 0.0 <= amp <= 1.0 {
      var spread := Max(sd, 0.0001);
      var g := Bell(m, (xDeg - centre) / spread);
      UnitProduct(1.0 - amp, g);
      assert Mul(1.0 - amp, 1.0) == 1.0 - amp;
    }
  }

  /** `orb` clips the curve to 1 from above, then to 0 from below... */
  function ClipOrbital(v: real): real {
    Max(Min(v, 1.0), 0.0)
  }

  /** ...while `az` clips from below first; the two orders agree. */
  function ClipAzimuthal(v: real): (r: real)
    ensures r == ClipOrbital(v)
    ensures 0.0 <= r <= 1.0
  {
    Min(Max(v, 0.0), 1.0)
  }

  /**
   Orbital variation: a whole ring is dimmed according to where in the orbit
   it was launched, the wrapped anomaly read in degrees from 0 to 360.
   */
  function OrbitalFactor(m: Math, nu: real, sd: StarData): (f: real)
    requires Laws(m)
    ensures 0.0 <= f <= 1.0
    ensures sd.orbSd < 1.0 && sd.orbAmp >= 0.0 ==> f == 1.0
    ensures 0.0 <= sd.orbAmp <= 1.0 ==> sd.orbAmp <= f
    ensures sd.orbAmp == 1.0 ==> f == 1.0
    ensures sd.orbSd >= 1.0 && 0.0 <= sd.orbAmp <= 1.0 ==>
              f == 1.0 - Mul(1.0 - sd.orbAmp, Bell(m, (WrapAnomaly(nu) * 180.0 / PI + 180.0 - sd.orbMin) / sd.orbSd))
    ensures sd.orbSd >= 1.0 && 0.0 <= sd.orbAmp <= 1.0 && WrapAnomaly(nu) * 180.0 / PI + 180.0 == sd.orbMin ==>
              f == sd.orbAmp
  {
    var v := Variation(m, sd.orbAmp, sd.orbMin, sd.orbSd, WrapAnomaly(nu) * 180.0 / PI + 180.0);
    VariationOff(m, sd.orbAmp, sd.orbMin, sd.orbSd, WrapAnomaly(nu) * 180.0 / PI + 180.0);
    VariationBounds(m, sd.orbAmp, sd.orbMin, sd.orbSd, WrapAnomaly(nu) * 180.0 / PI + 180.0);
    ClipOrbital(v)
  }

  /**
   The curve is at least 1 -- so the clipped factor is exactly 1 -- when the
   spread is below 1 and the amplitude is non-negative, and also when the
   amplitude is 1, whatever the spread.
   */
  lemma VariationOff(m: Math, amp: real, centre: real, sd: real, xDeg: real)
    requires Laws(m)
    ensures sd < 1.0 && amp >= 0.0 ==> Variation(m, amp, centre, sd, xDeg) >= 1.0
    ensures amp == 1.0 ==> Variation(m, amp, centre, sd, xDeg) >= 1.0
  {
    var spread := Max(sd, 0.0001);
    var g := Bell(m, (xDeg - centre) / spread);
    if amp >= 0.0 {
      if amp <= 1.0 {
        UnitProduct(1.0 - amp, g);
        assert Mul(1.0 - amp, 1.0) == 1.0 - amp;
      } else {
        MulSign(amp - 1.0, g);
        assert Mul(1.0 - amp, g) == -Mul(amp - 1.0, g);
      }
    }
  }

  /** The particle's dither angle, `(theta + i) mod 2 pi`. */
  function ShiftedTheta(theta: real, index: nat): (r: real)
    ensures 0.0 <= r < TWO_PI
  {
    FloorMod(theta + index as real, TWO_PI)
  }

  /**
   Azimuthal variation: particles are dimmed according to their angle
   around the ring, read in degrees.
   */
  function AzimuthalFactor(m: Math, shifted: real, sd: StarData): (f: real)
    requires Laws(m)
    ensures 0.0 <= f <= 1.0
    ensures sd.azSd < 1.0 && sd.azAmp >= 0.0 ==> f == 1.0
    ensures 0.0 <= sd.azAmp <= 1.0 ==> sd.azAmp <= f
    ensures sd.azAmp == 1.0 ==> f == 1.0
    ensures sd.azSd >= 1.0 && 0.0 <= sd.azAmp <= 1.0 ==>
              f == 1.0 - Mul(1.0 - sd.azAmp, Bell(m, (shifted * 180.0 / PI - sd.azMin) / sd.azSd))
    ensures sd.azSd >= 1.0 && 0.0 <= sd.azAmp <= 1.0 && shifted * 180.0 / PI == sd.azMin ==> f == sd.azAmp
  {
    var v := Variation(m, sd.azAmp, sd.azMin, sd.azSd, shifted * 180.0 / PI);
    VariationOff(m, sd.azAmp, sd.azMin, sd.azSd, shifted * 180.0 / PI);
    VariationBounds(m, sd.azAmp, sd.azMin, sd.azSd, shifted * 180.0 / PI);
    ClipAzimuthal(v)
  }

  /** Half the ring's opening angle in radians, after anisotropy, capped at a right angle. */
  function HalfOpenAngle(sd: StarData, oaMult: real): (h: real)
    ensures h <= PI / 2.0
    ensures sd.openAngle * oaMult >= 0.0 ==> h >= 0.0
    ensures sd.openAngle * oaMult <= 180.0 ==> h == Deg2Rad(sd.openAngle * oaMult) / 2.0
  {
    Min(Deg2Rad(sd.openAngle * oaMult) / 2.0, PI / 2.0)
  }

  /** `rotate_z(angle) @ v`: a rotation about the orbit normal. */
  function RotateZ(m: Math, angle: real, v: Vec3): (r: Vec3)
    requires Laws(m)
    ensures NormSq(r) == NormSq(v)
    ensures r.z == v.z
  {
    RotatedNorm(m, angle, v);
    Vec3(m.cos(angle) * v.x - m.sin(angle) * v.y, m.sin(angle) * v.x + m.cos(angle) * v.y, v.z)
  }

  lemma RotatedNorm(m: Math, angle: real, v: Vec3)
    requires Laws(m)
    ensures NormSq(Vec3(m.cos(angle) * v.x - m.sin(angle) * v.y, m.sin(angle) * v.x + m.cos(angle) * v.y, v.z))
         == NormSq(v)
  {
    var c, s := m.cos(angle), m.sin(angle);
    assert Sq(s) + Sq(c) == 1.0;
    RotationIdentity(c, s, v.x, v.y);
    UnitFactor(Sq(c) + Sq(s), Sq(v.x) + Sq(v.y));
  }

  lemma UnitFactor(u: real, a: real)
    requires u == 1.0
    ensures u * a == a
  {
  }

  /**
   A particle of the unrotated ring: the cone's half-angle sets how far it
   leans off the x axis, its dither angle where it sits around the cone, and
   every particle is `scale` from the star.
   */
  function ConePoint(m: Math, halfAngle: real, shifted: real, scale: real): (p: Vec3)
    requires Laws(m)
    ensures NormSq(p) == Sq(scale)
  {
    var ch, sh := m.cos(halfAngle), m.sin(halfAngle);
    var ct, st := m.cos(shifted), m.sin(shifted);
    ConeIdentity(scale, ch, sh, ct, st);
    assert Sq(sh) + Sq(ch) == 1.0;
    assert Sq(st) + Sq(ct) == 1.0;
    Vec3(scale * ch, scale * (sh * st), scale * (sh * ct))
  }

  lemma ConeIdentity(k: real, ch: real, sh: real, ct: real, st: real)
    ensures Sq(k * ch) + Sq(k * (sh * st)) + Sq(k * (sh * ct)) ==
            Sq(k) * (Sq(ch) + Sq(sh) * (Sq(st) + Sq(ct)))
  {
  }

  /**
   The heading of the ring: the direction from the companion to the
   Wolf-Rayet star, normalised, as an angle in the orbital plane, turned by
   pi. The source divides by the length of the offset, so it must not be zero.
   */
  function PlumeAngle(m: Math, plume: Vec3): real
    requires Laws(m)
    requires NormSq(plume) > 0.0
  {
    var n := m.sqrt(NormSq(plume));
    assert Sq(n) == NormSq(plume);
    var dir := Scale(1.0 / n, plume);
    m.arctan2(dir.y, dir.x) + PI
  }

  /** One weighted particle of the dust cloud, in kilometres from the barycentre. */
  datatype Particle = Particle(pos: Vec3, weight: real)

  /**
   A particle's weight: the ring's base weight dimmed by the companion, the
   orbital variation and the azimuthal variation.
   */
  function ParticleWeight(m: Math, sd: StarData, base: real, nu: real, shifted: real, angDist: real): (w: real)
    requires Laws(m)
    requires 0.0 <= base <= 1.0 && angDist >= 0.0
    ensures w >= 0.0
    ensures sd.compReduction >= 0.0 ==> w <= 1.0
    ensures base == 0.0 ==> w == 0.0
    ensures sd.compReduction >= 0.0 ==> w <= base
    ensures sd.compReduction == 0.0 && sd.orbAmp == 1.0 && sd.azAmp == 1.0 ==> w == base
    ensures angDist >= Deg2Rad(sd.compOpen / 2.0) && 0.0 <= sd.orbAmp <= 1.0 && 0.0 <= sd.azAmp <= 1.0 ==>
              Mul(base, Mul(sd.orbAmp, sd.azAmp)) <= w
  {
    var comp := CompanionFactor(m, sd, angDist);
    var orb := OrbitalFactor(m, nu, sd);
    var az := AzimuthalFactor(m, shifted, sd);
    UnitProduct(orb, az);
    var dimmed := Mul(base, comp);
    DimmedBounds(base, comp, sd.compReduction >= 0.0);
    UnitScale(dimmed, Mul(orb, az));
    UndimmedFloor(base, comp, sd.orbAmp, orb, sd.azAmp, az);
    Mul(dimmed, Mul(orb, az))
  }

  /**
   Where the companion leaves the weight alone, the orbital and azimuthal
   variations keep at least the product of their amplitudes of it.
   */
  lemma UndimmedFloor(base: real, comp: real, orbAmp: real, orb: real, azAmp: real, az: real)
    requires base >= 0.0
    requires 0.0 <= orbAmp <= 1.0 ==> orbAmp <= orb
    requires 0.0 <= azAmp <= 1.0 ==> azAmp <= az
    ensures comp == 1.0 && 0.0 <= orbAmp <= 1.0 && 0.0 <= azAmp <= 1.0 ==>
              Mul(base, Mul(orbAmp, azAmp)) <= Mul(Mul(base, comp), Mul(orb, az))
  {
    if comp == 1.0 && 0.0 <= orbAmp <= 1.0 && 0.0 <= azAmp <= 1.0 {
      assert Mul(base, comp) == base;
      VariationFloor(base, orbAmp, orb, azAmp, az);
    }
  }

  /** Scaling by two factors that are at least `lo1` and `lo2` leaves at least `lo1 * lo2` of the weight. */
  lemma VariationFloor(base: real, lo1: real, f1: real, lo2: real, f2: real)
    requires base >= 0.0 && 0.0 <= lo1 <= f1 && 0.0 <= lo2 <= f2
    ensures Mul(base, Mul(lo1, lo2)) <= Mul(base, Mul(f1, f2))
  {
    MulMonotone(lo1, f1, lo2);
    MulMonotone(lo2, f2, f1);
    assert Mul(lo2, f1) == Mul(f1, lo2) && Mul(f2, f1) == Mul(f1, f2);
    MulMonotone(Mul(lo1, lo2), Mul(f1, f2), base);
    assert Mul(Mul(lo1, lo2), base) == Mul(base, Mul(lo1, lo2));
    assert Mul(Mul(f1, f2), base) == Mul(base, Mul(f1, f2));
  }

  lemma DimmedBounds(base: real, comp: real, capped: bool)
    requires 0.0 <= base <= 1.0 && comp >= 0.0
    requires capped ==> comp <= 1.0
    ensures Mul(base, comp) >= 0.0
    ensures capped ==> Mul(base, comp) <= base
  {
    MulMonotone(0.0, base, comp);
    assert Mul(0.0, comp) == 0.0;
    if capped {
      UnitProduct(base, comp);
    }
  }

  lemma UnitScale(a: real, f: real)
    requires a >= 0.0 && 0.0 <= f <= 1.0
    ensures 0.0 <= Mul(a, f) <= a
  {
    MulMonotone(f, 1.0, a);
    MulMonotone(0.0, f, a);
    assert Mul(f, a) == Mul(a, f);
    assert Mul(1.0, a) == a;
    assert Mul(0.0, a) == 0.0;
  }

  /** How far the ring's particles are from the star: its width, scaled by the anisotropic speed. */
  function RingRadius(m: Math, sd: StarData, nu: real, width: real): real
    requires Laws(m)
    requires sd.windspeed1 != 0.0 && sd.openAngle != 0.0
  {
    width * SpinOrbitMult(m, nu, sd).velMult
  }

  /** What every particle of one ring shares. */
  datatype RingFrame = RingFrame(halfAngle: real, scale: real, heading: real, base: real)

  function Frame(m: Math, sd: StarData, nu: real, width: real, plume: Vec3): (f: RingFrame)
    requires Laws(m)
    requires sd.windspeed1 != 0.0 && sd.openAngle != 0.0
    requires NormSq(plume) > 0.0
    ensures 0.0 <= f.base <= 1.0
    ensures width < sd.nucDist * AU2KM ==> f.base == 0.0
    ensures f.scale == RingRadius(m, sd, nu, width)
    ensures f.base == BaseWeight(m, nu, width, sd)
  {
    var mults := SpinOrbitMult(m, nu, sd);
    RingFrame(HalfOpenAngle(sd, mults.openAngleMult), RingRadius(m, sd, nu, width),
              PlumeAngle(m, plume), BaseWeight(m, nu, width, sd))
  }

  /** The particle of ring `index` at dither angle `theta`. */
  function RingParticle(m: Math, sd: StarData, f: RingFrame, index: nat, nu: real,
                        theta: real, cosSeparation: Vec3 -> real): (p: Particle)
    requires Laws(m)
    requires 0.0 <= f.base <= 1.0
    ensures NormSq(p.pos) == Sq(f.scale)
    ensures p.weight >= 0.0
    ensures sd.compReduction >= 0.0 ==> p.weight <= 1.0
    ensures f.base == 0.0 ==> p.weight == 0.0
    ensures sd.compReduction >= 0.0 ==> p.weight <= f.base
    ensures sd.compReduction == 0.0 && sd.orbAmp == 1.0 && sd.azAmp == 1.0 ==> p.weight == f.base
  {
    var shifted := ShiftedTheta(theta, index);
    var pos := RotateZ(m, f.heading, ConePoint(m, f.halfAngle, shifted, f.scale));
    var angDist := m.arccos(cosSeparation(pos));
    ArccosRange(m, cosSeparation(pos));
    Particle(pos, ParticleWeight(m, sd, f.base, nu, shifted, angDist))
  }

  lemma ArccosRange(m: Math, x: real)
    requires Laws(m)
    ensures 0.0 <= m.arccos(x) <= PI
  {
  }

  /**
   `dust_circle`: ring `index`, launched at true anomaly `nu` and by now
   `width` km wide, as one particle per dither angle in `theta`. The
   companion's angular distance from a particle is the arccos of a cosine
   given by `cosSeparation` (the spherical-geometry formula of the source,
   not modelled).
   */
  function DustCircle(m: Math, sd: StarData, index: nat, nu: real, width: real, plume: Vec3,
                      theta: seq<real>, cosSeparation: Vec3 -> real): (ring: seq<Particle>)
    requires Laws(m)
    requires sd.windspeed1 != 0.0 && sd.openAngle != 0.0
    requires NormSq(plume) > 0.0
    ensures |ring| == |theta|
    ensures forall j :: 0 <= j < |ring| ==> ring[j].weight >= 0.0
    ensures sd.compReduction >= 0.0 ==> forall j :: 0 <= j < |ring| ==> ring[j].weight <= 1.0
    ensures width < sd.nucDist * AU2KM ==> forall j :: 0 <= j < |ring| ==> ring[j].weight == 0.0
    ensures forall j :: 0 <= j < |ring| ==>
              NormSq(ring[j].pos) == Sq(RingRadius(m, sd, nu, width))
    ensures sd.compReduction >= 0.0 ==>
              forall j :: 0 <= j < |ring| ==> ring[j].weight <= BaseWeight(m, nu, width, sd)
    ensures sd.compReduction == 0.0 && sd.orbAmp == 1.0 && sd.azAmp == 1.0 ==>
              forall j :: 0 <= j < |ring| ==> ring[j].weight == BaseWeight(m, nu, width, sd)
    ensures ProductionGate(nu, width, sd) == 1.0 && sd.compReduction == 0.0 && sd.orbAmp == 1.0 && sd.azAmp == 1.0 ==>
              forall j :: 0 <= j < |ring| ==> ring[j].weight == 1.0
  {
    var f := Frame(m, sd, nu, width, plume);
    seq(|theta|, j requires 0 <= j < |theta| => RingParticle(m, sd, f, index, nu, theta[j], cosSeparation))
  }
}
