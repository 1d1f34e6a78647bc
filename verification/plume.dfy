/**
 The plume schedule (geometry.py `nonlinear_accel` and `dust_plume_sub`):
 which mean anomalies the rings are launched at, how old each ring is, how
 far it has travelled, and how the rings' particles are laid out in the
 cloud.
 */
module Plume {
  import opened RealMath
  import opened SeqOps
  import opened Params

  /**
   Ring speed after `t` seconds: an exponential approach from the launch
   speed `windspeed1` to `term_windspeed`, at the rate `10^accel_rate` per
   year.
   */
  function NonlinearAccel(m: Math, t: real, sd: StarData): (v: real)
    requires Laws(m)
    ensures t == 0.0 ==> v == sd.windspeed1
    ensures t >= 0.0 ==> Min(sd.termWindspeed, sd.windspeed1) <= v <= Max(sd.termWindspeed, sd.windspeed1)
  {
    var decay := m.exp(Decay(m, t, sd));
    ApproachBounds(sd.termWindspeed, sd.windspeed1, decay);
    sd.termWindspeed + Mul(sd.windspeed1 - sd.termWindspeed, decay)
  }

  /**
   The exponent `-10^accel_rate * t / yr2s`: 0 at launch and never positive
   afterwards, so the decay factor starts at 1 and stays in (0, 1].
   */
  function Decay(m: Math, t: real, sd: StarData): (x: real)
    requires Laws(m)
    ensures t == 0.0 ==> x == 0.0
    ensures t >= 0.0 ==> x <= 0.0
  {
    var rate := Pow10(m, sd.accelRate);
    assert rate > 0.0;
    MulSign(rate, t);
    assert -rate * t == -Mul(rate, t);
    -rate * t / YR2S
  }

  lemma ApproachBounds(term: real, launch: real, decay: real)
    ensures 0.0 <= decay <= 1.0 ==> Min(term, launch) <= term + Mul(launch - term, decay) <= Max(term, launch)
    ensures decay == 1.0 ==> term + Mul(launch - term, decay) == launch
  {
    if decay < 0.0 || decay > 1.0 {
      return;
    }
    var k := launch - term;
    if k >= 0.0 {
      MulMonotone(0.0, decay, k);
      MulMonotone(decay, 1.0, k);
    } else {
      MulMonotone(0.0, decay, -k);
      MulMonotone(decay, 1.0, -k);
      assert Mul(decay, -k) == -Mul(k, decay);
    }
    assert Mul(decay, k) == Mul(k, decay);
    assert Mul(1.0, k) == k;
  }

  /** The older the ring, the closer its speed to the terminal speed. */
  lemma AccelMonotone(m: Math, t1: real, t2: real, sd: StarData)
    requires Laws(m)
    requires 0.0 <= t1 <= t2
    ensures sd.windspeed1 >= sd.termWindspeed ==> NonlinearAccel(m, t2, sd) <= NonlinearAccel(m, t1, sd)
    ensures sd.windspeed1 <= sd.termWindspeed ==> NonlinearAccel(m, t2, sd) >= NonlinearAccel(m, t1, sd)
  {
    var rate := Pow10(m, sd.accelRate);
    assert rate > 0.0;
    MulMonotone(t1, t2, rate);
    assert Mul(t1, rate) == rate * t1 && Mul(t2, rate) == rate * t2;
    assert Decay(m, t2, sd) <= Decay(m, t1, sd);
    var d1, d2 := m.exp(Decay(m, t1, sd)), m.exp(Decay(m, t2, sd));
    assert d2 <= d1;
    var k := sd.windspeed1 - sd.termWindspeed;
    if k >= 0.0 {
      MulMonotone(d2, d1, k);
    } else {
      MulMonotone(d2, d1, -k);
      assert Mul(d1, -k) == -Mul(k, d1) && Mul(d2, -k) == -Mul(k, d2);
    }
    assert Mul(d1, k) == Mul(k, d1) && Mul(d2, k) == Mul(k, d2);
  }

  /** Turn-on and turn-off anomalies stay a tenth of a degree inside +-180 degrees. */
  const MAX_ANOM: real := 179.9

  /**
   The start of the production window, widened by two gradual-turn widths
   but no further than -179.9 degrees, as a true anomaly in `[0, 2 pi)`.
   */
  function TurnOnTrueAnomaly(sd: StarData): (nu: real)
    ensures 0.0 <= nu < TWO_PI
    ensures sd.turnOn - 2.0 * sd.gradualTurn >= 0.0 && sd.turnOn - 2.0 * sd.gradualTurn < 360.0 ==>
              nu == Deg2Rad(sd.turnOn - 2.0 * sd.gradualTurn)
    ensures -MAX_ANOM <= sd.turnOn - 2.0 * sd.gradualTurn < 0.0 ==>
              nu == Deg2Rad(sd.turnOn - 2.0 * sd.gradualTurn) + TWO_PI
    ensures sd.turnOn - 2.0 * sd.gradualTurn < -MAX_ANOM ==> nu == Deg2Rad(-MAX_ANOM) + TWO_PI
  {
    var deg := Max(-MAX_ANOM, sd.turnOn - 2.0 * sd.gradualTurn);
    InTurn(Deg2Rad(deg));
    FloorMod(Deg2Rad(deg), TWO_PI)
  }

  /** The end of the widened window, no further than 179.9 degrees, in `[0, 2 pi)`. */
  function TurnOffTrueAnomaly(sd: StarData): (nu: real)
    ensures 0.0 <= nu < TWO_PI
    ensures sd.turnOff + 2.0 * sd.gradualTurn >= 0.0 ==>
              nu == Deg2Rad(Min(MAX_ANOM, sd.turnOff + 2.0 * sd.gradualTurn))
    ensures -360.0 <= sd.turnOff + 2.0 * sd.gradualTurn < 0.0 ==>
              nu == Deg2Rad(sd.turnOff + 2.0 * sd.gradualTurn) + TWO_PI
  {
    var deg := Min(MAX_ANOM, sd.turnOff + 2.0 * sd.gradualTurn);
    InTurn(Deg2Rad(deg));
    FloorMod(Deg2Rad(deg), TWO_PI)
  }

  /**
   Kepler's equation read backwards: a true anomaly's eccentric anomaly by
   the half-angle formula, then its mean anomaly `E - e sin E`.
   */
  function MeanFromTrue(m: Math, nu: real, ecc: real): (meanAnom: real)
    requires Laws(m)
    requires 0.0 <= ecc < 1.0
    ensures nu == 0.0 ==> meanAnom == 0.0
  {
    var eccFactor := m.sqrt((1.0 - ecc) / (1.0 + ecc));
    QuotientPositive(1.0 - ecc, 1.0 + ecc);
    PositiveSqrt(m, (1.0 - ecc) / (1.0 + ecc));
    var eccAnom := 2.0 * m.arctan2(m.tan(nu / 2.0), 1.0 / eccFactor);
    eccAnom - ecc * m.sin(eccAnom)
  }

  lemma QuotientPositive(a: real, b: real)
    requires a > 0.0 && b > 0.0
    ensures a / b > 0.0
  {
  }

  lemma PositiveSqrt(m: Math, x: real)
    requires Laws(m)
    requires x > 0.0
    ensures m.sqrt(x) > 0.0
  {
    assert Sq(m.sqrt(x)) == x;
  }

  /**
   Where in its orbit each of the `nT` rings of one orbit sits, as a
   fraction of the orbit after the observation phase: the window's mean
   anomalies, spaced evenly, taken modulo 2 pi, offset by the phase and
   taken modulo 1.
   */
  function RingFractions(onMean: real, offMean: real, nT: nat, phase: real): (fracs: seq<real>)
    ensures |fracs| == nT
    ensures forall k :: 0 <= k < nT ==> 0.0 <= fracs[k] < 1.0
  {
    var anomalies := Linspace(onMean, offMean, nT);
    seq(nT, k requires 0 <= k < nT => FloorMod((FloorMod(anomalies[k], TWO_PI) - TWO_PI * phase) / TWO_PI, 1.0))
  }

  /** Shell `o` of the plume, as a real, for each of its `nT` rings. */
  function ShellTimes(nOrbits: nat, nT: nat): (s: seq<real>)
    ensures |s| == nOrbits * nT
  {
    RepeatEach(seq(nOrbits, o => o as real), nT)
  }

  /**
   The rings' launch times in orbits after the first launch: the shell
   number plus the fraction within the orbit.
   */
  function NonDimensionalTimes(fracs: seq<real>, nOrbits: nat): (t: seq<real>)
    ensures |t| == nOrbits * |fracs|
  {
    var shells := ShellTimes(nOrbits, |fracs|);
    var within := Tile(fracs, nOrbits);
    assert |within| == nOrbits * |fracs|;
    seq(nOrbits * |fracs|, k requires 0 <= k < nOrbits * |fracs| => shells[k] + within[k])
  }

  /** Ring `k` is the `k mod nT`-th ring of shell `k / nT`... */
  lemma NonDimensionalTimeIndex(fracs: seq<real>, nOrbits: nat, k: int)
    requires 0 <= k < nOrbits * |fracs|
    ensures |fracs| > 0
    ensures NonDimensionalTimes(fracs, nOrbits)[k] == (k / |fracs|) as real + fracs[k % |fracs|]
  {
    var nT := |fracs|;
    assert nOrbits * nT == nT * nOrbits;
    TileIndex(fracs, nOrbits, k);
    RepeatEachIndex(seq(nOrbits, o => o as real), nT, k);
  }

  /** ...so the same ring one shell later is launched exactly one orbit later... */
  lemma NextShell(fracs: seq<real>, nOrbits: nat, k: int)
    requires 0 <= k && k + |fracs| < nOrbits * |fracs|
    ensures NonDimensionalTimes(fracs, nOrbits)[k + |fracs|] == NonDimensionalTimes(fracs, nOrbits)[k] + 1.0
  {
    var nT := |fracs|;
    NonDimensionalTimeIndex(fracs, nOrbits, k);
    NonDimensionalTimeIndex(fracs, nOrbits, k + nT);
    DivModStep(k + nT, nT);
  }

  /**
   ...and, with every fraction in `[0, 1)`, every ring's age in orbits,
   `nOrbits - t`, lies in `(0, nOrbits]`.
   */
  lemma AgesPositive(fracs: seq<real>, nOrbits: nat, k: int)
    requires forall i :: 0 <= i < |fracs| ==> 0.0 <= fracs[i] < 1.0
    requires 0 <= k < nOrbits * |fracs|
    ensures 0.0 < nOrbits as real - NonDimensionalTimes(fracs, nOrbits)[k] <= nOrbits as real
  {
    var nT := |fracs|;
    NonDimensionalTimeIndex(fracs, nOrbits, k);
    assert k / nT < nOrbits by {
      DivBelow(k, nT, nOrbits);
    }
  }

  lemma DivBelow(k: int, n: int, q: int)
    requires n > 0 && 0 <= k < q * n
    ensures 0 <= k / n < q
  {
    if k / n >= q {
      MulAtLeast(k / n - q + 1, n);
      assert false;
    }
  }

  /**
   How far a ring of the given age (in orbits) has travelled, in km: the
   accelerated speed times the time since launch.
   */
  function RingWidth(m: Math, sd: StarData, periodS: real, age: real): (w: real)
    requires Laws(m)
    ensures periodS >= 0.0 && age >= 0.0 && sd.windspeed1 >= 0.0 && sd.termWindspeed >= 0.0 ==> w >= 0.0
    ensures sd.termWindspeed == sd.windspeed1 ==> w == sd.windspeed1 * periodS * age
  {
    var t := Mul(periodS, age);
    var v := NonlinearAccel(m, t, sd);
    assert sd.termWindspeed == sd.windspeed1 ==> v == sd.windspeed1 by {
      assert Mul(sd.windspeed1 - sd.termWindspeed, m.exp(Decay(m, t, sd))) ==
             (sd.windspeed1 - sd.termWindspeed) * m.exp(Decay(m, t, sd));
    }
    WidthSign(v, periodS, age);
    v * periodS * age
  }

  lemma WidthSign(v: real, p: real, a: real)
    ensures p >= 0.0 && a >= 0.0 && v >= 0.0 ==> v * p * a >= 0.0
    ensures v * p * a == v * Mul(p, a)
  {
    if p >= 0.0 && a >= 0.0 && v >= 0.0 {
      MulMonotone(0.0, v, p);
      MulMonotone(0.0, Mul(v, p), a);
    }
  }

  /** Each ring's width, from its launch time in orbits. */
  function Widths(m: Math, sd: StarData, periodS: real, times: seq<real>, nOrbits: nat): (ws: seq<real>)
    requires Laws(m)
    ensures |ws| == |times|
    ensures periodS >= 0.0 && sd.windspeed1 >= 0.0 && sd.termWindspeed >= 0.0 ==>
              forall k :: 0 <= k < |times| && times[k] <= nOrbits as real ==> ws[k] >= 0.0
  {
    seq(|times|, k requires 0 <= k < |times| => RingWidth(m, sd, periodS, nOrbits as real - times[k]))
  }

  /**
   The mean anomalies of one orbit's rings, evenly spaced across the window
   and taken modulo 2 pi, repeated for every orbit.
   */
  function MeanAnomalies(onMean: real, offMean: real, nT: nat, nOrbits: nat): (ms: seq<real>)
    ensures |ms| == nT * nOrbits
    ensures forall k :: 0 <= k < |ms| ==> 0.0 <= ms[k] < TWO_PI
  {
    var steps := Linspace(0.0, offMean - onMean, nT);
    var one := seq(nT, k requires 0 <= k < nT => FloorMod(steps[k] + onMean, TWO_PI));
    TileBounded(one, nOrbits, 0.0, TWO_PI);
    Tile(one, nOrbits)
  }

  lemma TileBounded(s: seq<real>, reps: nat, lo: real, hi: real)
    requires forall i :: 0 <= i < |s| ==> lo <= s[i] < hi
    ensures forall k :: 0 <= k < |s| * reps ==> lo <= Tile(s, reps)[k] < hi
  {
    forall k | 0 <= k < |s| * reps
      ensures lo <= Tile(s, reps)[k] < hi
    {
      TileIndex(s, reps, k);
    }
  }

  /**
   Every orbit repeats the same schedule, opening at the turn-on mean
   anomaly and, with two or more rings per orbit, closing at the turn-off
   one.
   */
  lemma MeanAnomalySchedule(onMean: real, offMean: real, nT: nat, nOrbits: nat, o: nat)
    requires nT >= 2 && o < nOrbits
    ensures o * nT + nT - 1 < nT * nOrbits
    ensures MeanAnomalies(onMean, offMean, nT, nOrbits)[o * nT] == FloorMod(onMean, TWO_PI)
    ensures MeanAnomalies(onMean, offMean, nT, nOrbits)[o * nT + nT - 1] == FloorMod(offMean, TWO_PI)
  {
    var steps := Linspace(0.0, offMean - onMean, nT);
    var one := seq(nT, k requires 0 <= k < nT => FloorMod(steps[k] + onMean, TWO_PI));
    assert nT * nOrbits == nT * o + nT * (nOrbits - o);
    assert nT * (nOrbits - o) >= nT by {
      MulAtLeast(nOrbits - o, nT);
    }
    TileIndex(one, nOrbits, o * nT);
    TileIndex(one, nOrbits, o * nT + nT - 1);
    DivModUnique(o * nT, nT, o, 0);
    DivModUnique(o * nT + nT - 1, nT, o, nT - 1);
    LinspaceEnds(0.0, offMean - onMean, nT);
    assert steps[nT - 1] + onMean == offMean;
  }

  /** The same ring one orbit later has the same mean anomaly. */
  lemma MeanAnomalyPeriodic(onMean: real, offMean: real, nT: nat, nOrbits: nat, k: int)
    requires 0 <= k && k + nT < nT * nOrbits
    ensures MeanAnomalies(onMean, offMean, nT, nOrbits)[k + nT] == MeanAnomalies(onMean, offMean, nT, nOrbits)[k]
  {
    var steps := Linspace(0.0, offMean - onMean, nT);
    var one := seq(nT, k requires 0 <= k < nT => FloorMod(steps[k] + onMean, TWO_PI));
    TileIndex(one, nOrbits, k);
    TileIndex(one, nOrbits, k + nT);
    DivModStep(k + nT, nT);
  }
}
