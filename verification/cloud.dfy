/**
 The particle cloud of `dust_plume_sub`: every ring launched on the
 schedule, built by `dust_circle`, laid out ring after ring, and moved so
 that the shock starts at the companion star. The cloud is left in the
 orbital frame, in kilometres.
 */
module Cloud {
  import opened RealMath
  import opened SeqOps
  import opened Params
  import opened Kepler
  import opened Orbit
  import opened Ring
  import opened Plume

  /** Where the stars are and how far the ring has gone, for one ring. */
  datatype Launch = Launch(trueAnom: real, width: real, bodies: BodyPositions)

  /** The line from the companion to the Wolf-Rayet star, along which the ring is aimed. */
  function PlumeDirection(l: Launch): Vec3 {
    Sub(l.bodies.primary, l.bodies.secondary)
  }

  /**
   One ring's launch: the eccentric anomaly solved from its mean anomaly,
   the true anomaly from that, the stars' positions, and the ring's width
   from its age `nOrbits - time` in orbits.
   */
  function LaunchAt(m: Math, core: (real, real) -> real, sd: StarData, periodS: real,
                    axes: SemiMajorAxes, meanAnom: real, time: real, nOrbits: nat): (l: Launch)
    requires Laws(m)
    requires 0.0 <= sd.eccentricity < 1.0
    ensures axes.a1 + axes.a2 > 0.0 ==> NormSq(PlumeDirection(l)) > 0.0
    ensures periodS >= 0.0 && time <= nOrbits as real && sd.windspeed1 >= 0.0 && sd.termWindspeed >= 0.0 ==>
              l.width >= 0.0
  {
    var ecc := sd.eccentricity;
    var eccAnom := Solve(core, meanAnom, ecc);
    var nu := TrueFromEccentric(m, eccAnom, ecc);
    var bodies := Positions(m, axes, ecc, eccAnom, nu);
    StarsApart(m, axes, ecc, eccAnom, nu);
    SeparationPositive(m, axes, ecc, eccAnom);
    Launch(nu, RingWidth(m, sd, periodS, nOrbits as real - time), bodies)
  }

  /** A bound orbit never brings the stars together. */
  lemma SeparationPositive(m: Math, axes: SemiMajorAxes, ecc: real, eccAnom: real)
    requires Laws(m)
    requires 0.0 <= ecc < 1.0
    ensures axes.a1 + axes.a2 > 0.0 ==> Sq(Separation(axes, m.cos(eccAnom), ecc)) > 0.0
  {
    var c := m.cos(eccAnom);
    CosBounded(m, eccAnom);
    DerivativeBounds(ecc, c);
    if axes.a1 + axes.a2 > 0.0 {
      MulSign(axes.a1 + axes.a2, 1.0 - ecc * c);
    }
  }

  /** The rings' mean anomalies and launch times, in orbits after the first launch. */
  datatype RingSchedule = RingSchedule(meanAnoms: seq<real>, times: seq<real>)

  function Schedule(m: Math, sd: StarData, nT: nat, nOrbits: nat): (s: RingSchedule)
    requires Laws(m)
    requires 0.0 <= sd.eccentricity < 1.0
    ensures |s.meanAnoms| == nT * nOrbits && |s.times| == nT * nOrbits
    ensures forall j :: 0 <= j < |s.times| ==> 0.0 <= s.times[j] < nOrbits as real
    ensures forall j :: 0 <= j < |s.meanAnoms| ==> 0.0 <= s.meanAnoms[j] < TWO_PI
  {
    var ecc := sd.eccentricity;
    var onMean := MeanFromTrue(m, TurnOnTrueAnomaly(sd), ecc);
    var offMean := MeanFromTrue(m, TurnOffTrueAnomaly(sd), ecc);
    var fracs := RingFractions(onMean, offMean, nT, sd.phase);
    TimesBounded(fracs, nOrbits);
    assert nOrbits * nT == nT * nOrbits;
    RingSchedule(MeanAnomalies(onMean, offMean, nT, nOrbits), NonDimensionalTimes(fracs, nOrbits))
  }

  lemma TimesBounded(fracs: seq<real>, nOrbits: nat)
    requires forall i :: 0 <= i < |fracs| ==> 0.0 <= fracs[i] < 1.0
    ensures forall k :: 0 <= k < nOrbits * |fracs| ==>
              0.0 <= NonDimensionalTimes(fracs, nOrbits)[k] < nOrbits as real
  {
    forall k | 0 <= k < nOrbits * |fracs|
      ensures 0.0 <= NonDimensionalTimes(fracs, nOrbits)[k] < nOrbits as real
    {
      AgesPositive(fracs, nOrbits, k);
    }
  }

  /**
   Every ring of the plume: `nT` per orbit over `nOrbits` orbits, launched
   at the scheduled mean anomalies, at their scheduled times.
   */
  function Launches(m: Math, core: (real, real) -> real, sd: StarData, periodS: real,
                    nT: nat, nOrbits: nat): (ls: seq<Launch>)
    requires Laws(m)
    requires 0.0 <= sd.eccentricity < 1.0
    requires sd.m1 + sd.m2 != 0.0
    ensures |ls| == nT * nOrbits
    ensures periodS != 0.0 && sd.m1 >= 0.0 && sd.m2 >= 0.0 ==>
              forall j :: 0 <= j < |ls| ==> NormSq(PlumeDirection(ls[j])) > 0.0
    ensures periodS >= 0.0 && sd.windspeed1 >= 0.0 && sd.termWindspeed >= 0.0 ==>
              forall j :: 0 <= j < |ls| ==> ls[j].width >= 0.0
  {
    var s := Schedule(m, sd, nT, nOrbits);
    var axes := SemiMajor(m, periodS, sd.m1, sd.m2);
    LaunchesFrom(m, core, sd, periodS, axes, s, nOrbits)
  }

  function LaunchesFrom(m: Math, core: (real, real) -> real, sd: StarData, periodS: real,
                        axes: SemiMajorAxes, s: RingSchedule, nOrbits: nat): (ls: seq<Launch>)
    requires Laws(m)
    requires 0.0 <= sd.eccentricity < 1.0
    requires |s.meanAnoms| == |s.times|
    requires forall j :: 0 <= j < |s.times| ==> s.times[j] < nOrbits as real
    ensures |ls| == |s.times|
    ensures axes.a1 + axes.a2 > 0.0 ==> forall j :: 0 <= j < |ls| ==> NormSq(PlumeDirection(ls[j])) > 0.0
    ensures periodS >= 0.0 && sd.windspeed1 >= 0.0 && sd.termWindspeed >= 0.0 ==>
              forall j :: 0 <= j < |ls| ==> ls[j].width >= 0.0
  {
    seq(|s.times|, j requires 0 <= j < |s.times| =>
      LaunchAt(m, core, sd, periodS, axes, s.meanAnoms[j], s.times[j], nOrbits))
  }

  /** Each ring's particles, ring `j` built from launch `j`. */
  function Rings(m: Math, sd: StarData, ls: seq<Launch>, theta: seq<real>,
                 cosSeparation: Vec3 -> real): (rings: seq<seq<Particle>>)
    requires Laws(m)
    requires sd.windspeed1 != 0.0 && sd.openAngle != 0.0
    requires forall j :: 0 <= j < |ls| ==> NormSq(PlumeDirection(ls[j])) > 0.0
    ensures |rings| == |ls|
    ensures Rectangular(rings, |theta|)
    ensures sd.compReduction >= 0.0 ==>
              forall j, q :: 0 <= j < |rings| && 0 <= q < |theta| ==> 0.0 <= rings[j][q].weight <= 1.0
  {
    seq(|ls|, j requires 0 <= j < |ls| =>
      DustCircle(m, sd, j, ls[j].trueAnom, ls[j].width, PlumeDirection(ls[j]), theta, cosSeparation))
  }

  /**
   The rings' particles one ring after another (`ravel`), each moved by its
   ring's offset (the offsets `repeat`ed once per particle).
   */
  function Assemble(rings: seq<seq<Particle>>, offsets: seq<Vec3>, width: nat): (cloud: seq<Particle>)
    requires |offsets| == |rings|
    requires Rectangular(rings, width)
    ensures |cloud| == |rings| * width
  {
    var flat := Flatten(rings);
    FlattenLength(rings, width);
    var shock := RepeatEach(offsets, width);
    seq(|rings| * width, p requires 0 <= p < |rings| * width => Particle(Add(flat[p].pos, shock[p]), flat[p].weight))
  }

  /**
   Particle `p` of the assembled cloud is particle `p mod width` of ring
   `p / width`, moved by that ring's offset.
   */
  lemma AssembleIndex(rings: seq<seq<Particle>>, offsets: seq<Vec3>, width: nat, p: int)
    requires |offsets| == |rings|
    requires Rectangular(rings, width)
    requires 0 <= p < |rings| * width
    ensures width > 0 && p / width < |rings| && p % width < width
    ensures var own := rings[p / width][p % width];
            Assemble(rings, offsets, width)[p] == Particle(Add(own.pos, offsets[p / width]), own.weight)
  {
    FlattenIndex(rings, width, p);
    RepeatEachIndex(offsets, width, p);
  }

  /** The companion's position at each ring's launch. */
  function ShockStarts(ls: seq<Launch>): (starts: seq<Vec3>)
    ensures |starts| == |ls|
    ensures forall j :: 0 <= j < |ls| ==> starts[j] == ls[j].bodies.secondary
  {
    seq(|ls|, j requires 0 <= j < |ls| => ls[j].bodies.secondary)
  }

  /** The cloud: every ring's particles, the shock starting at the companion. */
  function PlumeCloud(m: Math, sd: StarData, ls: seq<Launch>, theta: seq<real>,
                      cosSeparation: Vec3 -> real): (cloud: seq<Particle>)
    requires Laws(m)
    requires sd.windspeed1 != 0.0 && sd.openAngle != 0.0
    requires forall j :: 0 <= j < |ls| ==> NormSq(PlumeDirection(ls[j])) > 0.0
    ensures |cloud| == |ls| * |theta|
  {
    Assemble(Rings(m, sd, ls, theta, cosSeparation), ShockStarts(ls), |theta|)
  }

  /** Assembling moves particles but keeps their weights within the bounds they had. */
  lemma AssembleWeights(rings: seq<seq<Particle>>, offsets: seq<Vec3>, width: nat)
    requires |offsets| == |rings|
    requires Rectangular(rings, width)
    requires forall j, q :: 0 <= j < |rings| && 0 <= q < width ==> 0.0 <= rings[j][q].weight <= 1.0
    ensures forall p :: 0 <= p < |rings| * width ==> 0.0 <= Assemble(rings, offsets, width)[p].weight <= 1.0
  {
    forall p | 0 <= p < |rings| * width
      ensures 0.0 <= Assemble(rings, offsets, width)[p].weight <= 1.0
    {
      AssembleIndex(rings, offsets, width, p);
    }
  }

  /** Every particle weight in the cloud is in [0, 1] when the companion only dims. */
  lemma CloudWeights(m: Math, sd: StarData, ls: seq<Launch>, theta: seq<real>,
                     cosSeparation: Vec3 -> real)
    requires Laws(m)
    requires sd.windspeed1 != 0.0 && sd.openAngle != 0.0
    requires forall j :: 0 <= j < |ls| ==> NormSq(PlumeDirection(ls[j])) > 0.0
    requires sd.compReduction >= 0.0
    ensures forall p :: 0 <= p < |ls| * |theta| ==>
              0.0 <= PlumeCloud(m, sd, ls, theta, cosSeparation)[p].weight <= 1.0
  {
    AssembleWeights(Rings(m, sd, ls, theta, cosSeparation), ShockStarts(ls), |theta|);
  }

  /**
   `dust_plume_sub` up to the sky projection: the whole cloud for `nOrbits`
   orbits of `nT` rings of `|theta|` particles each.
   */
  function DustPlumeSub(m: Math, core: (real, real) -> real, sd: StarData, periodS: real,
                        nT: nat, nOrbits: nat, theta: seq<real>,
                        cosSeparation: Vec3 -> real): (cloud: seq<Particle>)
    requires Laws(m)
    requires 0.0 <= sd.eccentricity < 1.0
    requires periodS != 0.0 && sd.m1 >= 0.0 && sd.m2 >= 0.0 && sd.m1 + sd.m2 > 0.0
    requires sd.windspeed1 != 0.0 && sd.openAngle != 0.0
    ensures |cloud| == nT * nOrbits * |theta|
  {
    PlumeCloud(m, sd, Launches(m, core, sd, periodS, nT, nOrbits), theta, cosSeparation)
  }

  /** The whole plume's weights are in [0, 1] when the companion only dims. */
  lemma DustPlumeWeights(m: Math, core: (real, real) -> real, sd: StarData, periodS: real,
                         nT: nat, nOrbits: nat, theta: seq<real>, cosSeparation: Vec3 -> real)
    requires Laws(m)
    requires 0.0 <= sd.eccentricity < 1.0
    requires periodS != 0.0 && sd.m1 >= 0.0 && sd.m2 >= 0.0 && sd.m1 + sd.m2 > 0.0
    requires sd.windspeed1 != 0.0 && sd.openAngle != 0.0
    requires sd.compReduction >= 0.0
    ensures forall p :: 0 <= p < nT * nOrbits * |theta| ==>
              0.0 <= DustPlumeSub(m, core, sd, periodS, nT, nOrbits, theta, cosSeparation)[p].weight <= 1.0
  {
    CloudWeights(m, sd, Launches(m, core, sd, periodS, nT, nOrbits), theta, cosSeparation);
  }
}
