# xenomorph geometry core, modelled in Dafny

xenomorph renders colliding-wind dust plumes around Wolf-Rayet binaries such
as Apep. The renderer does this in three steps:

- `dust_plume_sub` launches a ring of dust particles at each of many points
  of the binary's orbit.
- `dust_circle` weights every particle of a ring: production gates, a
  gradual turn-on and turn-off, dimming by a companion, and orbital and
  azimuthal variation.
- `smooth_histogram2d` splats the weighted cloud onto a square grid by
  pixel area, blurs it, and normalises it to a brightest pixel of 1.

This project models that weighting and bookkeeping logic over Dafny's
`real`. It also models the small helpers it uses:

- the wind-speed law `nonlinear_accel`;
- the anisotropy multipliers `spin_orbit_mult`;
- `calculate_semi_major`;
- the range reduction of the Kepler solver;
- the safe tangent rules of `zero_safe_arctan2` and `zero_safe_sqrt`.

Transcendental functions are not defined. They are the fields of a `Math`
value, and the predicate `RealMath.Laws` lists every fact the model assumes about them:

- `exp(0) = 1`, `exp` of a non-positive number is in (0, 1], and `exp` is monotone;
- `tanh` of a non-negative number is in [0, 1), and `tanh` is monotone;
- `sin² + cos² = 1`;
- `sqrt` of a non-negative number is non-negative and squares back to it, and `cbrt` cubes back to its argument;
- `arccos` lies in [0, π];
- `pow(x, p)` is non-negative for `x ≥ 0` and positive for `x > 0`, `pow(x, 1) = x`, `pow(1, p) = 1`, and `pow` is monotone in `x ≥ 0` for `p ≥ 0`;
- `tan 0 = sin 0 = 0`, `cos 0 = 1`, and `arctan2(0, x) = 0` for `x > 0`.

Python's floored `%` on floats is `RealMath.FloorMod`. The source's
`jnp.heaviside(x, h0)` is `RealMath.Heaviside`, with the same value at 0.

Modules, in dependency order:

| file | module | what it holds |
|---|---|---|
| real_math.dfy | RealMath | `Math` and its laws, vectors, `Mul`/`Sq`/`Cube` with sign facts, `FloorMod` |
| seq_ops.dfy | SeqOps | `linspace`, `tile`, `repeat`, `ravel`, `sum`, `max`/`min` with their index laws |
| params.dfy | Params | the `stardata` dictionary as a record, and the physical constants |
| zero_safe.dfy | ZeroSafe | the custom JVP rules of `zero_safe_arctan2` and `zero_safe_sqrt` |
| kepler.dfy | Kepler | mean-anomaly reduction to [0, π] and its mirror; the solver's JVP |
| orbit.dfy | Orbit | `calculate_semi_major`, and the star positions in the orbital frame |
| plume.dfy | Plume | `nonlinear_accel`, the production window, the ring schedule and the widths |
| anisotropy.dfy | Anisotropy | `spin_orbit_mult` |
| ring.dfy | Ring | `dust_circle`: anomaly wrap, gates, residual, companion, variations, half-angle cap, ring geometry |
| cloud.dfy | Cloud | `dust_plume_sub`: launches, rings, ring-major layout and the shock offset |
| grid.dfy | Grid | an image as rows of reals, the masked scatter-add, and the transpose |
| splat.dfy | Splat | the area-weighted four-pixel splat, its conservation, and the automatic bounds |
| normalise.dfy | Normalisation | divide by the maximum, clip at `histmax`, raise to `lum_power`, divide again |
| histogram.dfy | Histogram | `smooth_histogram2d_base`, `smooth_histogram2d`, `smooth_histogram2d_w_bins` |

The Gaussian blur is a parameter of the histogram functions. It can be any
map that returns an n-by-n image for an n-by-n image (`Histogram.KeepsSize`).

The solver core (`kepler_starter` followed by `kepler_refiner`) is also a
parameter. So is the spherical-geometry formula for the cosine of a particle's angular distance from the companion.

Some lemmas take extra `side` and `area` arguments that must equal the pixel
width and its square. They only name those terms, which keeps the proofs
small.

## Model

| member | source | states |
|---|---|---|
| ZeroSafe.Arctan2JvpDenominator | build/lib/xenomorph/geometry.py:210-214 | the arctan2 tangent's denominator is always positive; away from the tolerance box around the origin it is x² + y², at least tol² |
| ZeroSafe.Arctan2Tangent | build/lib/xenomorph/geometry.py:210-215 | away from the origin box the tangent times x² + y² is `y·dx − x·dy` (the derivative of arctan2); inside the box it is that numerator over 1 |
| ZeroSafe.SqrtJvpDenominator | build/lib/xenomorph/geometry.py:237-239 | the sqrt tangent's denominator is positive; it squares to x when x exceeds 10·eps, and is 1 otherwise |
| ZeroSafe.SqrtTangent | build/lib/xenomorph/geometry.py:237-240 | above 10·eps the tangent satisfies 2·t·√x = dx (the derivative of √x); at or below it the tangent is dx/2 and never divides by zero |
| RealMath.FloorMod | build/lib/xenomorph/geometry.py:129 | Python's float `%` by a positive modulus lands in [0, w) |
| RealMath.FloorModPeriodic | build/lib/xenomorph/geometry.py:129 | adding whole multiples of the modulus does not change the remainder |
| Kepler.ReduceMeanAnomaly | build/lib/xenomorph/geometry.py:129-133 | the reduced anomaly is in [0, π]; it is mirrored iff the wrapped anomaly exceeds π; the input is recovered as whole turns plus or minus the reduced anomaly; an anomaly in [0, π] is kept as it is, and one in (π, 2π) becomes 2π − M, mirrored |
| Kepler.Solve | build/lib/xenomorph/geometry.py:129-140 | for any solver core, a mean anomaly in [0, π] gets the core's answer for it directly, and one in (π, 2π) gets 2π minus the core's answer for 2π − M; Kepler.SolveMirror and Kepler.SolvePeriodic give the symmetry and the periodicity |
| Kepler.SolveMirror | build/lib/xenomorph/geometry.py:129-140 | for any solver core, the solutions for M and for 2π − M add up to 2π, because of the mirror-and-mirror-back |
| Kepler.SolvePeriodic | build/lib/xenomorph/geometry.py:129-140 | for any solver core, shifting M by whole turns gives the same eccentric anomaly |
| Kepler.SolveJvp | build/lib/xenomorph/geometry.py:173-174 | for 0 ≤ e < 1, dE/dM is the reciprocal of 1 − e·cos E (dE/dM·(1 − e·cos E) = 1), so it lies between 1/(1+e) and 1/(1−e); and dE/de·(1 − e·cos E) = sin E |
| Kepler.JvpOf | build/lib/xenomorph/geometry.py:173-174 | from sin E and cos E with −1 ≤ cos E ≤ 1: dE/dM·(1 − e·cos E) = 1, dE/de·(1 − e·cos E) = sin E, and dE/dM between 1/(1+e) and 1/(1−e) |
| Orbit.SemiMajor | build/lib/xenomorph/geometry.py:591-599 | Kepler's third law: (a1 + a2)³ = (P/2π)²·G·M; the split balances, m1·a1 = m2·a2; for a non-zero period and non-negative masses both parts are non-negative and their sum is positive |
| Orbit.CentreOfMass | build/lib/xenomorph/geometry.py:685-695 | with the computed semi-major axes, m1·r1 + m2·r2 = 0 (the barycentre is the origin), and the stars are exactly the separation apart |
| Orbit.Positions | build/lib/xenomorph/geometry.py:685-694 | both stars lie in the orbital plane (z = 0), on opposite sides of the origin weighted by the other's axis: a2·positions1 + a1·positions2 = 0; Orbit.StarsApart and Orbit.OffsetAlongHeading give their offset |
| Orbit.TrueFromEccentric | build/lib/xenomorph/geometry.py:243-261 | on a bound orbit, periapsis (E = 0) has true anomaly 0 |
| Orbit.Balanced | build/lib/xenomorph/geometry.py:686-695 | any balanced pair of axes places the two stars with the centre of mass at the origin |
| Orbit.StarsApart | build/lib/xenomorph/geometry.py:686-695 | the distance between the stars is (a1 + a2)(1 − e·cos E) in km |
| Orbit.OffsetAlongHeading | build/lib/xenomorph/geometry.py:686-695 | the plume direction `positions1 − positions2` is the separation along the true-anomaly heading (cos ν, sin ν, 0) |
| Plume.NonlinearAccel | build/lib/xenomorph/geometry.py:283 | at age 0 the speed is `windspeed1`; at any non-negative age it lies between `term_windspeed` and `windspeed1` |
| Plume.Decay | build/lib/xenomorph/geometry.py:283 | the decay exponent −10^accel_rate·t/yr2s is 0 at age 0 and never positive at a non-negative age |
| Plume.AccelMonotone | build/lib/xenomorph/geometry.py:283 | older rings move closer to the terminal speed: speed falls with age when launched faster, and rises when launched slower |
| Plume.TurnOnTrueAnomaly | build/lib/xenomorph/geometry.py:639-643 | the widened turn-on anomaly is in [0, 2π); a start d in [0°, 360°) gives d in radians, a start d in [−179.9°, 0°) gives d in radians plus 2π, and a start below −179.9° gives −179.9° in radians plus 2π |
| Plume.TurnOffTrueAnomaly | build/lib/xenomorph/geometry.py:652-653 | the widened turn-off anomaly is in [0, 2π); a non-negative end gives the end capped at 179.9° in radians, and an end d in [−360°, 0°) gives d in radians plus 2π |
| Plume.MeanFromTrue | build/lib/xenomorph/geometry.py:637-646 | Kepler's equation read backwards maps true anomaly 0 to mean anomaly 0 |
| Plume.RingFractions | build/lib/xenomorph/geometry.py:716-718 | one orbit's ring positions as fractions of the orbit after the phase, each in [0, 1) |
| SeqOps.TileIndex | build/lib/xenomorph/geometry.py:719 | element k of `jnp.tile(s, reps)` is `s[k mod len(s)]` |
| SeqOps.RepeatEachIndex | build/lib/xenomorph/geometry.py:714 | element k of `jnp.repeat(s, n)` is `s[k / n]` |
| SeqOps.FlattenIndex | build/lib/xenomorph/geometry.py:748-754 | element k of a raveled rectangle is column k mod width of row k / width |
| Plume.NonDimensionalTimeIndex | build/lib/xenomorph/geometry.py:713-721 | ring k is in shell k / n_t and is the (k mod n_t)-th ring of that shell, so its launch time is its shell plus its fraction |
| Plume.NextShell | build/lib/xenomorph/geometry.py:713-721 | the same ring one shell later is launched exactly one orbit later |
| Plume.AgesPositive | build/lib/xenomorph/geometry.py:713-734 | every ring's age factor `n_orbits − t` lies in (0, n_orbits] |
| Plume.RingWidth | build/lib/xenomorph/geometry.py:733-734 | the width is non-negative when the period, the age and both speeds are; with no acceleration it is speed × period × age |
| Plume.Widths | build/lib/xenomorph/geometry.py:733-734 | one width per ring, and each is non-negative for non-negative speeds and period and a launch no later than `n_orbits` |
| Plume.MeanAnomalies | build/lib/xenomorph/geometry.py:674-675 | n_t·n_orbits mean anomalies, each in [0, 2π) |
| Plume.MeanAnomalySchedule | build/lib/xenomorph/geometry.py:674-675 | every orbit's schedule opens at the turn-on mean anomaly and closes at the turn-off one (mod 2π) |
| Plume.MeanAnomalyPeriodic | build/lib/xenomorph/geometry.py:674-675 | the same ring one orbit later has the same mean anomaly |
| Anisotropy.Latitude | build/lib/xenomorph/geometry.py:307 | the scaled latitude `dist` is never negative |
| Anisotropy.Blend | build/lib/xenomorph/geometry.py:327-328 | a tanh blend stays between 1 and the polar ratio, and is 1 when the ratio is 1 |
| Anisotropy.SpinOrbitMult | build/lib/xenomorph/geometry.py:307-330 | each multiplier lies between 1 and its polar-to-equatorial ratio, and is exactly 1 when the polar value equals the equatorial one |
| Anisotropy.BlendMonotone | build/lib/xenomorph/geometry.py:327-328 | for a non-negative power, higher latitude moves the multiplier monotonically towards the polar ratio |
| Ring.WrapAnomaly | build/lib/xenomorph/geometry.py:366 | the wrapped true anomaly lies in [−π, π) |
| Ring.WrapFixed | build/lib/xenomorph/geometry.py:366 | an anomaly already in [−π, π) is left unchanged |
| Ring.WrapPeriodic | build/lib/xenomorph/geometry.py:366 | anomalies a whole number of turns apart wrap to the same value |
| Ring.ProductionGate | build/lib/xenomorph/geometry.py:366-372 | the hard gate is 0 or 1, and it is 1 iff turn-on < wrapped ν < turn-off (strictly) and the width reaches the nucleation distance |
| Ring.Bell | build/lib/xenomorph/geometry.py:449-450 | the Gaussian edge profile is in (0, 1] and is 1 at its centre |
| Ring.EdgeResidual | build/lib/xenomorph/geometry.py:449-450 | a residual is in [0, 1], and it vanishes on the side where the gate is already on |
| Ring.GradualResidual | build/lib/xenomorph/geometry.py:446-453 | the capped residual is in [0, 1]; it is 0 once the gradual-turn width reaches one radian; below that width it is positive exactly outside the production window, equal to the bell of the turn-on edge before the window, to the bell of the turn-off edge after it, and to the capped sum when both edges are off |
| Ring.SoftEdges | build/lib/xenomorph/geometry.py:449-453 | the residual of a window [on, off] is in [0, 1], positive exactly outside the window, the bell of the nearer switched-off edge when only one edge is off, and the capped sum of both bells otherwise |
| Ring.BaseWeight | build/lib/xenomorph/geometry.py:441-454 | the gated weight is in [0, 1]; it is 1 when the hard gate is open and 0 before nucleation; a nucleated ring outside the window gets exactly the gradual residual, and is never 0 while the gradual-turn width is below one radian; with that width at one radian or more it equals the hard gate |
| Ring.CompanionFactor | build/lib/xenomorph/geometry.py:461-488 | the companion's factor is non-negative (the floor) and at most 1 for a non-negative reduction; it is 1 outside the companion's cone and 1 when the reduction is 0 |
| Ring.CompanionMonotone | build/lib/xenomorph/geometry.py:485-488 | a stronger reduction never brightens a particle |
| Ring.VariationBounds | build/lib/xenomorph/geometry.py:545 | an unclipped variation with amplitude in [0, 1] is at least the amplitude, and at most 1 when its width is at least 1 |
| Ring.Variation | build/lib/xenomorph/geometry.py:545-546 | for a width of at least 1 the curve is 1 − (1 − amp)·bell((x − centre)/width) and equals the amplitude at the centre; below a width of 1 the curve is lifted by 1, using the width clamped to at least 0.0001 |
| Ring.VariationOff | build/lib/xenomorph/geometry.py:545-546 | below a width of 1 (with non-negative amplitude), or at amplitude 1, the raw variation is at least 1, so the clip makes it 1 |
| Ring.OrbitalFactor | build/lib/xenomorph/geometry.py:539-556 | the orbital multiplier is in [0, 1] and at least the amplitude; for a width of at least 1 and an amplitude in [0, 1] it is 1 − (1 − amp)·exp(−½((ν° + 180 − orb_min)/orb_sd)²), reaching the amplitude at `orb_min`; it is exactly 1 when `max(orb_sd, 0.0001) < 1` with `orb_amp ≥ 0`, or when `orb_amp = 1` |
| Ring.ClipAzimuthal | build/lib/xenomorph/geometry.py:559 | the azimuthal clip is the same [0, 1] clamp as the orbital one |
| Ring.ShiftedTheta | build/lib/xenomorph/geometry.py:383 | the dithered angle lies in [0, 2π) |
| Ring.AzimuthalFactor | build/lib/xenomorph/geometry.py:551-559 | the azimuthal multiplier obeys the orbital rule with `az_sd`, `az_amp` and `az_min`, read at the particle's dither angle in degrees |
| Ring.HalfOpenAngle | build/lib/xenomorph/geometry.py:379-380 | the half opening angle never exceeds π/2; it is non-negative for a non-negative angle, and is half the angle in radians up to 180° |
| Ring.RotateZ | build/lib/xenomorph/geometry.py:438-439 | turning about z keeps a point's distance from the origin and its height |
| Ring.ConePoint | build/lib/xenomorph/geometry.py:387-405 | every point of the circle lies at the ring radius from the launch point |
| Ring.ParticleWeight | build/lib/xenomorph/geometry.py:485-560 | a final weight is non-negative, at most the gated weight for a non-negative reduction (so at most 1), 0 when the gated weight is 0, equal to the gated weight when the reduction is 0 and both amplitudes are 1, and at least gated·orb_amp·az_amp outside the companion's cone |
| Ring.UndimmedFloor | build/lib/xenomorph/geometry.py:487-560 | outside the companion's cone, variations that are at least their amplitudes keep at least weight·orb_amp·az_amp |
| Ring.Frame | build/lib/xenomorph/geometry.py:366-454 | the per-ring base weight is in [0, 1] and 0 before nucleation |
| Ring.RingParticle | build/lib/xenomorph/geometry.py:383-560 | a particle sits at the ring radius; its weight is non-negative, at most the ring's gated weight for a non-negative reduction, equal to it when nothing dims, and 0 when the ring is gated off |
| Ring.DustCircle | build/lib/xenomorph/geometry.py:333-569 | one particle per angle, every particle at the ring radius; every weight is non-negative and, for a non-negative reduction, at most the ring's gated weight and at most 1; with no dimming every weight is the gated weight, so a producing ring has weight 1 throughout; a ring that has not nucleated is all zeros |
| Cloud.SeparationPositive | build/lib/xenomorph/geometry.py:686-687 | on a bound orbit with a positive total axis the stars never coincide, so the plume direction can be normalised |
| Cloud.LaunchAt | build/lib/xenomorph/geometry.py:682-737 | a launch has a non-zero plume direction when the axes are positive, and a non-negative width under the width conditions |
| Cloud.Schedule | build/lib/xenomorph/geometry.py:669-721 | n_t·n_orbits mean anomalies in [0, 2π) and launch times in [0, n_orbits) |
| Cloud.TimesBounded | build/lib/xenomorph/geometry.py:713-721 | every launch time is in [0, n_orbits) |
| Cloud.Launches | build/lib/xenomorph/geometry.py:682-737 | one launch per ring; every plume direction is non-zero for a non-zero period and non-negative masses, and every width is non-negative under the width conditions |
| Cloud.LaunchesFrom | build/lib/xenomorph/geometry.py:682-737 | the same facts, for any schedule with launch times before `n_orbits` |
| Cloud.Rings | build/lib/xenomorph/geometry.py:740 | one ring per launch, each with one particle per angle, with weights in [0, 1] for a non-negative reduction |
| Cloud.Assemble | build/lib/xenomorph/geometry.py:748-760 | the assembled cloud has rings × points particles |
| Cloud.AssembleIndex | build/lib/xenomorph/geometry.py:748-760 | particle p is particle p mod width of ring p / width, shifted by that same ring's shock start: weights, coordinates and offset share one ring-major order |
| Cloud.ShockStarts | build/lib/xenomorph/geometry.py:758-759 | each ring's shock starts at the companion's position at its launch |
| Cloud.PlumeCloud | build/lib/xenomorph/geometry.py:740-760 | the cloud has rings × points particles |
| Cloud.AssembleWeights | build/lib/xenomorph/geometry.py:748 | assembling keeps every weight inside [0, 1] |
| Cloud.CloudWeights | build/lib/xenomorph/geometry.py:740-748 | every particle weight in the cloud is in [0, 1] when the companion only dims |
| Cloud.DustPlumeSub | build/lib/xenomorph/geometry.py:603-760 | the plume has n_t·n_orbits·n_points particles |
| Cloud.DustPlumeWeights | build/lib/xenomorph/geometry.py:603-760 | every weight of the whole plume is in [0, 1] when `comp_reduction ≥ 0` |
| Grid.Zeros | build/lib/xenomorph/geometry.py:851 | an n-by-n image of zeros |
| Grid.AddAt | build/lib/xenomorph/geometry.py:852 | adding at one cell changes that cell by the amount and leaves every other cell alone |
| Grid.AddAtTotal | build/lib/xenomorph/geometry.py:852 | the image total grows by exactly the amount added |
| Grid.ScatterTotal | build/lib/xenomorph/geometry.py:852-855 | after a masked scatter-add the total grows by the sum of the amounts that landed in range |
| Grid.Scatter | build/lib/xenomorph/geometry.py:851-855 | the `.at[].add` updates in order keep the image n by n; Grid.ScatterCell gives each cell, Grid.ScatterTotal the total and Grid.ScatterAppend the batch order |
| Grid.ScatterCell | build/lib/xenomorph/geometry.py:852-855 | each cell ends up with its start value plus every amount aimed at it |
| Grid.ScatterAppend | build/lib/xenomorph/geometry.py:852-855 | scattering two batches at once equals scattering them one after the other |
| Grid.Transpose | build/lib/xenomorph/geometry.py:858 | `H.T` swaps rows and columns |
| Grid.ScatterTransposed | build/lib/xenomorph/geometry.py:851-858 | transposing a scattered image equals scattering with row and column swapped |
| Grid.TransposedTotal | build/lib/xenomorph/geometry.py:851-858 | the transposed image's total is the sum of the landed amounts |
| Splat.Split | build/lib/xenomorph/geometry.py:817-827 | the main index is `floor(pos / w)`; the neighbour is main + 1 iff the offset within the pixel exceeds w/2, otherwise main − 1; the near share is the overlap of the particle's pixel-wide square with its own pixel, so it lies in [w/2, w] |
| Splat.Mask | build/lib/xenomorph/geometry.py:833-841 | the in-range check is 1 exactly for indices in [0, im_size), and 0 otherwise |
| Splat.Quadrant | build/lib/xenomorph/geometry.py:843-855 | a quadrant targets the chosen row and column; in range it carries its full rectangle area times the weight, and out of range exactly 0 |
| Splat.Layer | build/lib/xenomorph/geometry.py:843-855 | one quadrant deposit per particle, in particle order |
| Splat.Deposits | build/lib/xenomorph/geometry.py:852-855 | 4·N deposits: the main quadrants of all N particles, then the horizontal, then the vertical, then the corner ones, each in particle order |
| Splat.SplatsNear | build/lib/xenomorph/geometry.py:820-824 | every particle's near shares `a_s`, `b_s` lie in [w/2, w] on both axes |
| Splat.QuadrantAreas | build/lib/xenomorph/geometry.py:843-846 | the four rectangles of a split pixel add up to w² |
| Splat.QuadrantLanded | build/lib/xenomorph/geometry.py:833-846 | for a non-negative weight, what a quadrant lands is between 0 and its full area share |
| Splat.ShareBounds | build/lib/xenomorph/geometry.py:833-846 | one particle's landed total is between 0 and w²·weight |
| Splat.ShareWhole | build/lib/xenomorph/geometry.py:833-855 | a particle whose four targets are all in range lands exactly w²·weight |
| Splat.QuadrantsTile | build/lib/xenomorph/geometry.py:843-846 | the four full shares add up to w²·weight |
| Splat.SplatImage | build/lib/xenomorph/geometry.py:806-858 | the splat image is im_size by im_size |
| Splat.SplatTotal | build/lib/xenomorph/geometry.py:851-858 | the image total is the sum over particles of what each landed |
| Splat.SharesBounded | build/lib/xenomorph/geometry.py:833-855 | for non-negative weights the summed landings are between 0 and w²·Σ weights |
| Splat.SharesWhole | build/lib/xenomorph/geometry.py:833-855 | with every target in range the summed landings are exactly w²·Σ weights |
| Splat.SplatTotalBounds | build/lib/xenomorph/geometry.py:812-858 | for non-negative weights the pre-blur total is between 0 and w²·Σ weights, whatever the edges |
| Splat.InteriorSplit | build/lib/xenomorph/geometry.py:817-836 | a coordinate more than half a pixel inside the grid has both of its indices in range |
| Splat.SplatsInRange | build/lib/xenomorph/geometry.py:817-836 | with every particle interior on both axes, all four targets of every particle are in range |
| Splat.SplatConserves | build/lib/xenomorph/geometry.py:812-858 | with every particle interior, the pre-blur total is exactly w²·Σ weights: nothing falls off the image |
| Splat.SplatPositive | build/lib/xenomorph/geometry.py:812-858 | with every particle interior and a positive total weight, the pre-blur total is positive |
| Splat.Extent | build/lib/xenomorph/geometry.py:886-887 | the extent bounds every coordinate's magnitude and is attained by one of them |
| Splat.AutoEdges | build/lib/xenomorph/geometry.py:889 | `linspace(−bound, bound, im_size + 1)` has im_size + 1 edges |
| Splat.AutoEdgesShape | build/lib/xenomorph/geometry.py:886-889 | the automatic edges are a pixel width apart and start at −bound |
| Splat.AutoEdgesAbove | build/lib/xenomorph/geometry.py:889 | the first edge is −bound and no edge is lower |
| Splat.AutoEdgesStep | build/lib/xenomorph/geometry.py:812 | `xedges[1] − xedges[0]` of the automatic edges is 2·bound/im_size |
| Splat.AutoBoundIs | build/lib/xenomorph/geometry.py:886-887 | the bound is the extent times (1 + 2/im_size) |
| Splat.AutoBoundInterior | build/lib/xenomorph/geometry.py:886-889 | with im_size ≥ 3, any coordinate within the extent is more than half a pixel inside the automatic grid |
| Splat.AxisAutoInterior | build/lib/xenomorph/geometry.py:886-889 | every coordinate of an axis is interior to the automatic grid |
| Splat.AutoBoundConserves | build/lib/xenomorph/geometry.py:880-890 | on the automatic grid with im_size ≥ 3 and non-zero extent, the pre-blur total equals w²·Σ weights |
| Splat.AutoBoundPositiveTotal | build/lib/xenomorph/geometry.py:880-890 | on the automatic grid a positive total weight gives a positive pre-blur total |
| Splat.AutoEdgesFit | build/lib/xenomorph/geometry.py:886-889 | the automatic edges have im_size + 1 entries, minimum −bound, and pixel width 2·bound/im_size |
| Splat.AutoEdgesReady | build/lib/xenomorph/geometry.py:886-889 | the pixel width is positive and every particle is interior on both axes |
| Normalisation.GridMax | build/lib/xenomorph/geometry.py:867 | `jnp.max(H)` is at least every pixel and equals one of them |
| Normalisation.GridMaxIs | build/lib/xenomorph/geometry.py:867 | an attained upper bound of the pixels is the maximum |
| Normalisation.PositiveTotalMax | build/lib/xenomorph/geometry.py:867 | an image with a positive total has a positive maximum |
| Normalisation.DivideByMax | build/lib/xenomorph/geometry.py:867 | the divided image times the old maximum gives back the image; some pixel is exactly 1; for a positive maximum the new maximum is 1 |
| Normalisation.Clip | build/lib/xenomorph/geometry.py:870 | each pixel is the smaller of itself and the cap |
| Normalisation.ClipMax | build/lib/xenomorph/geometry.py:870 | the clipped image's maximum is the smaller of the old maximum and the cap |
| Normalisation.ClipStage | build/lib/xenomorph/geometry.py:870-871 | after clip and divide the maximum is still at least 1 |
| Normalisation.ClipSaturates | build/lib/xenomorph/geometry.py:867-871 | for maximum 1 and 0 < histmax ≤ 1, the result's maximum is 1; a pixel becomes 1 iff it was at least histmax; every other pixel becomes itself over histmax |
| Normalisation.ClipNoOp | build/lib/xenomorph/geometry.py:870-871 | with histmax ≥ 1 the clip-and-divide step leaves a maximum-1 image unchanged |
| Normalisation.Powered | build/lib/xenomorph/geometry.py:873-874 | each pixel is raised to `lum_power`, its magnitude taken first unless the power is exactly 1 |
| Normalisation.PoweredPositive | build/lib/xenomorph/geometry.py:873-874 | a positive maximum stays positive after the power |
| Normalisation.PowerStage | build/lib/xenomorph/geometry.py:873-875 | after power and divide the maximum is exactly 1 |
| Normalisation.PowerIdentity | build/lib/xenomorph/geometry.py:873-875 | with `lum_power = 1` the power-and-renormalise step leaves a maximum-1 image unchanged |
| Normalisation.UnitPower | build/lib/xenomorph/geometry.py:873-874 | raising to the power 1 changes nothing |
| Normalisation.Normalise | build/lib/xenomorph/geometry.py:867-875 | the normalised image is n by n with maximum exactly 1 |
| Normalisation.DivideRange | build/lib/xenomorph/geometry.py:867 | dividing a non-negative image by its positive maximum keeps it non-negative |
| Normalisation.ClipStageRange | build/lib/xenomorph/geometry.py:870-871 | clip and divide keep a non-negative image non-negative |
| Normalisation.PowerStageRange | build/lib/xenomorph/geometry.py:873-875 | power and divide keep a non-negative image non-negative |
| Normalisation.NormaliseRange | build/lib/xenomorph/geometry.py:867-875 | a non-negative image with a positive maximum normalises to pixels in [0, 1] |
| Normalisation.DivideMonotone | build/lib/xenomorph/geometry.py:867 | dividing by a positive maximum keeps the order of any two pixels |
| Normalisation.ClipMonotone | build/lib/xenomorph/geometry.py:870-871 | clip and divide keep the order of any two pixels |
| Normalisation.PowerMonotone | build/lib/xenomorph/geometry.py:873-875 | for a non-negative power, power and divide keep the order of non-negative pixels |
| Normalisation.PoweredOrder | build/lib/xenomorph/geometry.py:873-874 | a non-negative power keeps the order of non-negative pixels |
| Normalisation.NormaliseMonotone | build/lib/xenomorph/geometry.py:867-875 | the whole normalisation never swaps the brightness order of two pixels |
| Normalisation.ScaledMax | build/lib/xenomorph/geometry.py:867 | scaling by k > 0 scales the maximum by k and keeps it zero iff it was zero |
| Normalisation.DivideScaleFree | build/lib/xenomorph/geometry.py:867 | dividing by the maximum forgets a positive overall scale |
| Normalisation.NormaliseScaleFree | build/lib/xenomorph/geometry.py:867-875 | the normalised image does not depend on a positive overall brightness scale |
| Normalisation.NormalisePlain | build/lib/xenomorph/geometry.py:867-875 | with histmax ≥ 1 and `lum_power = 1` the whole normalisation is one division by the maximum |
| Histogram.SmoothHistogramBase | build/lib/xenomorph/geometry.py:806-877 | for any size-keeping blur, the histogram is n by n and its brightest pixel is exactly 1 |
| Histogram.AutoGridEdges | build/lib/xenomorph/geometry.py:886-889 | the automatic grid has 257 edges a positive pixel width apart |
| Histogram.SmoothHistogram | build/lib/xenomorph/geometry.py:878-890 | the automatic-bounds histogram is 256 by 256 with brightest pixel 1 |
| Histogram.SmoothHistogramWithBins | build/lib/xenomorph/geometry.py:892-894 | the caller's-bins histogram is 256 by 256 with brightest pixel 1 |
| Histogram.AutoHistogramConserves | build/lib/xenomorph/geometry.py:880-890 | on the automatic grid the unblurred image's total is the pixel area times the total weight |
| Histogram.AutoHistogramPositive | build/lib/xenomorph/geometry.py:867-890 | on the automatic grid a positive total weight gives the unblurred image a positive maximum, so only the blur could make the first division undefined |

## Left out

- Floating-point rounding, NaN and infinities: all arithmetic is exact real arithmetic.
- `kepler_starter` and `kepler_refiner` (geometry.py:100-126) are one opaque solver-core parameter. The model covers only the range reduction around them, not how accurate the solve is.
- The FFT Gaussian blur (`signal.convolve`, geometry.py:860-865) is a parameter. It is only assumed to keep the image size.
- The spherical-geometry formula for the cosine of a particle's angular distance from the companion (geometry.py:461-474) is a parameter, `cosSeparation`, taken of the particle's position. Its `arccos` is then taken as in the source (geometry.py:475).
- The sky projection (`euler_angles`, `arctan`, geometry.py:762-764) is not modelled. The cloud is stated in the orbital frame.
- The `X, Y = jnp.meshgrid(...)` outputs of `smooth_histogram2d_base` are not modelled. Only `H` is.
- `dust_plume`, `dust_plume_GUI_sub`, `spiral_grid*`, `generate_lightcurve`, `add_stars`, the plotting and animation functions, and HMC_Testing/Apep_HMC.py are not modelled: they are outside the core.
- JAX plumbing (`custom_jvp` registration, `make_zero`, `vmap`, `jit`) is not modelled beyond the tangent formulas.
- The unused `direction` argument of `spin_orbit_mult` is dropped.
- `n_t = int(n_time / n_orbits)`: the model takes `n_t` and `n_orbits` directly, so `n_time` is always their product. A `times` array whose length is not a multiple of `n_orbits` is not modelled.
- JAX wraps negative scatter indices to the far end of the array. Every target outside [0, im_size) carries a masked amount of exactly 0, so the model drops such deposits instead.
- Normalisation.DivideByMax: requires a non-zero maximum. The source divides by `jnp.max(H)` without a guard, which gives NaN when it is 0.
- Histogram.SmoothHistogramBase: requires a non-zero blurred maximum and a non-zero `histmax`, for the same reason. Histogram.AutoHistogramPositive shows that on the automatic grid a positive total weight rules out a zero maximum before the blur.
- Histogram.SmoothHistogram: requires a non-zero particle extent. With extent 0 the source's bound is 0 and the pixel width is 0, so its division is undefined.
- Orbit.SemiMajor: requires m1 + m2 ≠ 0, because the source divides by the total mass.
- Anisotropy.SpinOrbitMult: requires non-zero `windspeed1` and `open_angle`, because the source divides by them.
- Anisotropy.Blend: states only that a polar ratio of 1 gives 1, not the converse. The blend is also 1 when the tanh argument is 0.
- Plume.TurnOnTrueAnomaly: a widened start of 360° or more is stated only to land in [0, 2π). The source takes it modulo 2π as well.
- Plume.TurnOffTrueAnomaly: a widened end below −360° is stated only to land in [0, 2π). The source takes it modulo 2π as well.
- Orbit.TrueFromEccentric: states only that periapsis (E = 0) has true anomaly 0. The half-angle relation tan(ν/2) = √((1+e)/(1−e))·tan(E/2) needs `arctan2` values that are not axiomatised.
- Plume.MeanFromTrue: states only that true anomaly 0 maps to mean anomaly 0. The rest depends on `tan` and `arctan2` values that are not axiomatised.
- Cloud.DustPlumeSub: its own contract states the particle count. The weight bounds are in Cloud.DustPlumeWeights, and the positions are in Ring.DustCircle and Cloud.AssembleIndex.
- Splat.SplatConserves: conservation is stated for particles strictly more than half a pixel inside the grid. For other particles only the bounds of Splat.SplatTotalBounds are stated.

Three behaviours of the code that are easy to misread; the model follows the code in each:

- The soft edges are cut off by `heaviside(sigma - 1, 1)` with `sigma` in radians, so they vanish once `gradual_turn` reaches one radian, about 57.3° (geometry.py:446-452).
- Each variation adds `1 - heaviside(sd - 1, 1)` to its curve before clipping to [0, 1], so a clamped width below 1 switches that variation off and a width of 1 or more keeps it (geometry.py:546, 558).
- At or below ten machine epsilons, `zero_safe_sqrt`'s tangent divides by `1 ** 0.5`, so it is `0.5·x_dot` there (geometry.py:236-239).
