/**
 The area-weighted splat at the heart of `smooth_histogram2d_base`
 (geometry.py lines 806-855). Every particle is a square one pixel wide,
 centred on its position; its weight is shared among the four pixels the
 square overlaps in proportion to the overlapped areas, and a share whose
 pixel lies outside the image is masked to zero.
 */
module Splat {
  import opened RealMath
  import opened SeqOps
  import opened Grid

  /** One coordinate's split: its own pixel, the neighbour it spills into, and its extent in its own pixel. */
  datatype AxisSplit = AxisSplit(index: int, neighbour: int, near: real)

  /**
   A position measured from the image's lower edge, against pixels `side`
   wide. The own pixel is the floor of `pos / side`; the square spills into
   the next pixel up exactly when it sits in the upper half of its own
   pixel, otherwise into the one below. Its extent in its own pixel is the
   overlap of the square `[pos - side/2, pos + side/2]` with that pixel,
   between half and all of its width.
   */
  function Split(pos: real, side: real): (s: AxisSplit)
    requires side > 0.0
    ensures s.index as real * side <= pos < s.index as real * side + side
    ensures s.neighbour == s.index + 1 <==> pos - s.index as real * side > side / 2.0
    ensures s.neighbour == s.index + 1 || s.neighbour == s.index - 1
    ensures s.near == Min(pos + side / 2.0, s.index as real * side + side) - Max(pos - side / 2.0, s.index as real * side)
    ensures side / 2.0 <= s.near <= side
  {
    var index := (pos / side).Floor;
    var alpha := FloorMod(pos, side);
    FloorQuotientBounds(pos, side);
    AxisSplit(index, if alpha > side / 2.0 then index + 1 else index - 1, Min(alpha, side - alpha) + side / 2.0)
  }

  /** `heaviside(i, 1) * heaviside(n - i, 0)`: the indicator of `0 <= i < n`. */
  function Mask(i: int, n: nat): (r: real)
    ensures r == (if 0 <= i < n then 1.0 else 0.0)
  {
    Heaviside(i as real, 1.0) * Heaviside((n - i) as real, 0.0)
  }

  /** One particle's split on both axes. */
  datatype Splat = Splat(x: AxisSplit, y: AxisSplit)

  /** The pixel index on one axis: the own pixel, or the neighbour when `far`. */
  function AxisTarget(s: AxisSplit, far: bool): int {
    if far then s.neighbour else s.index
  }

  /** The overlap on one axis: `near` in the own pixel, the rest in the neighbour. */
  function AxisShare(s: AxisSplit, side: real, far: bool): real {
    if far then side - s.near else s.near
  }

  /** The overlapped area of one quadrant times the weight: what it adds when it lands. */
  function Full(p: Splat, w: real, side: real, farX: bool, farY: bool): real {
    AxisShare(p.x, side, farX) * AxisShare(p.y, side, farY) * w
  }

  /**
   One of the four quadrant updates of a particle, aimed at
   `[x pixel, y pixel]` as the source scatters before its transpose. The
   amount is the overlapped area times the weight when both pixels are in the
   image, and exactly zero otherwise.
   */
  function Quadrant(p: Splat, w: real, side: real, n: nat, farX: bool, farY: bool): (d: Deposit)
    ensures d.row == AxisTarget(p.x, farX) && d.col == AxisTarget(p.y, farY)
    ensures InImage(d.row, d.col, n) ==> d.amount == Full(p, w, side, farX, farY)
    ensures !InImage(d.row, d.col, n) ==> d.amount == 0.0
  {
    var tx := AxisTarget(p.x, farX);
    var ty := AxisTarget(p.y, farY);
    Deposit(tx, ty, AxisShare(p.x, side, farX) * AxisShare(p.y, side, farY) * w * Mask(tx, n) * Mask(ty, n))
  }

  /** One quadrant for every particle: one `H.at[...].add(...)` line. */
  function Layer(ps: seq<Splat>, ws: seq<real>, side: real, n: nat, farX: bool, farY: bool): (ds: seq<Deposit>)
    requires |ws| == |ps|
    ensures |ds| == |ps|
    ensures forall i :: 0 <= i < |ps| ==> ds[i] == Quadrant(ps[i], ws[i], side, n, farX, farY)
  {
    seq(|ps|, i requires 0 <= i < |ps| => Quadrant(ps[i], ws[i], side, n, farX, farY))
  }

  /** The four scatters in the source's order: main, horizontal, vertical, corner. */
  function Deposits(ps: seq<Splat>, ws: seq<real>, side: real, n: nat): (ds: seq<Deposit>)
    requires |ws| == |ps|
    ensures |ds| == 4 * |ps|
    ensures forall i :: 0 <= i < |ps| ==>
              && ds[i] == Quadrant(ps[i], ws[i], side, n, false, false)
              && ds[|ps| + i] == Quadrant(ps[i], ws[i], side, n, true, false)
              && ds[2 * |ps| + i] == Quadrant(ps[i], ws[i], side, n, false, true)
              && ds[3 * |ps| + i] == Quadrant(ps[i], ws[i], side, n, true, true)
  {
    Layer(ps, ws, side, n, false, false) + Layer(ps, ws, side, n, true, false)
      + Layer(ps, ws, side, n, false, true) + Layer(ps, ws, side, n, true, true)
  }

  /** Every particle split against the pixel grid whose lower corner is `(xMin, yMin)`. */
  function Splats(xs: seq<real>, ys: seq<real>, xMin: real, yMin: real, side: real): (ps: seq<Splat>)
    requires |ys| == |xs|
    requires side > 0.0
    ensures |ps| == |xs|
  {
    seq(|xs|, i requires 0 <= i < |xs| => Splat(Split(xs[i] - xMin, side), Split(ys[i] - yMin, side)))
  }

  /** Every particle keeps between half and all of its width in its own pixel, on both axes. */
  lemma SplatsNear(xs: seq<real>, ys: seq<real>, xMin: real, yMin: real, side: real)
    requires |ys| == |xs| && side > 0.0
    ensures var ps := Splats(xs, ys, xMin, yMin, side);
            forall i :: 0 <= i < |ps| ==> side / 2.0 <= ps[i].x.near <= side && side / 2.0 <= ps[i].y.near <= side
  {
    var ps := Splats(xs, ys, xMin, yMin, side);
    forall i | 0 <= i < |ps|
      ensures side / 2.0 <= ps[i].x.near <= side && side / 2.0 <= ps[i].y.near <= side
    {
      assert ps[i] == Splat(Split(xs[i] - xMin, side), Split(ys[i] - yMin, side));
    }
  }

  /** The pixel width, `xedges[1] - xedges[0]`, used for both axes. */
  function Side(xedges: seq<real>): real
    requires |xedges| >= 2
  {
    xedges[1] - xedges[0]
  }

  /** What the histogram needs of its inputs: one weight per particle, and increasing x edges. */
  predicate SplatInputs(xs: seq<real>, ys: seq<real>, ws: seq<real>, xedges: seq<real>, yedges: seq<real>) {
    && |ys| == |xs| && |ws| == |xs|
    && |xedges| >= 2 && |yedges| > 0
    && Side(xedges) > 0.0
  }

  /**
   The histogram before the blur: the four scatters into an empty image,
   transposed so that rows follow y and columns follow x. The pixel width of
   both axes is read off the first two x edges.
   */
  function SplatImage(xs: seq<real>, ys: seq<real>, ws: seq<real>,
                      xedges: seq<real>, yedges: seq<real>, n: nat): (g: Image)
    requires SplatInputs(xs, ys, ws, xedges, yedges)
    ensures IsSquare(g, n)
  {
    Transpose(Scatter(Zeros(n), n, SplatDeposits(xs, ys, ws, xedges, yedges, n)), n)
  }

  function SplatDeposits(xs: seq<real>, ys: seq<real>, ws: seq<real>,
                         xedges: seq<real>, yedges: seq<real>, n: nat): (ds: seq<Deposit>)
    requires SplatInputs(xs, ys, ws, xedges, yedges)
    ensures |ds| == 4 * |xs|
  {
    var side := Side(xedges);
    Deposits(Splats(xs, ys, SeqMin(xedges), SeqMin(yedges), side), ws, side, n)
  }

  /** The four overlapped areas of a pixel-sized square tile a pixel. */
  lemma QuadrantAreas(a: real, b: real, side: real)
    ensures a * b + (side - a) * b + a * (side - b) + (side - a) * (side - b) == Sq(side)
  {
  }

  /** What one particle puts into the image: the four quadrants that land. */
  function Share(p: Splat, w: real, side: real, n: nat): real {
    Landed(Quadrant(p, w, side, n, false, false), n) + Landed(Quadrant(p, w, side, n, true, false), n)
      + Landed(Quadrant(p, w, side, n, false, true), n) + Landed(Quadrant(p, w, side, n, true, true), n)
  }

  /** Each quadrant that lands adds a non-negative part of the particle's full share. */
  lemma QuadrantLanded(p: Splat, w: real, side: real, n: nat, farX: bool, farY: bool)
    requires side > 0.0 && w >= 0.0
    requires side / 2.0 <= p.x.near <= side && side / 2.0 <= p.y.near <= side
    ensures 0.0 <= Landed(Quadrant(p, w, side, n, farX, farY), n) <= Full(p, w, side, farX, farY)
  {
    var sx := AxisShare(p.x, side, farX);
    var sy := AxisShare(p.y, side, farY);
    assert sx >= 0.0 && sy >= 0.0;
    assert sx * sy >= 0.0;
    assert sx * sy * w >= 0.0;
  }

  /**
   A particle with a non-negative weight puts between nothing and its whole
   weight times the pixel area into the image...
   */
  lemma ShareBounds(p: Splat, w: real, side: real, n: nat, area: real)
    requires side > 0.0 && w >= 0.0 && area == Sq(side)
    requires side / 2.0 <= p.x.near <= side && side / 2.0 <= p.y.near <= side
    ensures 0.0 <= Share(p, w, side, n) <= area * w
  {
    QuadrantLanded(p, w, side, n, false, false);
    QuadrantLanded(p, w, side, n, true, false);
    QuadrantLanded(p, w, side, n, false, true);
    QuadrantLanded(p, w, side, n, true, true);
    QuadrantsTile(p, w, side, area);
    FourBetween(Landed(Quadrant(p, w, side, n, false, false), n), Landed(Quadrant(p, w, side, n, true, false), n),
                Landed(Quadrant(p, w, side, n, false, true), n), Landed(Quadrant(p, w, side, n, true, true), n),
                Full(p, w, side, false, false), Full(p, w, side, true, false),
                Full(p, w, side, false, true), Full(p, w, side, true, true), area * w);
  }

  lemma FourBetween(l1: real, l2: real, l3: real, l4: real, f1: real, f2: real, f3: real, f4: real, t: real)
    requires 0.0 <= l1 <= f1 && 0.0 <= l2 <= f2 && 0.0 <= l3 <= f3 && 0.0 <= l4 <= f4
    requires f1 + f2 + f3 + f4 == t
    ensures 0.0 <= l1 + l2 + l3 + l4 <= t
  {
  }

  /** ...and exactly that when all four of its pixels are in the image. */
  lemma ShareWhole(p: Splat, w: real, side: real, n: nat, area: real)
    requires 0 <= p.x.index < n && 0 <= p.x.neighbour < n
    requires 0 <= p.y.index < n && 0 <= p.y.neighbour < n
    requires area == Sq(side)
    ensures Share(p, w, side, n) == area * w
  {
    QuadrantsTile(p, w, side, area);
  }

  /** The four quadrants' full amounts add up to the weight times the pixel area. */
  lemma QuadrantsTile(p: Splat, w: real, side: real, area: real)
    requires area == Sq(side)
    ensures Full(p, w, side, false, false) + Full(p, w, side, true, false)
          + Full(p, w, side, false, true) + Full(p, w, side, true, true) == area * w
  {
    var a, b := p.x.near, p.y.near;
    QuadrantAreas(a, b, side);
    assert a * b * w + (side - a) * b * w + a * (side - b) * w + (side - a) * (side - b) * w
        == (a * b + (side - a) * b + a * (side - b) + (side - a) * (side - b)) * w;
  }

  /** The particles' shares, in particle order. */
  function Shares(ps: seq<Splat>, ws: seq<real>, side: real, n: nat): (s: seq<real>)
    requires |ws| == |ps|
    ensures |s| == |ps|
  {
    seq(|ps|, i requires 0 <= i < |ps| => Share(ps[i], ws[i], side, n))
  }

  /** Four sequences summed whole, or term by term. */
  lemma SumFour(a1: seq<real>, a2: seq<real>, a3: seq<real>, a4: seq<real>)
    requires |a2| == |a1| && |a3| == |a1| && |a4| == |a1|
    ensures Sum(a1 + a2 + a3 + a4)
         == Sum(seq(|a1|, i requires 0 <= i < |a1| => a1[i] + a2[i] + a3[i] + a4[i]))
  {
    var a12, a123 := a1 + a2, a1 + a2 + a3;
    SumAppend(a1, a2);
    SumAppend(a12, a3);
    SumAppend(a123, a4);
    var s12 := seq(|a1|, i requires 0 <= i < |a1| => a1[i] + a2[i]);
    var s123 := seq(|a1|, i requires 0 <= i < |a1| => s12[i] + a3[i]);
    var s1234 := seq(|a1|, i requires 0 <= i < |a1| => s123[i] + a4[i]);
    SumPointwise(a1, a2);
    SumPointwise(s12, a3);
    SumPointwise(s123, a4);
    var t := seq(|a1|, i requires 0 <= i < |a1| => a1[i] + a2[i] + a3[i] + a4[i]);
    forall i | 0 <= i < |a1|
      ensures s1234[i] == t[i]
    {
    }
    assert s1234 == t;
  }

  /** The scattered total is the sum of the particles' shares. */
  lemma DepositsLanded(ps: seq<Splat>, ws: seq<real>, side: real, n: nat)
    requires |ws| == |ps|
    ensures Sum(LandedAmounts(Deposits(ps, ws, side, n), n)) == Sum(Shares(ps, ws, side, n))
  {
    var l1 := Layer(ps, ws, side, n, false, false);
    var l2 := Layer(ps, ws, side, n, true, false);
    var l3 := Layer(ps, ws, side, n, false, true);
    var l4 := Layer(ps, ws, side, n, true, true);
    LandedAppend(l1, l2, n);
    LandedAppend(l1 + l2, l3, n);
    LandedAppend(l1 + l2 + l3, l4, n);
    var a1, a2, a3, a4 := LandedAmounts(l1, n), LandedAmounts(l2, n), LandedAmounts(l3, n), LandedAmounts(l4, n);
    assert LandedAmounts(Deposits(ps, ws, side, n), n) == a1 + a2 + a3 + a4;
    SumFour(a1, a2, a3, a4);
    SharesAreLanded(ps, ws, side, n, a1, a2, a3, a4);
  }

  /** A particle's share is, term by term, what its four quadrants land. */
  lemma SharesAreLanded(ps: seq<Splat>, ws: seq<real>, side: real, n: nat,
                        a1: seq<real>, a2: seq<real>, a3: seq<real>, a4: seq<real>)
    requires |ws| == |ps|
    requires a1 == LandedAmounts(Layer(ps, ws, side, n, false, false), n)
    requires a2 == LandedAmounts(Layer(ps, ws, side, n, true, false), n)
    requires a3 == LandedAmounts(Layer(ps, ws, side, n, false, true), n)
    requires a4 == LandedAmounts(Layer(ps, ws, side, n, true, true), n)
    ensures seq(|a1|, i requires 0 <= i < |a1| => a1[i] + a2[i] + a3[i] + a4[i]) == Shares(ps, ws, side, n)
  {
    var t := seq(|a1|, i requires 0 <= i < |a1| => a1[i] + a2[i] + a3[i] + a4[i]);
    forall i | 0 <= i < |ps|
      ensures t[i] == Shares(ps, ws, side, n)[i]
    {
    }
  }

  /** The image's total is the sum of the particles' shares. */
  lemma SplatTotal(xs: seq<real>, ys: seq<real>, ws: seq<real>,
                   xedges: seq<real>, yedges: seq<real>, n: nat)
    requires SplatInputs(xs, ys, ws, xedges, yedges)
    ensures Total(SplatImage(xs, ys, ws, xedges, yedges, n))
              == Sum(Shares(Splats(xs, ys, SeqMin(xedges), SeqMin(yedges), Side(xedges)), ws, Side(xedges), n))
  {
    var side := Side(xedges);
    TransposedTotal(n, SplatDeposits(xs, ys, ws, xedges, yedges, n));
    DepositsLanded(Splats(xs, ys, SeqMin(xedges), SeqMin(yedges), side), ws, side, n);
  }

  /** Particles split against a grid, each with a non-negative weight, put in at most their weight times the area. */
  lemma SharesBounded(ps: seq<Splat>, ws: seq<real>, side: real, n: nat, area: real)
    requires |ws| == |ps| && side > 0.0 && area == Sq(side)
    requires forall i :: 0 <= i < |ps| ==> side / 2.0 <= ps[i].x.near <= side && side / 2.0 <= ps[i].y.near <= side
    requires forall i :: 0 <= i < |ws| ==> ws[i] >= 0.0
    ensures 0.0 <= Sum(Shares(ps, ws, side, n)) <= area * Sum(ws)
  {
    var s := Shares(ps, ws, side, n);
    forall i | 0 <= i < |ws|
      ensures 0.0 <= s[i] <= area * ws[i]
    {
      ShareBounds(ps[i], ws[i], side, n, area);
    }
    SumBetween(s, ws, area);
  }

  /** Particles all of whose pixels are in the image put in exactly their weight times the area. */
  lemma SharesWhole(ps: seq<Splat>, ws: seq<real>, side: real, n: nat, area: real)
    requires |ws| == |ps| && area == Sq(side)
    requires forall i :: 0 <= i < |ps| ==> 0 <= ps[i].x.index < n && 0 <= ps[i].x.neighbour < n
    requires forall i :: 0 <= i < |ps| ==> 0 <= ps[i].y.index < n && 0 <= ps[i].y.neighbour < n
    ensures Sum(Shares(ps, ws, side, n)) == area * Sum(ws)
  {
    var s := Shares(ps, ws, side, n);
    forall i | 0 <= i < |ws|
      ensures s[i] == area * ws[i]
    {
      ShareWhole(ps[i], ws[i], side, n, area);
    }
    SumProportional(s, ws, area);
  }

  /**
   With non-negative weights the image before the blur holds at least
   nothing and at most the pixel area `side^2` times the total weight:
   masking only ever removes weight.
   */
  lemma SplatTotalBounds(xs: seq<real>, ys: seq<real>, ws: seq<real>,
                         xedges: seq<real>, yedges: seq<real>, n: nat, side: real, area: real)
    requires SplatInputs(xs, ys, ws, xedges, yedges)
    requires side == Side(xedges) && area == Sq(side)
    requires forall i :: 0 <= i < |ws| ==> ws[i] >= 0.0
    ensures 0.0 <= Total(SplatImage(xs, ys, ws, xedges, yedges, n)) <= area * Sum(ws)
  {
    SplatTotal(xs, ys, ws, xedges, yedges, n);
    SplatsNear(xs, ys, SeqMin(xedges), SeqMin(yedges), side);
    SharesBounded(Splats(xs, ys, SeqMin(xedges), SeqMin(yedges), side), ws, side, n, area);
  }

  /** A position whose pixel-wide square lies wholly inside the n pixels of an axis. */
  predicate Interior(pos: real, side: real, n: nat) {
    side / 2.0 < pos < n as real * side - side / 2.0
  }

  /** Every coordinate of `zs`, measured from `lo`, is interior. */
  predicate AllInterior(zs: seq<real>, lo: real, side: real, n: nat) {
    forall i :: 0 <= i < |zs| ==> Interior(zs[i] - lo, side, n)
  }

  /** Ordering survives division by a positive factor. */
  lemma MulStrictOrder(a: real, b: real, c: real)
    requires c > 0.0 && a * c < b * c
    ensures a < b
  {
    if a >= b {
      MulMonotone(b, a, c);
    }
  }

  /** An interior position has its own pixel and its neighbour in range. */
  lemma InteriorSplit(pos: real, side: real, n: nat)
    requires side > 0.0
    requires Interior(pos, side, n)
    ensures 0 <= Split(pos, side).index < n
    ensures 0 <= Split(pos, side).neighbour < n
  {
    var s := Split(pos, side);
    var i := s.index as real;
    var k := n as real;
    assert i * side + side > side / 2.0;
    assert (i + 1.0) * side > 0.5 * side;
    MulStrictOrder(0.5, i + 1.0, side);
    assert i * side < k * side;
    MulStrictOrder(i, k, side);
    if s.neighbour == s.index + 1 {
      assert (i + 1.0) * side < k * side;
      MulStrictOrder(i + 1.0, k, side);
    } else {
      assert 0.0 * side < i * side;
      MulStrictOrder(0.0, i, side);
    }
  }

  /** Particles interior on both axes have all four of their pixels in the image. */
  lemma SplatsInRange(xs: seq<real>, ys: seq<real>, xMin: real, yMin: real, side: real, n: nat)
    requires |ys| == |xs| && side > 0.0
    requires AllInterior(xs, xMin, side, n)
    requires AllInterior(ys, yMin, side, n)
    ensures var ps := Splats(xs, ys, xMin, yMin, side);
            && (forall i :: 0 <= i < |ps| ==> 0 <= ps[i].x.index < n && 0 <= ps[i].x.neighbour < n)
            && (forall i :: 0 <= i < |ps| ==> 0 <= ps[i].y.index < n && 0 <= ps[i].y.neighbour < n)
  {
    var ps := Splats(xs, ys, xMin, yMin, side);
    forall i | 0 <= i < |ps|
      ensures 0 <= ps[i].x.index < n && 0 <= ps[i].x.neighbour < n
      ensures 0 <= ps[i].y.index < n && 0 <= ps[i].y.neighbour < n
    {
      assert ps[i] == Splat(Split(xs[i] - xMin, side), Split(ys[i] - yMin, side));
      InteriorSplit(xs[i] - xMin, side, n);
      InteriorSplit(ys[i] - yMin, side, n);
    }
  }

  /** Weight is conserved when every particle is interior on both axes. */
  lemma SplatConserves(xs: seq<real>, ys: seq<real>, ws: seq<real>,
                       xedges: seq<real>, yedges: seq<real>, n: nat, side: real, area: real)
    requires SplatInputs(xs, ys, ws, xedges, yedges)
    requires side == Side(xedges) && area == Sq(side)
    requires AllInterior(xs, SeqMin(xedges), side, n)
    requires AllInterior(ys, SeqMin(yedges), side, n)
    ensures Total(SplatImage(xs, ys, ws, xedges, yedges, n)) == area * Sum(ws)
  {
    SplatsInRange(xs, ys, SeqMin(xedges), SeqMin(yedges), side, n);
    SplatTotal(xs, ys, ws, xedges, yedges, n);
    SharesWhole(Splats(xs, ys, SeqMin(xedges), SeqMin(yedges), side), ws, side, n, area);
  }

  /** With interior particles and a positive total weight, the image's total is positive. */
  lemma SplatPositive(xs: seq<real>, ys: seq<real>, ws: seq<real>,
                      xedges: seq<real>, yedges: seq<real>, n: nat, side: real, area: real)
    requires SplatInputs(xs, ys, ws, xedges, yedges)
    requires side == Side(xedges) && area == Sq(side)
    requires AllInterior(xs, SeqMin(xedges), side, n)
    requires AllInterior(ys, SeqMin(yedges), side, n)
    requires Sum(ws) > 0.0
    ensures Total(SplatImage(xs, ys, ws, xedges, yedges, n)) > 0.0
  {
    SplatConserves(xs, ys, ws, xedges, yedges, n, side, area);
    MulSign(area, Sum(ws));
  }

  /** The largest absolute value in a non-empty sequence. */
  function MaxAbs(s: seq<real>): (r: real)
    requires |s| > 0
    ensures forall i :: 0 <= i < |s| ==> Abs(s[i]) <= r
    ensures exists i :: 0 <= i < |s| && Abs(s[i]) == r
  {
    var a := seq(|s|, i requires 0 <= i < |s| => Abs(s[i]));
    assert forall i :: 0 <= i < |s| ==> a[i] == Abs(s[i]);
    SeqMax(a)
  }

  /** The largest absolute coordinate on either axis: a bound on every particle, reached by one. */
  function Extent(xs: seq<real>, ys: seq<real>): (e: real)
    requires |xs| > 0 && |ys| > 0
    ensures forall i :: 0 <= i < |xs| ==> Abs(xs[i]) <= e
    ensures forall i :: 0 <= i < |ys| ==> Abs(ys[i]) <= e
    ensures (exists i :: 0 <= i < |xs| && Abs(xs[i]) == e) || (exists i :: 0 <= i < |ys| && Abs(ys[i]) == e)
  {
    Max(MaxAbs(xs), MaxAbs(ys))
  }

  /**
   The half-width `smooth_histogram2d` chooses: the extent widened by one
   pixel of an n-pixel image on each side.
   */
  function AutoBound(xs: seq<real>, ys: seq<real>, n: nat): real
    requires |xs| > 0 && |ys| > 0 && n > 0
  {
    Mul(Extent(xs, ys), Widening(n))
  }

  /** The width of one of n equal pixels spanning `[-bound, bound]`. */
  function PixelWidth(bound: real, n: nat): real
    requires n > 0
  {
    2.0 * bound / n as real
  }

  /** `1 + 2 / n`: one extra pixel on each side of an n-pixel image. */
  function Widening(n: nat): real
    requires n > 0
  {
    1.0 + 2.0 / n as real
  }

  /** `linspace(-bound, bound, n + 1)`: the n + 1 edges of n equal pixels. */
  function AutoEdges(bound: real, n: nat): (e: seq<real>)
    ensures |e| == n + 1
  {
    Linspace(-bound, bound, n + 1)
  }

  /** The edges start at `-bound`, which is their minimum, and are `2 bound / n` apart. */
  lemma AutoEdgesShape(bound: real, n: nat)
    requires n >= 1 && bound > 0.0
    ensures Side(AutoEdges(bound, n)) == PixelWidth(bound, n)
    ensures SeqMin(AutoEdges(bound, n)) == -bound
  {
    AutoEdgesAbove(bound, n);
    SeqMinIs(AutoEdges(bound, n), -bound);
    AutoEdgesStep(bound, n);
  }

  lemma AutoEdgesAbove(bound: real, n: nat)
    requires n >= 1 && bound > 0.0
    ensures AutoEdges(bound, n)[0] == -bound
    ensures forall i :: 0 <= i < n + 1 ==> -bound <= AutoEdges(bound, n)[i]
  {
    var e := AutoEdges(bound, n);
    forall i | 0 <= i < n + 1
      ensures -bound <= e[i]
    {
      var t := (bound - -bound) * (i as real);
      assert t >= 0.0;
      QuotientNonNegative(t, n as real);
      LinspaceAt(-bound, bound, n + 1, i);
    }
  }

  lemma QuotientNonNegative(t: real, k: real)
    requires t >= 0.0 && k > 0.0
    ensures t / k >= 0.0
  {
  }

  lemma AutoEdgesStep(bound: real, n: nat)
    requires n >= 1
    ensures Side(AutoEdges(bound, n)) == PixelWidth(bound, n)
  {
    LinspaceAt(-bound, bound, n + 1, 0);
    LinspaceAt(-bound, bound, n + 1, 1);
  }

  /**
   Within the auto bound, a coordinate no larger than `extent` in absolute
   value is interior on an image of at least 3 pixels: the one-pixel margin
   keeps the square of every particle off both outer edges.
   */
  lemma AutoBoundInterior(x: real, extent: real, n: nat, bound: real, side: real)
    requires n >= 3 && extent > 0.0
    requires Abs(x) <= extent
    requires bound == Mul(extent, Widening(n))
    requires side == PixelWidth(bound, n)
    ensures Interior(x + bound, side, n)
  {
    var k := n as real;
    var q := 1.0 / k;
    assert 0.0 < q <= 1.0 / 3.0;
    assert bound == extent * Widening(n);
    var p := extent * q;
    assert p > 0.0;
    assert bound == extent + 2.0 * p by {
      assert Widening(n) == 1.0 + 2.0 * q;
      assert extent * (1.0 + 2.0 * q) == extent + 2.0 * (extent * q);
    }
    var r := p * q;
    assert side / 2.0 == p + 2.0 * r by {
      assert side == 2.0 * bound / k;
      assert side == 2.0 * (bound * q);
      assert bound * q == (extent + 2.0 * p) * q;
      assert (extent + 2.0 * p) * q == extent * q + 2.0 * (p * q);
    }
    assert k * side == 2.0 * bound by {
      assert side == 2.0 * bound / k;
      assert k * (2.0 * bound / k) == 2.0 * bound;
    }
    assert r <= p / 3.0 by {
      MulMonotone(q, 1.0 / 3.0, p);
      assert Mul(q, p) == r;
    }
    assert 2.0 * p <= x + bound <= 2.0 * extent + 2.0 * p;
    assert side / 2.0 < x + bound;
    assert x + bound < k * side - side / 2.0;
  }

  lemma AutoBoundIs(xs: seq<real>, ys: seq<real>, n: nat, extent: real, bound: real)
    requires |xs| > 0 && |ys| > 0 && n > 0
    requires extent == Extent(xs, ys) && bound == AutoBound(xs, ys, n)
    ensures bound == Mul(extent, Widening(n))
  {
  }

  lemma PixelWidthPositive(bound: real, n: nat)
    requires bound > 0.0 && n > 0
    ensures PixelWidth(bound, n) > 0.0
  {
  }

  lemma AutoBoundPositive(extent: real, n: nat)
    requires extent > 0.0 && n > 0
    ensures Mul(extent, Widening(n)) > 0.0
  {
    MulSign(extent, Widening(n));
  }

  /** Every coordinate within `extent` is interior when shifted by the auto bound. */
  lemma AxisAutoInterior(zs: seq<real>, extent: real, n: nat, bound: real, lo: real, side: real)
    requires n >= 3 && extent > 0.0
    requires forall i :: 0 <= i < |zs| ==> Abs(zs[i]) <= extent
    requires bound == Mul(extent, Widening(n))
    requires lo == -bound
    requires side == PixelWidth(bound, n)
    ensures AllInterior(zs, lo, side, n)
  {
    forall i | 0 <= i < |zs|
      ensures Interior(zs[i] - lo, side, n)
    {
      AutoBoundInterior(zs[i], extent, n, bound, side);
      assert zs[i] - lo == zs[i] + bound;
    }
  }

  /**
   The auto-bounded histogram of at least 3 pixels conserves weight: before
   the blur its total is exactly the pixel area `side^2` times the total
   weight, `side` being the width of one of its n equal pixels.
   */
  lemma AutoBoundConserves(xs: seq<real>, ys: seq<real>, ws: seq<real>, n: nat,
                           bound: real, edges: seq<real>, side: real, area: real)
    requires |xs| > 0 && |ys| == |xs| && |ws| == |xs|
    requires n >= 3
    requires Extent(xs, ys) > 0.0
    requires bound == AutoBound(xs, ys, n)
    requires edges == AutoEdges(bound, n)
    requires side == PixelWidth(bound, n) && area == Sq(side)
    ensures SplatInputs(xs, ys, ws, edges, edges)
    ensures Total(SplatImage(xs, ys, ws, edges, edges, n)) == area * Sum(ws)
  {
    AutoEdgesFit(xs, ys, n, bound, edges);
    AutoEdgesReady(xs, ys, n, bound, edges, side);
    SplatConserves(xs, ys, ws, edges, edges, n, side, area);
  }

  /** ...so with a positive total weight the auto-bounded image has a positive total. */
  lemma AutoBoundPositiveTotal(xs: seq<real>, ys: seq<real>, ws: seq<real>, n: nat,
                               bound: real, edges: seq<real>, side: real, area: real)
    requires |xs| > 0 && |ys| == |xs| && |ws| == |xs|
    requires n >= 3
    requires Extent(xs, ys) > 0.0 && Sum(ws) > 0.0
    requires bound == AutoBound(xs, ys, n)
    requires edges == AutoEdges(bound, n)
    requires side == PixelWidth(bound, n) && area == Sq(side)
    ensures Total(SplatImage(xs, ys, ws, edges, edges, n)) > 0.0
  {
    AutoEdgesFit(xs, ys, n, bound, edges);
    AutoEdgesReady(xs, ys, n, bound, edges, side);
    SplatPositive(xs, ys, ws, edges, edges, n, side, area);
  }

  lemma AutoEdgesFit(xs: seq<real>, ys: seq<real>, n: nat, bound: real, edges: seq<real>)
    requires |xs| > 0 && |ys| > 0
    requires n >= 3
    requires Extent(xs, ys) > 0.0
    requires bound == AutoBound(xs, ys, n)
    requires edges == AutoEdges(bound, n)
    ensures |edges| == n + 1 && SeqMin(edges) == -bound && Side(edges) == PixelWidth(bound, n)
  {
    AutoBoundPositive(Extent(xs, ys), n);
    AutoBoundIs(xs, ys, n, Extent(xs, ys), bound);
    AutoEdgesShape(bound, n);
  }

  /** Every particle is interior against edges that are `side` apart from minus the auto bound. */
  lemma AutoEdgesReady(xs: seq<real>, ys: seq<real>, n: nat, bound: real, edges: seq<real>, side: real)
    requires |xs| > 0 && |ys| == |xs|
    requires n >= 3
    requires Extent(xs, ys) > 0.0
    requires bound == AutoBound(xs, ys, n)
    requires |edges| == n + 1 && SeqMin(edges) == -bound
    requires side == PixelWidth(bound, n) && Side(edges) == side
    ensures side > 0.0
    ensures AllInterior(xs, SeqMin(edges), side, n)
    ensures AllInterior(ys, SeqMin(edges), side, n)
  {
    AutoBoundPositive(Extent(xs, ys), n);
    AutoBoundIs(xs, ys, n, Extent(xs, ys), bound);
    PixelWidthPositive(bound, n);
    AutoEdgesInterior(xs, ys, n, Extent(xs, ys), bound, SeqMin(edges), side);
  }

  /** Every particle is interior against edges that start at minus the auto bound. */
  lemma AutoEdgesInterior(xs: seq<real>, ys: seq<real>, n: nat, extent: real, bound: real, lo: real, side: real)
    requires |xs| > 0 && |ys| == |xs|
    requires n >= 3
    requires extent == Extent(xs, ys) && extent > 0.0
    requires bound == Mul(extent, Widening(n))
    requires lo == -bound
    requires side == PixelWidth(bound, n)
    ensures AllInterior(xs, lo, side, n)
    ensures AllInterior(ys, lo, side, n)
  {
    AxisAutoInterior(xs, extent, n, bound, lo, side);
    AxisAutoInterior(ys, extent, n, bound, lo, side);
  }
}
