/**
 The three histogram entry points of geometry.py: `smooth_histogram2d_base`
 (splat, blur, normalise against given pixel edges), `smooth_histogram2d`
 (edges chosen from the particles' extent) and `smooth_histogram2d_w_bins`
 (edges supplied by the caller). The Gaussian blur is a parameter: any map
 that keeps an image's size.
 */
module Histogram {
  import opened RealMath
  import opened SeqOps
  import opened Grid
  import opened Splat
  import opened Normalisation
  import opened Params

  /** The module-level `n = 256`: the side of every rendered image. */
  const N_PIXELS: nat := 256

  /** The blur returns an n-by-n image for an n-by-n image, as `mode='same'` does. */
  ghost predicate KeepsSize(blur: Image -> Image, n: nat) {
    forall g :: IsSquare(g, n) ==> IsSquare(blur(g), n)
  }

  /**
   `smooth_histogram2d_base`: the splat image, blurred, then divided, clipped
   at `histmax`, divided, raised to `lum_power` and divided again. Whatever
   the particles, the result's brightest pixel is exactly 1.
   */
  function SmoothHistogramBase(m: Math, sd: StarData, blur: Image -> Image,
                               xs: seq<real>, ys: seq<real>, ws: seq<real>,
                               xedges: seq<real>, yedges: seq<real>, n: nat): (h: Image)
    requires Laws(m) && n > 0 && KeepsSize(blur, n)
    requires SplatInputs(xs, ys, ws, xedges, yedges)
    requires GridMax(blur(SplatImage(xs, ys, ws, xedges, yedges, n)), n) != 0.0
    requires sd.histmax != 0.0
    ensures IsSquare(h, n) && GridMax(h, n) == 1.0
  {
    Normalise(m, blur(SplatImage(xs, ys, ws, xedges, yedges, n)), n, sd.histmax, sd.lumPower)
  }

  /**
   The edges `smooth_histogram2d` picks for both axes: `linspace(-bound,
   bound, n + 1)` with the bound one pixel beyond the largest coordinate.
   There are n + 1 of them, the lowest is `-bound`, and they are a positive
   pixel width apart.
   */
  function AutoGridEdges(xs: seq<real>, ys: seq<real>): (e: seq<real>)
    requires |xs| > 0 && |ys| > 0 && Extent(xs, ys) > 0.0
    ensures |e| == N_PIXELS + 1 && Side(e) > 0.0
  {
    var bound := AutoBound(xs, ys, N_PIXELS);
    AutoBoundPositive(Extent(xs, ys), N_PIXELS);
    PixelWidthPositive(bound, N_PIXELS);
    AutoEdgesFit(xs, ys, N_PIXELS, bound, AutoEdges(bound, N_PIXELS));
    AutoEdges(bound, N_PIXELS)
  }

  /** `smooth_histogram2d`: the base histogram on the automatic edges. */
  function SmoothHistogram(m: Math, sd: StarData, blur: Image -> Image,
                           xs: seq<real>, ys: seq<real>, ws: seq<real>): (h: Image)
    requires Laws(m) && KeepsSize(blur, N_PIXELS)
    requires |xs| > 0 && |ys| == |xs| && |ws| == |xs|
    requires Extent(xs, ys) > 0.0
    requires GridMax(blur(SplatImage(xs, ys, ws, AutoGridEdges(xs, ys), AutoGridEdges(xs, ys), N_PIXELS)),
                     N_PIXELS) != 0.0
    requires sd.histmax != 0.0
    ensures IsSquare(h, N_PIXELS) && GridMax(h, N_PIXELS) == 1.0
  {
    var edges := AutoGridEdges(xs, ys);
    SmoothHistogramBase(m, sd, blur, xs, ys, ws, edges, edges, N_PIXELS)
  }

  /** `smooth_histogram2d_w_bins`: the base histogram on the caller's edges. */
  function SmoothHistogramWithBins(m: Math, sd: StarData, blur: Image -> Image,
                                   xs: seq<real>, ys: seq<real>, ws: seq<real>,
                                   xbins: seq<real>, ybins: seq<real>): (h: Image)
    requires Laws(m) && KeepsSize(blur, N_PIXELS)
    requires SplatInputs(xs, ys, ws, xbins, ybins)
    requires GridMax(blur(SplatImage(xs, ys, ws, xbins, ybins, N_PIXELS)), N_PIXELS) != 0.0
    requires sd.histmax != 0.0
    ensures IsSquare(h, N_PIXELS) && GridMax(h, N_PIXELS) == 1.0
  {
    SmoothHistogramBase(m, sd, blur, xs, ys, ws, xbins, ybins, N_PIXELS)
  }

  /**
   On the automatic edges nothing falls off the image: before the blur the
   pixels add up to the pixel area times the total weight.
   */
  lemma AutoHistogramConserves(xs: seq<real>, ys: seq<real>, ws: seq<real>, area: real)
    requires |xs| > 0 && |ys| == |xs| && |ws| == |xs|
    requires Extent(xs, ys) > 0.0
    requires area == Sq(Side(AutoGridEdges(xs, ys)))
    ensures Total(SplatImage(xs, ys, ws, AutoGridEdges(xs, ys), AutoGridEdges(xs, ys), N_PIXELS))
         == area * Sum(ws)
  {
    var bound := AutoBound(xs, ys, N_PIXELS);
    AutoBoundConserves(xs, ys, ws, N_PIXELS, bound, AutoGridEdges(xs, ys), PixelWidth(bound, N_PIXELS), area);
  }

  /**
   So on the automatic edges a positive total weight always gives the
   unblurred image a positive maximum: only the blur could make the first
   division undefined.
   */
  lemma AutoHistogramPositive(xs: seq<real>, ys: seq<real>, ws: seq<real>)
    requires |xs| > 0 && |ys| == |xs| && |ws| == |xs|
    requires Extent(xs, ys) > 0.0 && Sum(ws) > 0.0
    ensures GridMax(SplatImage(xs, ys, ws, AutoGridEdges(xs, ys), AutoGridEdges(xs, ys), N_PIXELS), N_PIXELS) > 0.0
  {
    var bound := AutoBound(xs, ys, N_PIXELS);
    var side := PixelWidth(bound, N_PIXELS);
    AutoBoundPositiveTotal(xs, ys, ws, N_PIXELS, bound, AutoGridEdges(xs, ys), side, Sq(side));
    PositiveTotalMax(SplatImage(xs, ys, ws, AutoGridEdges(xs, ys), AutoGridEdges(xs, ys), N_PIXELS), N_PIXELS);
  }
}
