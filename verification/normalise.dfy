/**
 The post-processing at the end of `smooth_histogram2d_base`: divide the
 blurred image by its maximum, clip it at `histmax`, divide again, raise it
 to `lum_power` and divide a last time. A division by a zero maximum is a
 float NaN in the simulator and is excluded here by preconditions.
 */
module Normalisation {
  import opened RealMath
  import opened SeqOps
  import opened Grid

  /** `jnp.max(H)` of an n-by-n image: an upper bound on every pixel that some pixel reaches. */
  function GridMax(g: Image, n: nat): (mx: real)
    requires IsSquare(g, n) && n > 0
    ensures forall r, c :: 0 <= r < n && 0 <= c < n ==> g[r][c] <= mx
    ensures exists r, c :: 0 <= r < n && 0 <= c < n && g[r][c] == mx
  {
    var rows := seq(n, r requires 0 <= r < n => SeqMax(g[r]));
    assert forall r :: 0 <= r < n ==> rows[r] == SeqMax(g[r]);
    var top := SeqMax(rows);
    assert exists r, c :: 0 <= r < n && 0 <= c < n && g[r][c] == top by {
      var r :| 0 <= r < n && rows[r] == top;
      var c :| 0 <= c < n && g[r][c] == SeqMax(g[r]);
      assert g[r][c] == top;
    }
    top
  }

  /** An upper bound that some pixel reaches is the maximum. */
  lemma GridMaxIs(g: Image, n: nat, v: real, r: int, c: int)
    requires IsSquare(g, n) && n > 0
    requires forall i, j :: 0 <= i < n && 0 <= j < n ==> g[i][j] <= v
    requires 0 <= r < n && 0 <= c < n && g[r][c] == v
    ensures GridMax(g, n) == v
  {
    var mx := GridMax(g, n);
    var i, j :| 0 <= i < n && 0 <= j < n && g[i][j] == mx;
    assert mx <= v && v <= mx;
  }

  /** A pixel at least one puts the maximum at least at one. */
  lemma GridMaxAtLeast(g: Image, n: nat, v: real, r: int, c: int)
    requires IsSquare(g, n) && n > 0
    requires 0 <= r < n && 0 <= c < n && g[r][c] >= v
    ensures GridMax(g, n) >= v
  {
  }

  /** An image whose pixels add up to something positive has a positive maximum. */
  lemma PositiveTotalMax(g: Image, n: nat)
    requires IsSquare(g, n) && n > 0 && Total(g) > 0.0
    ensures GridMax(g, n) > 0.0
  {
    if GridMax(g, n) <= 0.0 {
      NonPositiveTotal(g, n);
    }
  }

  /** Pixels no greater than zero add up to at most zero. */
  lemma NonPositiveTotal(g: Image, n: nat)
    requires IsSquare(g, n)
    requires forall r, c :: 0 <= r < n && 0 <= c < n ==> g[r][c] <= 0.0
    ensures Total(g) <= 0.0
  {
    var zeros := seq(n, _ => 0.0);
    SumZeros(n);
    var sums := seq(n, r requires 0 <= r < n => Sum(g[r]));
    forall r | 0 <= r < n
      ensures sums[r] <= 0.0
    {
      SumMonotone(g[r], zeros);
    }
    SumMonotone(sums, zeros);
  }

  /** The image with `f` applied to every pixel. */
  function MapCells(g: Image, n: nat, f: real -> real): (h: Image)
    requires IsSquare(g, n)
    ensures IsSquare(h, n)
    ensures forall r, c :: 0 <= r < n && 0 <= c < n ==> h[r][c] == f(g[r][c])
  {
    seq(n, r requires 0 <= r < n => seq(n, c requires 0 <= c < n => f(g[r][c])))
  }

  /** Every pixel multiplied by `k`. */
  function Scaled(g: Image, n: nat, k: real): (h: Image)
    requires IsSquare(g, n)
    ensures IsSquare(h, n)
  {
    MapCells(g, n, x => Mul(x, k))
  }

  /**
   `H /= jnp.max(H)`. Multiplying back by the old maximum recovers the
   image; the pixel that held the maximum becomes exactly 1, so the new
   maximum is at least 1, and it is exactly 1 when the old maximum was
   positive.
   */
  function DivideByMax(g: Image, n: nat): (h: Image)
    requires IsSquare(g, n) && n > 0
    requires GridMax(g, n) != 0.0
    ensures IsSquare(h, n)
    ensures ScaledBy(h, g, n, GridMax(g, n))
    ensures exists r, c :: 0 <= r < n && 0 <= c < n && h[r][c] == 1.0
    ensures GridMax(h, n) >= 1.0
    ensures GridMax(g, n) > 0.0 ==> GridMax(h, n) == 1.0
  {
    DivideFacts(g, n);
    Quotients(g, n, GridMax(g, n))
  }

  /** Multiplying every pixel of `h` by `d` gives `g`. */
  ghost predicate ScaledBy(h: Image, g: Image, n: nat, d: real)
    requires IsSquare(h, n) && IsSquare(g, n)
  {
    forall r, c :: 0 <= r < n && 0 <= c < n ==> Mul(h[r][c], d) == g[r][c]
  }

  /** Every pixel divided by `d`. */
  function Quotients(g: Image, n: nat, d: real): (h: Image)
    requires IsSquare(g, n) && d != 0.0
    ensures IsSquare(h, n)
    ensures ScaledBy(h, g, n, d)
  {
    var h := MapCells(g, n, x => x / d);
    assert ScaledBy(h, g, n, d) by {
      forall r, c | 0 <= r < n && 0 <= c < n
        ensures Mul(h[r][c], d) == g[r][c]
      {
        QuotientTimes(g[r][c], d);
      }
    }
    h
  }

  lemma QuotientTimes(x: real, d: real)
    requires d != 0.0
    ensures Mul(x / d, d) == x
  {
  }

  lemma DivideFacts(g: Image, n: nat)
    requires IsSquare(g, n) && n > 0
    requires GridMax(g, n) != 0.0
    ensures exists r, c :: 0 <= r < n && 0 <= c < n && Quotients(g, n, GridMax(g, n))[r][c] == 1.0
    ensures GridMax(Quotients(g, n, GridMax(g, n)), n) >= 1.0
    ensures GridMax(g, n) > 0.0 ==> GridMax(Quotients(g, n, GridMax(g, n)), n) == 1.0
  {
    var mx := GridMax(g, n);
    var h := Quotients(g, n, mx);
    var r, c :| 0 <= r < n && 0 <= c < n && g[r][c] == mx;
    MulCancel(h[r][c], 1.0, mx);
    if mx > 0.0 {
      forall i, j | 0 <= i < n && 0 <= j < n
        ensures h[i][j] <= 1.0
      {
        UnitQuotient(h[i][j], g[i][j], mx);
      }
      GridMaxIs(h, n, 1.0, r, c);
    }
  }

  /** A factor that scales `d > 0` to at most `d` is at most 1. */
  lemma UnitQuotient(q: real, x: real, d: real)
    requires d > 0.0 && Mul(q, d) == x && x <= d
    ensures q <= 1.0
  {
    assert Mul(q - 1.0, d) == x - d;
  }

  /** A factor that scales `d > 0` to something non-negative is non-negative. */
  lemma SignedQuotient(q: real, x: real, d: real)
    requires d > 0.0 && Mul(q, d) == x && x >= 0.0
    ensures q >= 0.0
  {
    assert Mul(-q, d) == -x;
  }

  /** A non-zero factor cancels. */
  lemma MulCancel(q: real, v: real, d: real)
    requires d != 0.0 && Mul(q, d) == Mul(v, d)
    ensures q == v
  {
    assert Mul(q - v, d) == 0.0;
    MulSign(q - v, d);
    MulSign(v - q, d);
  }

  /** `jnp.minimum(H, histmax)`, pixel by pixel. */
  function Clip(g: Image, n: nat, cap: real): (h: Image)
    requires IsSquare(g, n)
    ensures IsSquare(h, n)
    ensures forall r, c :: 0 <= r < n && 0 <= c < n ==> h[r][c] == Min(g[r][c], cap)
  {
    MapCells(g, n, x => Min(x, cap))
  }

  /** Clipping commutes with the maximum. */
  lemma ClipMax(g: Image, n: nat, cap: real)
    requires IsSquare(g, n) && n > 0
    ensures GridMax(Clip(g, n, cap), n) == Min(GridMax(g, n), cap)
  {
    var mx := GridMax(g, n);
    var h := Clip(g, n, cap);
    var r, c :| 0 <= r < n && 0 <= c < n && g[r][c] == mx;
    GridMaxIs(h, n, Min(mx, cap), r, c);
  }

  /** The second stage: clip at `histmax` and divide by the new maximum. */
  function ClipStage(g: Image, n: nat, histmax: real): (h: Image)
    requires IsSquare(g, n) && n > 0
    requires GridMax(g, n) >= 1.0 && histmax != 0.0
    ensures IsSquare(h, n) && GridMax(h, n) >= 1.0
  {
    ClipMax(g, n, histmax);
    DivideByMax(Clip(g, n, histmax), n)
  }

  /**
   On an image whose maximum is 1 and a cap in (0, 1], the clip stage
   leaves a maximum of exactly 1, and a pixel ends up at 1 exactly when it
   was at least the cap; every other pixel is scaled up by `1 / histmax`.
   */
  lemma ClipSaturates(g: Image, n: nat, histmax: real)
    requires IsSquare(g, n) && n > 0
    requires GridMax(g, n) == 1.0 && 0.0 < histmax <= 1.0
    ensures GridMax(ClipStage(g, n, histmax), n) == 1.0
    ensures forall r, c :: 0 <= r < n && 0 <= c < n ==>
              (ClipStage(g, n, histmax)[r][c] == 1.0 <==> g[r][c] >= histmax)
    ensures forall r, c :: 0 <= r < n && 0 <= c < n && g[r][c] < histmax ==>
              Mul(ClipStage(g, n, histmax)[r][c], histmax) == g[r][c]
  {
    ClipMax(g, n, histmax);
    var h := ClipStage(g, n, histmax);
    forall r, c | 0 <= r < n && 0 <= c < n
      ensures h[r][c] == 1.0 <==> g[r][c] >= histmax
      ensures g[r][c] < histmax ==> Mul(h[r][c], histmax) == g[r][c]
    {
      SaturatedPixel(h[r][c], g[r][c], histmax);
    }
  }

  /** One pixel of the clip stage: 1 exactly when the input reached the cap. */
  lemma SaturatedPixel(q: real, x: real, cap: real)
    requires cap > 0.0 && Mul(q, cap) == Min(x, cap)
    ensures q == 1.0 <==> x >= cap
    ensures x < cap ==> Mul(q, cap) == x
  {
    if x >= cap {
      MulCancel(q, 1.0, cap);
    }
  }

  /** A cap of at least 1 leaves an image whose maximum is 1 untouched. */
  lemma ClipNoOp(g: Image, n: nat, histmax: real)
    requires IsSquare(g, n) && n > 0
    requires GridMax(g, n) == 1.0 && histmax >= 1.0
    ensures ClipStage(g, n, histmax) == g
  {
    ClipMax(g, n, histmax);
    var h := ClipStage(g, n, histmax);
    forall r, c | 0 <= r < n && 0 <= c < n
      ensures h[r][c] == g[r][c]
    {
      assert Min(g[r][c], histmax) == g[r][c];
      MulCancel(h[r][c], g[r][c], 1.0);
    }
    SameImage(h, g, n);
  }

  /** `jnp.where(lum_power == 1, H, jnp.abs(H))`. */
  function Magnitudes(g: Image, n: nat, p: real): (h: Image)
    requires IsSquare(g, n)
    ensures IsSquare(h, n)
  {
    if p == 1.0 then g else MapCells(g, n, Abs)
  }

  /** `H ** lum_power` on the magnitudes. */
  function Powered(m: Math, g: Image, n: nat, p: real): (h: Image)
    requires IsSquare(g, n)
    ensures IsSquare(h, n)
    ensures forall r, c :: 0 <= r < n && 0 <= c < n ==> h[r][c] == m.pow(Magnitudes(g, n, p)[r][c], p)
  {
    MapCells(Magnitudes(g, n, p), n, x => m.pow(x, p))
  }

  /** A positive pixel stays positive under the power, so the powered maximum is positive. */
  lemma PoweredPositive(m: Math, g: Image, n: nat, p: real)
    requires Laws(m)
    requires IsSquare(g, n) && n > 0
    requires GridMax(g, n) > 0.0
    ensures GridMax(Powered(m, g, n, p), n) > 0.0
  {
    var mx := GridMax(g, n);
    var r, c :| 0 <= r < n && 0 <= c < n && g[r][c] == mx;
    var h := Powered(m, g, n, p);
    if p != 1.0 {
      assert Magnitudes(g, n, p)[r][c] == mx;
    }
    assert h[r][c] == m.pow(Magnitudes(g, n, p)[r][c], p);
    GridMaxAtLeast(h, n, h[r][c], r, c);
  }

  /** The last stage: magnitudes, power, and a final division by the maximum. */
  function PowerStage(m: Math, g: Image, n: nat, p: real): (h: Image)
    requires Laws(m)
    requires IsSquare(g, n) && n > 0
    requires GridMax(g, n) > 0.0
    ensures IsSquare(h, n) && GridMax(h, n) == 1.0
  {
    PoweredPositive(m, g, n, p);
    DivideByMax(Powered(m, g, n, p), n)
  }

  /** With `lum_power` 1 the last stage leaves an image whose maximum is 1 untouched. */
  lemma PowerIdentity(m: Math, g: Image, n: nat)
    requires Laws(m)
    requires IsSquare(g, n) && n > 0
    requires GridMax(g, n) == 1.0
    ensures PowerStage(m, g, n, 1.0) == g
  {
    UnitPower(m, g, n);
    var h := PowerStage(m, g, n, 1.0);
    forall r, c | 0 <= r < n && 0 <= c < n
      ensures h[r][c] == g[r][c]
    {
      MulCancel(h[r][c], g[r][c], 1.0);
    }
    SameImage(h, g, n);
  }

  /** The power 1 leaves every pixel as it is. */
  lemma UnitPower(m: Math, g: Image, n: nat)
    requires PowLaw(m.pow)
    requires IsSquare(g, n)
    ensures Powered(m, g, n, 1.0) == g
  {
    var q := Powered(m, g, n, 1.0);
    forall r, c | 0 <= r < n && 0 <= c < n
      ensures q[r][c] == g[r][c]
    {
    }
    SameImage(q, g, n);
  }

  /** Two n-by-n images that agree pixel by pixel are the same image. */
  lemma SameImage(h: Image, g: Image, n: nat)
    requires IsSquare(h, n) && IsSquare(g, n)
    requires forall r, c :: 0 <= r < n && 0 <= c < n ==> h[r][c] == g[r][c]
    ensures h == g
  {
    forall r | 0 <= r < n
      ensures h[r] == g[r]
    {
      assert forall c :: 0 <= c < n ==> h[r][c] == g[r][c];
    }
  }

  /**
   The whole post-processing. It needs only the two divisions the simulator
   cannot survive excluded: a zero maximum and a zero `histmax`; every later
   maximum is then at least 1, and the result's maximum is exactly 1.
   */
  function Normalise(m: Math, g: Image, n: nat, histmax: real, p: real): (h: Image)
    requires Laws(m)
    requires IsSquare(g, n) && n > 0
    requires GridMax(g, n) != 0.0 && histmax != 0.0
    ensures IsSquare(h, n) && GridMax(h, n) == 1.0
  {
    PowerStage(m, ClipStage(DivideByMax(g, n), n, histmax), n, p)
  }

  /** Pixels no smaller than zero. */
  ghost predicate NonNegative(g: Image, n: nat)
    requires IsSquare(g, n)
  {
    forall r, c :: 0 <= r < n && 0 <= c < n ==> g[r][c] >= 0.0
  }

  /** Dividing a non-negative image by its positive maximum keeps it non-negative. */
  lemma DivideRange(g: Image, n: nat)
    requires IsSquare(g, n) && n > 0
    requires NonNegative(g, n) && GridMax(g, n) > 0.0
    ensures NonNegative(DivideByMax(g, n), n)
  {
    var mx := GridMax(g, n);
    var h := DivideByMax(g, n);
    forall r, c | 0 <= r < n && 0 <= c < n
      ensures h[r][c] >= 0.0
    {
      SignedQuotient(h[r][c], g[r][c], mx);
    }
  }

  /** Clipping a non-negative image at a positive cap keeps it non-negative. */
  lemma ClipStageRange(g: Image, n: nat, histmax: real)
    requires IsSquare(g, n) && n > 0
    requires NonNegative(g, n) && GridMax(g, n) >= 1.0 && histmax > 0.0
    ensures NonNegative(ClipStage(g, n, histmax), n)
  {
    var cl := Clip(g, n, histmax);
    ClipMax(g, n, histmax);
    assert NonNegative(cl, n);
    DivideRange(cl, n);
  }

  /** Powers of non-negative pixels are non-negative. */
  lemma PowerStageRange(m: Math, g: Image, n: nat, p: real)
    requires Laws(m)
    requires IsSquare(g, n) && n > 0
    requires NonNegative(g, n) && GridMax(g, n) > 0.0
    ensures NonNegative(PowerStage(m, g, n, p), n)
  {
    PoweredNonNegative(m, g, n, p);
    PoweredPositive(m, g, n, p);
    DivideRange(Powered(m, g, n, p), n);
  }

  lemma PoweredNonNegative(m: Math, g: Image, n: nat, p: real)
    requires PowLaw(m.pow)
    requires IsSquare(g, n) && NonNegative(g, n)
    ensures NonNegative(Powered(m, g, n, p), n)
  {
    assert NonNegative(Magnitudes(g, n, p), n);
  }

  /**
   A non-negative image with a positive maximum, clipped at a positive
   `histmax`, comes out with every pixel in [0, 1], whatever the power.
   */
  lemma NormaliseRange(m: Math, g: Image, n: nat, histmax: real, p: real)
    requires Laws(m)
    requires IsSquare(g, n) && n > 0
    requires NonNegative(g, n) && GridMax(g, n) > 0.0 && histmax > 0.0
    ensures NonNegative(Normalise(m, g, n, histmax, p), n)
    ensures forall r, c :: 0 <= r < n && 0 <= c < n ==> Normalise(m, g, n, histmax, p)[r][c] <= 1.0
  {
    var a := DivideByMax(g, n);
    DivideRange(g, n);
    ClipStageRange(a, n, histmax);
    PowerStageRange(m, ClipStage(a, n, histmax), n, p);
  }

  /** Dividing by a positive maximum keeps two pixels in order. */
  lemma DivideMonotone(g: Image, n: nat, r1: int, c1: int, r2: int, c2: int)
    requires IsSquare(g, n) && n > 0 && GridMax(g, n) > 0.0
    requires InImage(r1, c1, n) && InImage(r2, c2, n) && g[r1][c1] <= g[r2][c2]
    ensures DivideByMax(g, n)[r1][c1] <= DivideByMax(g, n)[r2][c2]
  {
    var h := DivideByMax(g, n);
    QuotientOrder(h[r1][c1], h[r2][c2], g[r1][c1], g[r2][c2], GridMax(g, n));
  }

  lemma QuotientOrder(q1: real, q2: real, x1: real, x2: real, d: real)
    requires d > 0.0 && Mul(q1, d) == x1 && Mul(q2, d) == x2 && x1 <= x2
    ensures q1 <= q2
  {
    assert Mul(q1 - q2, d) == x1 - x2;
  }

  /** The clip stage keeps two pixels in order. */
  lemma ClipMonotone(g: Image, n: nat, histmax: real, r1: int, c1: int, r2: int, c2: int)
    requires IsSquare(g, n) && n > 0 && GridMax(g, n) >= 1.0 && histmax > 0.0
    requires InImage(r1, c1, n) && InImage(r2, c2, n) && g[r1][c1] <= g[r2][c2]
    ensures ClipStage(g, n, histmax)[r1][c1] <= ClipStage(g, n, histmax)[r2][c2]
  {
    var cl := Clip(g, n, histmax);
    ClipMax(g, n, histmax);
    assert cl[r1][c1] <= cl[r2][c2];
    DivideMonotone(cl, n, r1, c1, r2, c2);
  }

  /** A non-negative power of non-negative pixels keeps them in order. */
  lemma PowerMonotone(m: Math, g: Image, n: nat, p: real, r1: int, c1: int, r2: int, c2: int)
    requires Laws(m)
    requires IsSquare(g, n) && n > 0 && NonNegative(g, n) && GridMax(g, n) > 0.0 && p >= 0.0
    requires InImage(r1, c1, n) && InImage(r2, c2, n) && g[r1][c1] <= g[r2][c2]
    ensures PowerStage(m, g, n, p)[r1][c1] <= PowerStage(m, g, n, p)[r2][c2]
  {
    var q := Powered(m, g, n, p);
    PoweredOrder(m, g, n, p, r1, c1, r2, c2);
    PoweredPositive(m, g, n, p);
    DivideMonotone(q, n, r1, c1, r2, c2);
  }

  lemma PoweredOrder(m: Math, g: Image, n: nat, p: real, r1: int, c1: int, r2: int, c2: int)
    requires PowLaw(m.pow)
    requires IsSquare(g, n) && NonNegative(g, n) && p >= 0.0
    requires InImage(r1, c1, n) && InImage(r2, c2, n) && g[r1][c1] <= g[r2][c2]
    ensures Powered(m, g, n, p)[r1][c1] <= Powered(m, g, n, p)[r2][c2]
  {
    var a := Magnitudes(g, n, p);
    assert a[r1][c1] == g[r1][c1] && a[r2][c2] == g[r2][c2];
  }

  /**
   For a non-negative image, a positive `histmax` and a non-negative
   `lum_power`, the post-processing never reverses the brightness order of
   two pixels.
   */
  lemma NormaliseMonotone(m: Math, g: Image, n: nat, histmax: real, p: real,
                          r1: int, c1: int, r2: int, c2: int)
    requires Laws(m)
    requires IsSquare(g, n) && n > 0
    requires NonNegative(g, n) && GridMax(g, n) > 0.0 && histmax > 0.0 && p >= 0.0
    requires InImage(r1, c1, n) && InImage(r2, c2, n) && g[r1][c1] <= g[r2][c2]
    ensures Normalise(m, g, n, histmax, p)[r1][c1] <= Normalise(m, g, n, histmax, p)[r2][c2]
  {
    var a := DivideByMax(g, n);
    DivideMonotone(g, n, r1, c1, r2, c2);
    DivideRange(g, n);
    var b := ClipStage(a, n, histmax);
    ClipMonotone(a, n, histmax, r1, c1, r2, c2);
    ClipStageRange(a, n, histmax);
    PowerMonotone(m, b, n, p, r1, c1, r2, c2);
  }

  /** Multiplying every pixel by a positive factor multiplies the maximum by it. */
  lemma ScaledMax(g: Image, n: nat, k: real)
    requires IsSquare(g, n) && n > 0 && k > 0.0
    ensures GridMax(Scaled(g, n, k), n) == Mul(GridMax(g, n), k)
    ensures GridMax(Scaled(g, n, k), n) == 0.0 <==> GridMax(g, n) == 0.0
  {
    var mx := GridMax(g, n);
    var h := Scaled(g, n, k);
    var r, c :| 0 <= r < n && 0 <= c < n && g[r][c] == mx;
    forall i, j | 0 <= i < n && 0 <= j < n
      ensures h[i][j] <= Mul(mx, k)
    {
      MulMonotone(g[i][j], mx, k);
    }
    GridMaxIs(h, n, Mul(mx, k), r, c);
    if Mul(mx, k) == 0.0 {
      MulCancel(mx, 0.0, k);
    }
  }

  /** Dividing by the maximum forgets a positive scale factor. */
  lemma DivideScaleFree(g: Image, n: nat, k: real)
    requires IsSquare(g, n) && n > 0 && k > 0.0
    requires GridMax(g, n) != 0.0
    ensures GridMax(Scaled(g, n, k), n) != 0.0
    ensures DivideByMax(Scaled(g, n, k), n) == DivideByMax(g, n)
  {
    ScaledMax(g, n, k);
    var mx := GridMax(g, n);
    var h := DivideByMax(Scaled(g, n, k), n);
    var d := DivideByMax(g, n);
    forall r, c | 0 <= r < n && 0 <= c < n
      ensures h[r][c] == d[r][c]
    {
      SameQuotient(h[r][c], d[r][c], g[r][c], k, mx);
    }
    SameImage(h, d, n);
  }

  lemma SameQuotient(x: real, y: real, v: real, k: real, mx: real)
    requires k > 0.0 && mx != 0.0
    requires Mul(x, Mul(mx, k)) == Mul(v, k) && Mul(y, mx) == v
    ensures x == y
  {
    assert Mul(x, Mul(mx, k)) == Mul(Mul(x, mx), k);
    MulCancel(Mul(x, mx), v, k);
    MulCancel(x, y, mx);
  }

  /**
   The normalised image depends only on the relative brightness of the
   pixels: scaling the input by any positive factor changes nothing.
   */
  lemma NormaliseScaleFree(m: Math, g: Image, n: nat, k: real, histmax: real, p: real)
    requires Laws(m)
    requires IsSquare(g, n) && n > 0 && k > 0.0
    requires GridMax(g, n) != 0.0 && histmax != 0.0
    ensures GridMax(Scaled(g, n, k), n) != 0.0
    ensures Normalise(m, Scaled(g, n, k), n, histmax, p) == Normalise(m, g, n, histmax, p)
  {
    DivideScaleFree(g, n, k);
  }

  /**
   With `histmax` at least 1 and `lum_power` 1, the post-processing is a
   single division of a positive-maximum image by its maximum.
   */
  lemma NormalisePlain(m: Math, g: Image, n: nat, histmax: real)
    requires Laws(m)
    requires IsSquare(g, n) && n > 0
    requires GridMax(g, n) > 0.0 && histmax >= 1.0
    ensures Normalise(m, g, n, histmax, 1.0) == DivideByMax(g, n)
  {
    var a := DivideByMax(g, n);
    ClipNoOp(a, n, histmax);
    PowerIdentity(m, a, n);
  }
}
