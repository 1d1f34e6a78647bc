/**
 Square images as row-major sequences of rows, and the scatter-add that
 builds one: `H.at[rows, cols].add(amounts)` adds every amount at its
 target, repeated targets included.
 */
module Grid {
  import opened SeqOps

  type Image = seq<seq<real>>

  /** `g` is an n-by-n image. */
  ghost predicate IsSquare(g: Image, n: nat) {
    |g| == n && Rectangular(g, n)
  }

  predicate InImage(row: int, col: int, n: nat) {
    0 <= row < n && 0 <= col < n
  }

  /** `jnp.zeros((n, n))`. */
  function Zeros(n: nat): (g: Image)
    ensures IsSquare(g, n)
    ensures forall r, c :: 0 <= r < n && 0 <= c < n ==> g[r][c] == 0.0
  {
    seq(n, _ => seq(n, _ => 0.0))
  }

  /** The sum of every pixel, row by row. */
  function Total(g: Image): real {
    Sum(seq(|g|, r requires 0 <= r < |g| => Sum(g[r])))
  }

  /** Adding `v` at one pixel. */
  function AddAt(g: Image, row: int, col: int, v: real): (h: Image)
    requires 0 <= row < |g| && 0 <= col < |g[row]|
    ensures |h| == |g|
    ensures forall r :: 0 <= r < |g| ==> |h[r]| == |g[r]|
    ensures h[row][col] == g[row][col] + v
    ensures forall r, c :: 0 <= r < |g| && 0 <= c < |g[r]| && (r != row || c != col) ==> h[r][c] == g[r][c]
  {
    g[row := g[row][col := g[row][col] + v]]
  }

  /** ...adds `v` to the total. */
  lemma AddAtTotal(g: Image, row: int, col: int, v: real)
    requires 0 <= row < |g| && 0 <= col < |g[row]|
    ensures Total(AddAt(g, row, col, v)) == Total(g) + v
  {
    var sums := seq(|g|, r requires 0 <= r < |g| => Sum(g[r]));
    var h := AddAt(g, row, col, v);
    SumAddAt(g[row], col, v);
    assert seq(|h|, r requires 0 <= r < |h| => Sum(h[r])) == sums[row := sums[row] + v];
    SumAddAt(sums, row, v);
  }

  /** One scatter update: an amount for a target pixel. */
  datatype Deposit = Deposit(row: int, col: int, amount: real)

  /**
   One update. A target outside the image adds nothing: the source only
   sends such targets with amount 0, which adds nothing wherever it lands.
   */
  function Apply(g: Image, n: nat, d: Deposit): (h: Image)
    requires IsSquare(g, n)
    ensures IsSquare(h, n)
  {
    if InImage(d.row, d.col, n) then AddAt(g, d.row, d.col, d.amount) else g
  }

  /** The updates in order. */
  function Scatter(g: Image, n: nat, ds: seq<Deposit>): (h: Image)
    requires IsSquare(g, n)
    ensures IsSquare(h, n)
    decreases |ds|
  {
    if |ds| == 0 then g else Scatter(Apply(g, n, ds[0]), n, ds[1..])
  }

  /** What a deposit actually contributes: its amount if it lands in the image. */
  function Landed(d: Deposit, n: nat): real {
    if InImage(d.row, d.col, n) then d.amount else 0.0
  }

  function LandedAmounts(ds: seq<Deposit>, n: nat): (a: seq<real>)
    ensures |a| == |ds|
    ensures forall i :: 0 <= i < |ds| ==> a[i] == Landed(ds[i], n)
  {
    seq(|ds|, i requires 0 <= i < |ds| => Landed(ds[i], n))
  }

  /** The scatter adds exactly what lands to the image's total... */
  lemma {:induction false} ScatterTotal(g: Image, n: nat, ds: seq<Deposit>)
    requires IsSquare(g, n)
    ensures Total(Scatter(g, n, ds)) == Total(g) + Sum(LandedAmounts(ds, n))
    decreases |ds|
  {
    if |ds| > 0 {
      var d := ds[0];
      if InImage(d.row, d.col, n) {
        AddAtTotal(g, d.row, d.col, d.amount);
      }
      ScatterTotal(Apply(g, n, d), n, ds[1..]);
      assert LandedAmounts(ds, n)[1..] == LandedAmounts(ds[1..], n);
    }
  }

  /** The amounts of the deposits aimed at one pixel. */
  function CellAmounts(ds: seq<Deposit>, row: int, col: int): (a: seq<real>)
    ensures |a| == |ds|
  {
    seq(|ds|, i requires 0 <= i < |ds| => if ds[i].row == row && ds[i].col == col then ds[i].amount else 0.0)
  }

  /** ...and each pixel ends up with its start value plus every amount aimed at it. */
  lemma {:induction false} ScatterCell(g: Image, n: nat, ds: seq<Deposit>, row: int, col: int)
    requires IsSquare(g, n)
    requires InImage(row, col, n)
    ensures Scatter(g, n, ds)[row][col] == g[row][col] + Sum(CellAmounts(ds, row, col))
    decreases |ds|
  {
    if |ds| > 0 {
      ScatterCell(Apply(g, n, ds[0]), n, ds[1..], row, col);
      assert CellAmounts(ds, row, col)[1..] == CellAmounts(ds[1..], row, col);
    }
  }

  /** Updates applied in two batches are the updates applied in one. */
  lemma {:induction false} ScatterAppend(g: Image, n: nat, ds: seq<Deposit>, es: seq<Deposit>)
    requires IsSquare(g, n)
    ensures Scatter(g, n, ds + es) == Scatter(Scatter(g, n, ds), n, es)
    decreases |ds|
  {
    if |ds| > 0 {
      assert (ds + es)[0] == ds[0];
      assert (ds + es)[1..] == ds[1..] + es;
      ScatterAppend(Apply(g, n, ds[0]), n, ds[1..], es);
    } else {
      assert ds + es == es;
    }
  }

  /** `H.T`: pixel (r, c) of the result is pixel (c, r) of `g`. */
  function Transpose(g: Image, n: nat): (h: Image)
    requires IsSquare(g, n)
    ensures IsSquare(h, n)
    ensures forall r, c :: 0 <= r < n && 0 <= c < n ==> h[r][c] == g[c][r]
  {
    seq(n, r requires 0 <= r < n => seq(n, c requires 0 <= c < n => g[c][r]))
  }

  /** The same update aimed at the mirrored pixel. */
  function Swap(d: Deposit): (e: Deposit)
    ensures e.row == d.col && e.col == d.row && e.amount == d.amount
  {
    Deposit(d.col, d.row, d.amount)
  }

  function Swapped(ds: seq<Deposit>): (es: seq<Deposit>)
    ensures |es| == |ds|
    ensures forall i :: 0 <= i < |ds| ==> es[i] == Swap(ds[i])
  {
    seq(|ds|, i requires 0 <= i < |ds| => Swap(ds[i]))
  }

  /** Scattering and then transposing is scattering at the mirrored pixels. */
  lemma ScatterTransposed(n: nat, ds: seq<Deposit>)
    ensures Transpose(Scatter(Zeros(n), n, ds), n) == Scatter(Zeros(n), n, Swapped(ds))
  {
    var h := Transpose(Scatter(Zeros(n), n, ds), n);
    var k := Scatter(Zeros(n), n, Swapped(ds));
    forall r, c | 0 <= r < n && 0 <= c < n
      ensures h[r][c] == k[r][c]
    {
      ScatterCell(Zeros(n), n, ds, c, r);
      ScatterCell(Zeros(n), n, Swapped(ds), r, c);
      assert CellAmounts(ds, c, r) == CellAmounts(Swapped(ds), r, c);
    }
    forall r | 0 <= r < n
      ensures h[r] == k[r]
    {
    }
  }

  /** An empty image has total zero. */
  lemma ZerosTotal(n: nat)
    ensures Total(Zeros(n)) == 0.0
  {
    var g := Zeros(n);
    SumZeros(n);
    assert seq(|g|, r requires 0 <= r < |g| => Sum(g[r])) == seq(n, _ => 0.0) by {
      forall r | 0 <= r < n
        ensures Sum(g[r]) == 0.0
      {
        assert g[r] == seq(n, _ => 0.0);
      }
    }
  }

  /** Whether a deposit lands does not depend on which index is the row. */
  lemma LandedSwapped(ds: seq<Deposit>, n: nat)
    ensures LandedAmounts(Swapped(ds), n) == LandedAmounts(ds, n)
  {
  }

  lemma LandedAppend(ds: seq<Deposit>, es: seq<Deposit>, n: nat)
    ensures LandedAmounts(ds + es, n) == LandedAmounts(ds, n) + LandedAmounts(es, n)
  {
  }

  /**
   The transposed scatter into an empty image holds, in total, exactly the
   amounts that land in the image.
   */
  lemma TransposedTotal(n: nat, ds: seq<Deposit>)
    ensures Total(Transpose(Scatter(Zeros(n), n, ds), n)) == Sum(LandedAmounts(ds, n))
  {
    ScatterTransposed(n, ds);
    ScatterTotal(Zeros(n), n, Swapped(ds));
    ZerosTotal(n);
    LandedSwapped(ds, n);
  }
}
