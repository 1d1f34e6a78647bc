/**
 The array-shaping operations the simulator borrows from NumPy (`arange`,
 `linspace`, `tile`, `repeat`, `ravel`, `sum`) as functions on sequences,
 with the indexing laws that say where each element ends up.
 */
module SeqOps {

  /** Sum of a sequence of reals, first element first. */
  function Sum(s: seq<real>): real {
    if |s| == 0 then 0.0 else s[0] + Sum(s[1..])
  }

  /** `jnp.arange(n)`. */
  function Range(n: nat): (r: seq<int>)
    ensures |r| == n
    ensures forall i :: 0 <= i < n ==> r[i] == i
  {
    seq(n, i => i)
  }

  /** `jnp.linspace(a, b, n)`: n evenly spaced points from a to b inclusive. */
  function Linspace(a: real, b: real, n: nat): (r: seq<real>)
    ensures |r| == n
  {
    seq(n, i requires 0 <= i < n =>
      if n == 1 then a else a + (b - a) * (i as real) / ((n - 1) as real))
  }

  /** Element `i` of a linspace with at least two points. */
  lemma LinspaceAt(a: real, b: real, k: nat, i: int)
    requires k >= 2 && 0 <= i < k
    ensures Linspace(a, b, k)[i] == a + (b - a) * (i as real) / ((k - 1) as real)
  {
  }

  /** `jnp.tile(s, reps)`: the whole of `s`, `reps` times over. */
  function Tile<T>(s: seq<T>, reps: nat): (r: seq<T>)
    ensures |r| == |s| * reps
  {
    if reps == 0 then [] else s + Tile(s, reps - 1)
  }

  /** `jnp.repeat(s, n)`: each element of `s` written `n` times in a row. */
  function RepeatEach<T>(s: seq<T>, n: nat): (r: seq<T>)
    ensures |r| == |s| * n
  {
    if |s| == 0 then [] else seq(n, _ => s[0]) + RepeatEach(s[1..], n)
  }

  /** `ravel` of a row-major array: the rows one after another. */
  function Flatten<T>(rows: seq<seq<T>>): seq<T> {
    if |rows| == 0 then [] else rows[0] + Flatten(rows[1..])
  }

  ghost predicate Rectangular<T>(rows: seq<seq<T>>, width: nat) {
    forall i :: 0 <= i < |rows| ==> |rows[i]| == width
  }

  /** Euclidean division is the unique quotient/remainder pair. */
  lemma DivModUnique(k: int, n: int, q: int, r: int)
    requires n > 0 && 0 <= r < n && k == q * n + r
    ensures k / n == q && k % n == r
  {
    var q0, r0 := k / n, k % n;
    assert k == q0 * n + r0;
    var d := q0 - q;
    assert d * n == q0 * n - q * n;
    assert d * n == r - r0;
    if d >= 1 {
      MulAtLeast(d, n);
    } else if d <= -1 {
      MulAtLeast(-d, n);
    }
  }

  lemma MulAtLeast(d: int, n: int)
    requires d >= 1 && n > 0
    ensures d * n >= n
  {
    assert d * n == (d - 1) * n + n;
  }

  lemma DivModStep(k: int, n: int)
    requires n > 0 && k >= n
    ensures k / n == (k - n) / n + 1
    ensures k % n == (k - n) % n
  {
    var q, r := (k - n) / n, (k - n) % n;
    assert k - n == q * n + r;
    assert k == (q + 1) * n + r;
    DivModUnique(k, n, q + 1, r);
  }

  lemma DivModSmall(k: int, n: int)
    requires 0 <= k < n
    ensures k / n == 0 && k % n == k
  {
  }

  /** Element `k` of a tiled sequence is element `k mod |s|` of the original. */
  lemma {:induction false} TileIndex<T>(s: seq<T>, reps: nat, k: int)
    requires 0 <= k < |s| * reps
    ensures |s| > 0
    ensures Tile(s, reps)[k] == s[k % |s|]
  {
    assert reps > 0;
    if k < |s| {
      DivModSmall(k, |s|);
    } else {
      DivModStep(k, |s|);
      assert |s| * reps == |s| + |s| * (reps - 1);
      TileIndex(s, reps - 1, k - |s|);
    }
  }

  /** Element `k` of a repeated sequence is element `k / n` of the original. */
  lemma {:induction false} RepeatEachIndex<T>(s: seq<T>, n: nat, k: int)
    requires 0 <= k < |s| * n
    ensures n > 0 && k / n < |s|
    ensures RepeatEach(s, n)[k] == s[k / n]
  {
    assert |s| > 0;
    if k < n {
      DivModSmall(k, n);
    } else {
      DivModStep(k, n);
      assert |s| * n == n + (|s| - 1) * n;
      RepeatEachIndex(s[1..], n, k - n);
    }
  }

  /** A flattened rectangle has `rows * width` elements... */
  lemma {:induction false} FlattenLength<T>(rows: seq<seq<T>>, width: nat)
    requires Rectangular(rows, width)
    ensures |Flatten(rows)| == |rows| * width
  {
    if |rows| > 0 {
      FlattenLength(rows[1..], width);
      assert |rows| * width == width + (|rows| - 1) * width;
    }
  }

  /** ...and element `k` is column `k % width` of row `k / width`. */
  lemma {:induction false} FlattenIndex<T>(rows: seq<seq<T>>, width: nat, k: int)
    requires Rectangular(rows, width)
    requires 0 <= k < |rows| * width
    ensures width > 0 && k / width < |rows| && k % width < width
    ensures |Flatten(rows)| == |rows| * width
    ensures Flatten(rows)[k] == rows[k / width][k % width]
  {
    FlattenLength(rows, width);
    assert |rows| > 0;
    FlattenLength(rows[1..], width);
    if k < width {
      DivModSmall(k, width);
    } else {
      DivModStep(k, width);
      assert |rows| * width == width + (|rows| - 1) * width;
      FlattenIndex(rows[1..], width, k - width);
    }
  }

  lemma {:induction false} SumAppend(a: seq<real>, b: seq<real>)
    ensures Sum(a + b) == Sum(a) + Sum(b)
  {
    if |a| > 0 {
      assert (a + b)[1..] == a[1..] + b;
      SumAppend(a[1..], b);
    } else {
      assert a + b == b;
    }
  }

  /** Adding `v` to one element adds `v` to the sum. */
  lemma {:induction false} SumAddAt(s: seq<real>, i: int, v: real)
    requires 0 <= i < |s|
    ensures Sum(s[i := s[i] + v]) == Sum(s) + v
  {
    if i > 0 {
      assert s[i := s[i] + v][1..] == s[1..][i - 1 := s[i] + v];
      SumAddAt(s[1..], i - 1, v);
    } else {
      assert s[i := s[i] + v][1..] == s[1..];
    }
  }

  /** A sum of non-negative terms each at most its bound is at most the bound's sum. */
  lemma {:induction false} SumMonotone(a: seq<real>, b: seq<real>)
    requires |a| == |b|
    requires forall i :: 0 <= i < |a| ==> a[i] <= b[i]
    ensures Sum(a) <= Sum(b)
  {
    if |a| > 0 {
      SumMonotone(a[1..], b[1..]);
    }
  }

  /** A sum of zeros is zero. */
  lemma {:induction false} SumZeros(n: nat)
    ensures Sum(seq(n, _ => 0.0)) == 0.0
  {
    if n > 0 {
      assert seq(n, _ => 0.0)[1..] == seq(n - 1, _ => 0.0);
      SumZeros(n - 1);
    }
  }

  /** The end points of `linspace` are exactly the requested bounds. */
  lemma LinspaceEnds(a: real, b: real, n: nat)
    requires n >= 2
    ensures Linspace(a, b, n)[0] == a
    ensures Linspace(a, b, n)[n - 1] == b
  {
  }

  /** `jnp.max` of a non-empty sequence: an upper bound that is attained. */
  function SeqMax(s: seq<real>): (r: real)
    requires |s| > 0
    ensures forall i :: 0 <= i < |s| ==> s[i] <= r
    ensures exists i :: 0 <= i < |s| && s[i] == r
  {
    if |s| == 1 then s[0]
    else
      var t := SeqMax(s[1..]);
      var k :| 0 <= k < |s| - 1 && s[1..][k] == t;
      assert s[k + 1] == t;
      if s[0] >= t then s[0] else t
  }

  /** `jnp.min` of a non-empty sequence: a lower bound that is attained. */
  function SeqMin(s: seq<real>): (r: real)
    requires |s| > 0
    ensures forall i :: 0 <= i < |s| ==> r <= s[i]
    ensures exists i :: 0 <= i < |s| && s[i] == r
  {
    if |s| == 1 then s[0]
    else
      var t := SeqMin(s[1..]);
      var k :| 0 <= k < |s| - 1 && s[1..][k] == t;
      assert s[k + 1] == t;
      if s[0] <= t then s[0] else t
  }

  /** An attained upper bound is the maximum. */
  lemma SeqMaxIs(s: seq<real>, v: real)
    requires |s| > 0
    requires forall i :: 0 <= i < |s| ==> s[i] <= v
    requires exists i :: 0 <= i < |s| && s[i] == v
    ensures SeqMax(s) == v
  {
  }

  /** An attained lower bound is the minimum. */
  lemma SeqMinIs(s: seq<real>, v: real)
    requires |s| > 0
    requires forall i :: 0 <= i < |s| ==> v <= s[i]
    requires exists i :: 0 <= i < |s| && s[i] == v
    ensures SeqMin(s) == v
  {
  }

  /** Summing two sequences term by term. */
  lemma {:induction false} SumPointwise(a: seq<real>, b: seq<real>)
    requires |a| == |b|
    ensures Sum(a) + Sum(b) == Sum(seq(|a|, i requires 0 <= i < |a| => a[i] + b[i]))
  {
    if |a| > 0 {
      assert seq(|a|, i requires 0 <= i < |a| => a[i] + b[i])[1..]
          == seq(|a| - 1, i requires 0 <= i < |a| - 1 => a[1..][i] + b[1..][i]);
      SumPointwise(a[1..], b[1..]);
    }
  }

  /** Terms that are each `c` times a weight sum to `c` times the weights' sum. */
  lemma {:induction false} SumProportional(s: seq<real>, ws: seq<real>, c: real)
    requires |s| == |ws|
    requires forall i :: 0 <= i < |s| ==> s[i] == c * ws[i]
    ensures Sum(s) == c * Sum(ws)
  {
    if |s| > 0 {
      SumProportional(s[1..], ws[1..], c);
      assert Sum(s) == s[0] + Sum(s[1..]);
      assert Sum(ws) == ws[0] + Sum(ws[1..]);
      assert c * ws[0] + c * Sum(ws[1..]) == c * (ws[0] + Sum(ws[1..]));
    }
  }

  /** Terms between zero and `c` times a weight sum to between zero and `c` times the weights' sum. */
  lemma {:induction false} SumBetween(s: seq<real>, ws: seq<real>, c: real)
    requires |s| == |ws|
    requires forall i :: 0 <= i < |s| ==> 0.0 <= s[i] <= c * ws[i]
    ensures 0.0 <= Sum(s) <= c * Sum(ws)
  {
    if |s| > 0 {
      SumBetween(s[1..], ws[1..], c);
      assert Sum(s) == s[0] + Sum(s[1..]);
      assert Sum(ws) == ws[0] + Sum(ws[1..]);
      assert c * ws[0] + c * Sum(ws[1..]) == c * (ws[0] + Sum(ws[1..]));
    }
  }
}
