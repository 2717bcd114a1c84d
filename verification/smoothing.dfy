/** The deformer's temporal smoothing: a vertex's offset at one frame is
    replaced by a weighted mean of its offsets over a window of frames
    around it, with weights falling off as (1 - (|n| / (N + 1))^2)^2. */
module TemporalSmoothing {

  /** Every row of the offset table has an entry for vertex `v`. */
  predicate HasColumn(rows: seq<seq<real>>, v: nat)
  {
    forall f :: 0 <= f < |rows| ==> v < |rows[f]|
  }

  /** Weight of the frame `n` steps away from the centre of a window of half-width `N`. */
  function Weight(n: int, N: int): (w: real)
    requires -N <= n <= N
    ensures 0.0 < w <= 1.0
    ensures n == 0 ==> w == 1.0
  {
    var q := (if n < 0 then -n else n) as real / (N + 1) as real;
    FractionBelowOne((if n < 0 then -n else n) as real, (N + 1) as real);
    var u := 1.0 - q * q;
    assert 0.0 < u <= 1.0 by {
      assert q * q <= q;
    }
    assert u * u <= u;
    u * u
  }

  /** Frames equally far before and after the centre weigh the same. */
  lemma WeightSymmetric(n: int, N: int)
    requires -N <= n <= N
    ensures Weight(-n, N) == Weight(n, N)
  {
  }

  /** Frames farther from the centre weigh no more than nearer ones. */
  lemma WeightFallsOff(n: int, m: int, N: int)
    requires 0 <= n <= m <= N
    ensures Weight(m, N) <= Weight(n, N)
  {
    var b := (N + 1) as real;
    var qn := n as real / b;
    var qm := m as real / b;
    FractionBelowOne(n as real, b);
    FractionBelowOne(m as real, b);
    assert qn <= qm by {
      assert qm - qn == (m - n) as real / b;
    }
    SquareMonotone(qn, qm);
    SquareMonotone(qm, 1.0);
    var un := 1.0 - qn * qn;
    var um := 1.0 - qm * qm;
    SquareMonotone(um, un);
  }

  lemma FractionBelowOne(a: real, b: real)
    requires 0.0 <= a < b
    ensures 0.0 <= a / b < 1.0
  {
    assert a / b * b == a;
  }

  lemma SquareMonotone(x: real, y: real)
    requires 0.0 <= x <= y
    ensures x * x <= y * y
  {
    assert x * x <= x * y <= y * y;
  }

  /** The running weighted sum and total weight of the smoothing loop. */
  datatype Accum = Accum(sum: real, weight: real)

  /** Adds one frame's offset `x` with weight `w` to the running sums. */
  function Include(acc: Accum, x: real, w: real): Accum
  {
    Accum(acc.sum + x * w, acc.weight + w)
  }

  /** The loop over `n` in [-N, hi), skipping frames outside the table. */
  function Window(rows: seq<seq<real>>, v: nat, centre: int, N: int, hi: int): Accum
    requires HasColumn(rows, v) && hi <= N + 1
    decreases hi + N
  {
    if hi <= -N then Accum(0.0, 0.0)
    else
      var acc := Window(rows, v, centre, N, hi - 1);
      var n := hi - 1;
      var f := centre + n;
      if f < 0 || f >= |rows| then acc
      else
        Include(acc, rows[f][v], Weight(n, N))
  }

  /** The smoothed offset of vertex `v` at frame `centre`, falling back to
      the unsmoothed entry when no frame of the window carries weight. */
  function Smoothed(rows: seq<seq<real>>, v: nat, centre: nat, N: int): real
    requires HasColumn(rows, v) && centre < |rows|
  {
    var acc := Window(rows, v, centre, N, N + 1);
    if acc.weight > 0.0 then acc.sum / acc.weight else rows[centre][v]
  }

  /** With smoothing off (a half-width of zero, or a negative one that makes
      the loop empty) the offset is left as it is. */
  lemma SmoothingOffIsIdentity(rows: seq<seq<real>>, v: nat, centre: nat, N: int)
    requires HasColumn(rows, v) && centre < |rows|
    requires N <= 0
    ensures Smoothed(rows, v, centre, N) == rows[centre][v]
  {
    if N == 0 {
      assert Window(rows, v, centre, N, 0) == Accum(0.0, 0.0);
      assert Weight(0, 0) == 1.0;
    }
  }

  lemma {:induction false} WindowWeight(rows: seq<seq<real>>, v: nat, centre: nat, N: int, hi: int)
    requires HasColumn(rows, v) && hi <= N + 1 && centre < |rows|
    ensures Window(rows, v, centre, N, hi).weight >= 0.0
    ensures -N <= 0 < hi ==> Window(rows, v, centre, N, hi).weight >= 1.0
    decreases hi + N
  {
    if hi > -N {
      WindowWeight(rows, v, centre, N, hi - 1);
    }
  }

  /** For any window the loop reaches the centre frame with weight one, so the
      fallback to the unsmoothed entry is taken only when the half-width is negative. */
  lemma FallbackOnlyForNegativeWindow(rows: seq<seq<real>>, v: nat, centre: nat, N: int)
    requires HasColumn(rows, v) && centre < |rows|
    ensures Window(rows, v, centre, N, N + 1).weight > 0.0 <==> N >= 0
  {
    WindowWeight(rows, v, centre, N, N + 1);
  }

  /** Frame `f` lies in the window of half-width `N` around `centre`. */
  predicate InWindow(f: int, centre: int, N: int)
  {
    centre - N <= f <= centre + N
  }

  predicate Bracketed(acc: Accum, lo: real, up: real)
  {
    lo * acc.weight <= acc.sum <= up * acc.weight
  }

  lemma {:induction false} WindowBounded(rows: seq<seq<real>>, v: nat, centre: nat, N: int, hi: int, lo: real, up: real)
    requires HasColumn(rows, v) && hi <= N + 1
    requires forall f :: 0 <= f < |rows| && InWindow(f, centre, N) ==> lo <= rows[f][v] <= up
    ensures Bracketed(Window(rows, v, centre, N, hi), lo, up)
    decreases hi + N
  {
    if hi > -N {
      WindowBounded(rows, v, centre, N, hi - 1, lo, up);
      var acc := Window(rows, v, centre, N, hi - 1);
      var f := centre + hi - 1;
      if 0 <= f < |rows| {
        assert InWindow(f, centre, N);
        var w := Weight(hi - 1, N);
        AccumulateBetween(acc, rows[f][v], w, lo, up);
        assert Window(rows, v, centre, N, hi) == Include(acc, rows[f][v], w);
      } else {
        assert Window(rows, v, centre, N, hi) == acc;
      }
    } else {
      assert lo * 0.0 == 0.0 == up * 0.0;
    }
  }

  lemma AccumulateBetween(acc: Accum, x: real, wx: real, lo: real, up: real)
    requires Bracketed(acc, lo, up)
    requires lo <= x <= up && 0.0 <= wx
    ensures Bracketed(Include(acc, x, wx), lo, up)
  {
    var s, w := acc.sum, acc.weight;
    assert lo * wx <= x * wx <= up * wx;
    assert lo * (w + wx) == lo * w + lo * wx;
    assert up * (w + wx) == up * w + up * wx;
  }

  lemma MeanBetween(s: real, w: real, lo: real, up: real)
    requires 0.0 < w && lo * w <= s <= up * w
    ensures lo <= s / w <= up
  {
    assert s / w * w == s;
  }

  /** The smoothed offset never leaves the range of the offsets it averages. */
  lemma SmoothedWithinNeighbours(rows: seq<seq<real>>, v: nat, centre: nat, N: int, lo: real, up: real)
    requires HasColumn(rows, v) && centre < |rows|
    requires lo <= rows[centre][v] <= up
    requires forall f :: 0 <= f < |rows| && InWindow(f, centre, N) ==> lo <= rows[f][v] <= up
    ensures lo <= Smoothed(rows, v, centre, N) <= up
  {
    var acc := Window(rows, v, centre, N, N + 1);
    WindowBounded(rows, v, centre, N, N + 1, lo, up);
    assert Bracketed(acc, lo, up);
    if acc.weight > 0.0 {
      MeanBetween(acc.sum, acc.weight, lo, up);
    }
  }

  /** A vertex whose offset holds steady across the window keeps that offset. */
  lemma SteadyOffsetUnchanged(rows: seq<seq<real>>, v: nat, centre: nat, N: int)
    requires HasColumn(rows, v) && centre < |rows|
    requires forall f :: 0 <= f < |rows| && InWindow(f, centre, N) ==> rows[f][v] == rows[centre][v]
    ensures Smoothed(rows, v, centre, N) == rows[centre][v]
  {
    SmoothedWithinNeighbours(rows, v, centre, N, rows[centre][v], rows[centre][v]);
  }

  lemma {:induction false} WindowLocal(rows1: seq<seq<real>>, rows2: seq<seq<real>>, v: nat, centre: nat, N: int, hi: int)
    requires HasColumn(rows1, v) && HasColumn(rows2, v) && hi <= N + 1
    requires |rows1| == |rows2|
    requires forall f :: 0 <= f < |rows1| ==> rows1[f][v] == rows2[f][v]
    ensures Window(rows1, v, centre, N, hi) == Window(rows2, v, centre, N, hi)
    decreases hi + N
  {
    if hi > -N {
      WindowLocal(rows1, rows2, v, centre, N, hi - 1);
      var f := centre + hi - 1;
      if 0 <= f < |rows1| {
        assert rows1[f][v] == rows2[f][v];
      }
    }
  }

  /** Smoothing one vertex reads only that vertex's column of the table. */
  lemma SmoothedDependsOnlyOnColumn(rows1: seq<seq<real>>, rows2: seq<seq<real>>, v: nat, centre: nat, N: int)
    requires HasColumn(rows1, v) && HasColumn(rows2, v) && centre < |rows1| == |rows2|
    requires forall f :: 0 <= f < |rows1| ==> rows1[f][v] == rows2[f][v]
    ensures Smoothed(rows1, v, centre, N) == Smoothed(rows2, v, centre, N)
  {
    WindowLocal(rows1, rows2, v, centre, N, N + 1);
  }
}
