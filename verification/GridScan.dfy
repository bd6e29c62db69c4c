/** A likelihood scan split over workers, one grid point each, and merged back into one curve. */
module GridScan {
  import opened Decimal

  /** A scanned value and its likelihood. */
  type Point = (real, real)

  /** The size is unsigned, so that 0 - 1 is the largest number. */
  function GetPointAtGridEquidistant(low: real, high: real, sizeGrid: nat, nbPoint: nat): real
    requires sizeGrid != 1
  {
    var parts := if sizeGrid == 0 then MODULUS_64 - 1 else sizeGrid - 1;
    low + nbPoint as real * ((high - low) / parts as real)
  }

  // ---------------------------------------------------------------- sorting and minima

  predicate SortedByFirst(s: seq<Point>) {
    forall i, j :: 0 <= i < j < |s| ==> s[i].0 <= s[j].0
  }

  /** All the sort of a standard library promises: ordered by the first component, and the same points. */
  ghost predicate IsSortOf(s: seq<Point>, t: seq<Point>) {
    SortedByFirst(s) && multiset(s) == multiset(t)
  }

  method Sort(points: seq<Point>) returns (sorted: seq<Point>)
    ensures IsSortOf(sorted, points)
  {
    sorted := [];
    for i := 0 to |points|
      invariant IsSortOf(sorted, points[..i])
    {
      sorted := Insert(sorted, points[i]);
      assert points[..i + 1] == points[..i] + [points[i]];
    }
    assert points[..|points|] == points;
  }

  method Insert(s: seq<Point>, p: Point) returns (r: seq<Point>)
    requires SortedByFirst(s)
    ensures IsSortOf(r, s + [p])
  {
    var k := |s|;
    while k > 0 && s[k - 1].0 > p.0
      invariant 0 <= k <= |s|
      invariant k < |s| ==> s[k].0 > p.0
    {
      k := k - 1;
    }
    r := s[..k] + [p] + s[k..];
    InsertAt(s, p, k);
  }

  lemma InsertAt(s: seq<Point>, p: Point, k: nat)
    requires SortedByFirst(s) && k <= |s|
    requires (k > 0 ==> s[k - 1].0 <= p.0) && (k < |s| ==> p.0 < s[k].0)
    ensures IsSortOf(s[..k] + [p] + s[k..], s + [p])
  {
    assert s == s[..k] + s[k..];
    InsertedSorted(s, p, k);
    InsertedMultiset(s[..k], s[k..], p);
  }

  lemma InsertedSorted(s: seq<Point>, p: Point, k: nat)
    requires SortedByFirst(s) && k <= |s|
    requires (k > 0 ==> s[k - 1].0 <= p.0) && (k < |s| ==> p.0 < s[k].0)
    ensures SortedByFirst(s[..k] + [p] + s[k..])
  {
    var r := s[..k] + [p] + s[k..];
    assert forall i :: 0 <= i < k ==> r[i] == s[i] && s[i].0 <= p.0;
    assert forall i :: k < i < |r| ==> r[i] == s[i - 1] && p.0 <= s[i - 1].0;
    assert r[k] == p;
  }

  lemma InsertedMultiset(a: seq<Point>, b: seq<Point>, p: Point)
    ensures multiset(a + [p] + b) == multiset((a + b) + [p])
  {
    assert multiset(a + [p] + b) == multiset(a) + multiset{p} + multiset(b);
  }

  predicate IsMin(m: real, s: seq<real>) {
    m in s && forall i :: 0 <= i < |s| ==> m <= s[i]
  }

  predicate IsMax(m: real, s: seq<real>) {
    m in s && forall i :: 0 <= i < |s| ==> s[i] <= m
  }

  method MinElement(s: seq<real>) returns (m: real)
    requires s != []
    ensures IsMin(m, s)
  {
    m := s[0];
    for i := 1 to |s|
      invariant IsMin(m, s[..i])
    {
      if s[i] < m {
        m := s[i];
      }
    }
  }

  method MaxElement(s: seq<real>) returns (m: real)
    requires s != []
    ensures IsMax(m, s)
  {
    m := s[0];
    for i := 1 to |s|
      invariant IsMax(m, s[..i])
    {
      if s[i] > m {
        m := s[i];
      }
    }
  }

  function Firsts(s: seq<Point>): (r: seq<real>)
    ensures |r| == |s| && forall i :: 0 <= i < |s| ==> r[i] == s[i].0
  {
    seq(|s|, i requires 0 <= i < |s| => s[i].0)
  }

  function Seconds(s: seq<Point>): (r: seq<real>)
    ensures |r| == |s| && forall i :: 0 <= i < |s| ==> r[i] == s[i].1
  {
    seq(|s|, i requires 0 <= i < |s| => s[i].1)
  }

  // ---------------------------------------------------------------- the curve

  class NllCurveSettings {
    var muNllValues: seq<Point>
    var muValues: seq<real>
    var nllValues: seq<real>
    var minPoi: real
    var maxPoi: real

    constructor ()
      ensures muNllValues == [] && muValues == [] && nllValues == [] && minPoi == 0.0 && maxPoi == 0.0
    {
      muNllValues, muValues, nllValues, minPoi, maxPoi := [], [], [], 0.0, 0.0;
    }

    method AddPoint(mu: real, nll: real)
      modifies this`muNllValues
      ensures muNllValues == old(muNllValues) + [(mu, nll)]
    {
      muNllValues := muNllValues + [(mu, nll)];
    }

    /** Sorts the points, appends them to the two value lists and turns all likelihoods into twice their distance to
        the minimum. Without points nothing changes. */
    method PrepareMuNllValues()
      modifies this
      ensures old(muNllValues) == [] ==>
                && muNllValues == [] && muValues == old(muValues) && nllValues == old(nllValues)
                && minPoi == old(minPoi) && maxPoi == old(maxPoi)
      ensures old(muNllValues) != [] ==>
                && IsSortOf(muNllValues, old(muNllValues))
                && muValues == old(muValues) + Firsts(muNllValues)
                && IsMin(minPoi, muValues) && IsMax(maxPoi, muValues)
                && Shifted(nllValues, old(nllValues) + Seconds(muNllValues))
    {
      if |muNllValues| == 0 {
        return;
      }
      var sorted := Sort(muNllValues);
      SameLength(sorted, muNllValues);
      muNllValues := sorted;
      FillValues();
      var minNll := MinElement(nllValues);
      minPoi := MinElement(muValues);
      maxPoi := MaxElement(muValues);
      SubtractAndDouble(minNll);
    }

    method FillValues()
      modifies this`muValues, this`nllValues
      ensures muValues == old(muValues) + Firsts(muNllValues)
      ensures nllValues == old(nllValues) + Seconds(muNllValues)
    {
      for i := 0 to |muNllValues|
        invariant muValues == old(muValues) + Firsts(muNllValues)[..i]
        invariant nllValues == old(nllValues) + Seconds(muNllValues)[..i]
      {
        muValues := muValues + [muNllValues[i].0];
        nllValues := nllValues + [muNllValues[i].1];
      }
    }

    method SubtractAndDouble(minNll: real)
      modifies this`nllValues
      ensures |nllValues| == |old(nllValues)|
      ensures forall k :: 0 <= k < |nllValues| ==> nllValues[k] == 2.0 * (old(nllValues)[k] - minNll)
    {
      for i := 0 to |nllValues|
        invariant |nllValues| == |old(nllValues)|
        invariant forall k :: 0 <= k < i ==> nllValues[k] == 2.0 * (old(nllValues)[k] - minNll)
        invariant forall k :: i <= k < |nllValues| ==> nllValues[k] == old(nllValues)[k]
      {
        nllValues := nllValues[i := 2.0 * (nllValues[i] - minNll)];
      }
    }
  }

  /** r is twice the distance of s to its minimum. */
  ghost predicate Shifted(r: seq<real>, s: seq<real>) {
    |r| == |s| && exists m :: IsMin(m, s) && forall k :: 0 <= k < |s| ==> r[k] == 2.0 * (s[k] - m)
  }

  /** Shifting gives non-negative values, zero exactly at the minima, and keeps the order and half the distances. */
  lemma ShiftedMeans(r: seq<real>, s: seq<real>)
    requires Shifted(r, s)
    ensures IsMin(0.0, r)
    ensures forall k :: 0 <= k < |s| ==> (r[k] == 0.0 <==> IsMin(s[k], s))
    ensures forall j, k :: 0 <= j < |s| && 0 <= k < |s| ==> r[j] - r[k] == 2.0 * (s[j] - s[k])
  {
    var m :| IsMin(m, s) && forall k :: 0 <= k < |s| ==> r[k] == 2.0 * (s[k] - m);
    var i :| 0 <= i < |s| && s[i] == m;
    assert r[i] == 0.0;
    forall k | 0 <= k < |s|
      ensures r[k] == 0.0 <==> IsMin(s[k], s)
    {
      if IsMin(s[k], s) {
        assert s[k] <= s[i];
      }
    }
  }

  // ---------------------------------------------------------------- sorting has one result

  predicate StrictlyByFirst(s: seq<Point>) {
    forall i, j :: 0 <= i < j < |s| ==> s[i].0 < s[j].0
  }

  /** Points with different first components have only one sorted order. */
  lemma {:induction false} OneSortedOrder(s: seq<Point>, grid: seq<Point>)
    requires SortedByFirst(s) && StrictlyByFirst(grid) && multiset(s) == multiset(grid)
    ensures s == grid
    decreases |grid|
  {
    SameLength(s, grid);
    if grid != [] {
      SameHead(s, grid);
      SameTails(s, grid);
      OneSortedOrder(s[1..], grid[1..]);
      assert s == [s[0]] + s[1..] && grid == [grid[0]] + grid[1..];
    }
  }

  lemma SameHead(s: seq<Point>, grid: seq<Point>)
    requires SortedByFirst(s) && StrictlyByFirst(grid) && multiset(s) == multiset(grid) && s != [] && grid != []
    ensures s[0] == grid[0]
  {
    assert grid[0] in multiset(s);
    var i :| 0 <= i < |s| && s[i] == grid[0];
    assert s[0] in multiset(grid);
    var j :| 0 <= j < |grid| && grid[j] == s[0];
    assert s[0].0 <= s[i].0;
  }

  lemma SameTails(s: seq<Point>, grid: seq<Point>)
    requires multiset(s) == multiset(grid) && s != [] && grid != [] && s[0] == grid[0]
    ensures multiset(s[1..]) == multiset(grid[1..])
  {
    assert s == [s[0]] + s[1..] && grid == [grid[0]] + grid[1..];
    assert multiset(s) == multiset{s[0]} + multiset(s[1..]);
    assert multiset(grid) == multiset{grid[0]} + multiset(grid[1..]);
    assert multiset(s[1..]) == multiset(s) - multiset{s[0]};
    assert multiset(grid[1..]) == multiset(grid) - multiset{grid[0]};
  }

  lemma SameLength(a: seq<Point>, b: seq<Point>)
    requires multiset(a) == multiset(b)
    ensures |a| == |b|
  {
    assert |multiset(a)| == |a| && |multiset(b)| == |b|;
  }

  // ---------------------------------------------------------------- splitting and merging

  /** The points of all workers, in worker order: worker k tests grid point k and finds likelihood nll[k]. */
  function WorkerPoints(low: real, high: real, nll: seq<real>): (r: seq<Point>)
    requires |nll| >= 2
    ensures |r| == |nll|
    ensures forall k :: 0 <= k < |nll| ==> r[k] == (GetPointAtGridEquidistant(low, high, |nll|, k), nll[k])
  {
    seq(|nll|, k requires 0 <= k < |nll| => (GetPointAtGridEquidistant(low, high, |nll|, k), nll[k]))
  }

  /** The grid increases in equal steps from one end of the range to the other. */
  lemma GridIsEquidistant(low: real, high: real, n: nat)
    requires n >= 2 && low < high
    ensures GetPointAtGridEquidistant(low, high, n, 0) == low
    ensures GetPointAtGridEquidistant(low, high, n, n - 1) == high
    ensures forall i: nat, j: nat :: i < j ==>
              GetPointAtGridEquidistant(low, high, n, i) < GetPointAtGridEquidistant(low, high, n, j)
    ensures forall i: nat, j: nat ::
              GetPointAtGridEquidistant(low, high, n, j) - GetPointAtGridEquidistant(low, high, n, i)
                == (j - i) as real * ((high - low) / (n - 1) as real)
  {
    var step := (high - low) / (n - 1) as real;
    StepIsPositive(high - low, (n - 1) as real);
    forall i: nat, j: nat | i < j
      ensures GetPointAtGridEquidistant(low, high, n, i) < GetPointAtGridEquidistant(low, high, n, j)
    {
      Times(i as real, j as real, step);
    }
    forall i: nat, j: nat
      ensures GetPointAtGridEquidistant(low, high, n, j) - GetPointAtGridEquidistant(low, high, n, i)
                == (j - i) as real * step
    {
      assert (j - i) as real == j as real - i as real;
    }
  }

  lemma StepIsPositive(length: real, parts: real)
    requires length > 0.0 && parts > 0.0
    ensures length / parts > 0.0 && parts * (length / parts) == length
  {
  }

  lemma Times(a: real, b: real, c: real)
    requires a < b && c > 0.0
    ensures a * c < b * c
  {
  }

  /** However the points arrive, the sorted points are those of the workers in grid order. */
  lemma MergeIsLossless(low: real, high: real, nll: seq<real>, arrived: seq<Point>, sorted: seq<Point>)
    requires |nll| >= 2 && low < high
    requires multiset(arrived) == multiset(WorkerPoints(low, high, nll)) && IsSortOf(sorted, arrived)
    ensures sorted == WorkerPoints(low, high, nll)
  {
    GridIsEquidistant(low, high, |nll|);
    OneSortedOrder(sorted, WorkerPoints(low, high, nll));
  }

  /** The curve of a complete scan: the grid from low to high, each likelihood at its point and shifted to minimum
      zero. */
  ghost predicate IsScanOf(
      curve: NllCurveSettings, low: real, high: real, nll: seq<real>)
    requires |nll| >= 2
    reads curve
  {
    && curve.muNllValues == WorkerPoints(low, high, nll)
    && curve.muValues == Firsts(WorkerPoints(low, high, nll))
    && Shifted(curve.nllValues, Seconds(WorkerPoints(low, high, nll))) && IsMin(0.0, curve.nllValues)
    && curve.minPoi == low && curve.maxPoi == high
  }

  /** Preparing the points of all workers once gives the curve of the scan, in whatever order they were added. */
  method MergeScan(
      low: real, high: real, ghost nll: seq<real>, arrived: seq<Point>, curve: NllCurveSettings)
    requires |nll| >= 2 && low < high
    requires multiset(arrived) == multiset(WorkerPoints(low, high, nll))
    requires curve.muNllValues == [] && curve.muValues == [] && curve.nllValues == []
    modifies curve
    ensures IsScanOf(curve, low, high, nll)
  {
    SameLength(arrived, WorkerPoints(low, high, nll));
    AddPoints(curve, arrived);
    assert curve.muNllValues == arrived != [];
    curve.PrepareMuNllValues();
    assert curve.muValues == Firsts(curve.muNllValues);
    assert [] + Seconds(curve.muNllValues) == Seconds(curve.muNllValues);
    PreparedScan(low, high, nll, arrived, curve);
  }

  lemma PreparedScan(
      low: real, high: real, nll: seq<real>, arrived: seq<Point>, curve: NllCurveSettings)
    requires |nll| >= 2 && low < high
    requires multiset(arrived) == multiset(WorkerPoints(low, high, nll)) && IsSortOf(curve.muNllValues, arrived)
    requires curve.muValues == Firsts(curve.muNllValues)
    requires IsMin(curve.minPoi, curve.muValues) && IsMax(curve.maxPoi, curve.muValues)
    requires Shifted(curve.nllValues, Seconds(curve.muNllValues))
    ensures IsScanOf(curve, low, high, nll)
  {
    MergeIsLossless(low, high, nll, arrived, curve.muNllValues);
    EndsOfGrid(low, high, nll, curve.muValues, curve.minPoi, curve.maxPoi);
    ShiftedMeans(curve.nllValues, Seconds(curve.muNllValues));
  }

  method AddPoints(curve: NllCurveSettings, points: seq<Point>)
    modifies curve`muNllValues
    ensures curve.muNllValues == old(curve.muNllValues) + points
  {
    for i := 0 to |points|
      invariant curve.muNllValues == old(curve.muNllValues) + points[..i]
    {
      curve.AddPoint(points[i].0, points[i].1);
    }
  }

  lemma EndsOfGrid(low: real, high: real, nll: seq<real>, mu: seq<real>, least: real, most: real)
    requires |nll| >= 2 && low < high && mu == Firsts(WorkerPoints(low, high, nll))
    requires IsMin(least, mu) && IsMax(most, mu)
    ensures least == low && most == high
  {
    var n := |nll|;
    GridIsEquidistant(low, high, n);
    assert mu[0] == low && mu[n - 1] == high;
    forall k | 0 <= k < n
      ensures low <= mu[k] <= high
    {
      assert k > 0 ==> GetPointAtGridEquidistant(low, high, n, 0) < GetPointAtGridEquidistant(low, high, n, k);
      assert k < n - 1 ==> GetPointAtGridEquidistant(low, high, n, k) < GetPointAtGridEquidistant(low, high, n, n - 1);
    }
  }

  /** Preparing a second time doubles the value lists, so that they no longer match the points. */
  method PreparingTwiceDoubles(curve: NllCurveSettings)
    requires curve.muNllValues != [] && curve.muValues == [] && curve.nllValues == []
    modifies curve
    ensures |curve.muValues| == |curve.nllValues| == 2 * |old(curve.muNllValues)|
    ensures |curve.muNllValues| == |old(curve.muNllValues)|
  {
    curve.PrepareMuNllValues();
    SameLength(curve.muNllValues, old(curve.muNllValues));
    ghost var once := curve.muNllValues;
    curve.PrepareMuNllValues();
    SameLength(curve.muNllValues, once);
  }
}
