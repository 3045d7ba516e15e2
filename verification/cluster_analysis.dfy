/**
 * The clustering routines of the cluster-analysis panel: min-max
 * normalisation, k-means (Lloyd's algorithm), DBSCAN, complete-linkage
 * agglomerative clustering, and the per-cluster statistics table.
 *
 * A point is the vector of the selected numeric fields of a record, in the
 * order of the record's keys; all points of a data set have the same
 * dimension `d`.
 */
module ClusterAnalysis {
  import opened Wrappers
  import Seqs
  import opened Numerics

  type Point = seq<real>

  predicate Rectangular(rows: seq<Point>, d: nat)
  {
    forall i :: 0 <= i < |rows| ==> |rows[i]| == d
  }

  /** Squared Euclidean distance, summed over the keys in order. */
  function Dist2(p: Point, q: Point): (r: real)
    requires |p| == |q|
    ensures 0.0 <= r
    decreases |p|
  {
    if |p| == 0 then 0.0
    else Dist2(p[..|p| - 1], q[..|q| - 1]) + Seqs.Square(p[|p| - 1] - q[|q| - 1])
  }

  lemma {:induction false} Dist2Symmetric(p: Point, q: Point)
    requires |p| == |q|
    ensures Dist2(p, q) == Dist2(q, p)
    decreases |p|
  {
    if |p| > 0 {
      Dist2Symmetric(p[..|p| - 1], q[..|q| - 1]);
      assert Seqs.Square(p[|p| - 1] - q[|q| - 1]) == Seqs.Square(q[|q| - 1] - p[|p| - 1]);
    }
  }

  /** The values of field f over all rows. */
  function Column(rows: seq<Point>, d: nat, f: nat): (c: seq<real>)
    requires Rectangular(rows, d) && f < d
    ensures |c| == |rows|
    ensures forall i :: 0 <= i < |rows| ==> c[i] == rows[i][f]
  {
    seq(|rows|, i requires 0 <= i < |rows| => rows[i][f])
  }

  // ---------------------------------------------------------------------
  // Min-max normalisation
  // ---------------------------------------------------------------------

  /** True when field f takes a single value over the (non-empty) data, so that `(v - min) / (max - min)` is `0/0`. */
  predicate ConstantField(rows: seq<Point>, d: nat, f: nat)
    requires Rectangular(rows, d) && f < d && |rows| > 0
  {
    Seqs.Min(Column(rows, d, f)) == Seqs.Max(Column(rows, d, f))
  }

  function Rescale(v: real, lo: real, hi: real): real
    requires lo < hi
  {
    (v - lo) / (hi - lo)
  }

  /**
   * Min-max normalisation of every selected field.  A field that is
   * constant over the data divides zero by zero, which gives NaN; the
   * model reports that case as `None`.
   */
  function Normalize(rows: seq<Point>, d: nat): (r: Option<seq<Point>>)
    requires Rectangular(rows, d)
    ensures r.None? <==> |rows| > 0 && exists f :: 0 <= f < d && ConstantField(rows, d, f)
    ensures r.Some? ==> |r.value| == |rows| && Rectangular(r.value, d)
  {
    if |rows| == 0 then Some([])
    else if exists f :: 0 <= f < d && ConstantField(rows, d, f) then None
    else
      Some(seq(|rows|, i requires 0 <= i < |rows| =>
        seq(d, f requires 0 <= f < d => Rescaled(rows, d, i, f))))
  }

  /** `(d[field] - mins[field]) / (maxs[field] - mins[field])` for row i and a non-constant field f. */
  function Rescaled(rows: seq<Point>, d: nat, i: nat, f: nat): real
    requires Rectangular(rows, d) && i < |rows| && f < d && !ConstantField(rows, d, f)
  {
    var c := Column(rows, d, f);
    assert Seqs.Min(c) <= c[0] <= Seqs.Max(c);
    Rescale(rows[i][f], Seqs.Min(c), Seqs.Max(c))
  }

  lemma RescaleFacts(u: real, v: real, lo: real, hi: real)
    requires lo < hi && lo <= u <= hi && lo <= v <= hi
    ensures 0.0 <= Rescale(u, lo, hi) <= 1.0
    ensures u <= v <==> Rescale(u, lo, hi) <= Rescale(v, lo, hi)
    ensures u == lo ==> Rescale(u, lo, hi) == 0.0
    ensures u == hi ==> Rescale(u, lo, hi) == 1.0
  {
    var w := hi - lo;
    assert Rescale(u, lo, hi) * w == u - lo;
    assert Rescale(v, lo, hi) * w == v - lo;
  }

  /**
   * Normalised values lie in [0, 1], the smallest value of a field maps to 0
   * and the largest to 1, and the order of values within a field is kept.
   */
  lemma NormalizeRangeAndOrder(rows: seq<Point>, d: nat, i: nat, j: nat, f: nat)
    requires Rectangular(rows, d) && Normalize(rows, d).Some?
    requires i < |rows| && j < |rows| && f < d
    ensures var n := Normalize(rows, d).value;
      0.0 <= n[i][f] <= 1.0
      && (rows[i][f] <= rows[j][f] <==> n[i][f] <= n[j][f])
      && (rows[i][f] == Seqs.Min(Column(rows, d, f)) ==> n[i][f] == 0.0)
      && (rows[i][f] == Seqs.Max(Column(rows, d, f)) ==> n[i][f] == 1.0)
  {
    var c := Column(rows, d, f);
    var lo, hi := Seqs.Min(c), Seqs.Max(c);
    assert !ConstantField(rows, d, f);
    assert lo <= c[i] <= hi && lo <= c[j] <= hi;
    RescaleFacts(rows[i][f], rows[j][f], lo, hi);
  }

  // ---------------------------------------------------------------------
  // k-means
  // ---------------------------------------------------------------------

  /** Draws of `Math.random()`, one per centroid and field, each in [0, 1). */
  predicate UnitDraws(draws: seq<seq<real>>, d: nat)
  {
    forall j :: 0 <= j < |draws| ==> |draws[j]| == d && forall f :: 0 <= f < d ==> 0.0 <= draws[j][f] < 1.0
  }

  function Lerp(lo: real, hi: real, u: real): (r: real)
    requires lo <= hi && 0.0 <= u < 1.0
    ensures lo <= r <= hi
  {
    lo + Scale(u, hi - lo)
  }

  /** A fraction `u` of a width `w`. */
  function Scale(u: real, w: real): (r: real)
    requires 0.0 <= u <= 1.0 && 0.0 <= w
    ensures 0.0 <= r <= w
  {
    assert w - u * w == (1.0 - u) * w;
    u * w
  }

  /** Random initial centroids: field f of centroid j is `min + draw * (max - min)` over the data's field f. */
  function InitialCentroids(rows: seq<Point>, d: nat, draws: seq<seq<real>>): (cs: seq<Point>)
    requires |rows| > 0 && Rectangular(rows, d) && UnitDraws(draws, d)
    ensures |cs| == |draws| && Rectangular(cs, d)
    ensures forall j, f :: 0 <= j < |cs| && 0 <= f < d ==>
      Seqs.Min(Column(rows, d, f)) <= cs[j][f] <= Seqs.Max(Column(rows, d, f))
  {
    seq(|draws|, j requires 0 <= j < |draws| =>
      seq(d, f requires 0 <= f < d =>
        var c := Column(rows, d, f);
        assert Seqs.Min(c) <= c[0] <= Seqs.Max(c);
        Lerp(Seqs.Min(c), Seqs.Max(c), draws[j][f])))
  }

  /**
   * The centroid nearest to p among the first m, scanning in order and
   * replacing the best only on a strictly smaller distance.
   */
  function Nearest(p: Point, cs: seq<Point>, m: nat): (r: nat)
    requires 1 <= m <= |cs| && Rectangular(cs, |p|)
    ensures r < m
    ensures forall j :: 0 <= j < m ==> Dist2(p, cs[r]) <= Dist2(p, cs[j])
    ensures forall j :: 0 <= j < r ==> Dist2(p, cs[r]) < Dist2(p, cs[j])
  {
    if m == 1 then 0
    else
      var b := Nearest(p, cs, m - 1);
      if Dist2(p, cs[m - 1]) < Dist2(p, cs[b]) then m - 1 else b
  }

  /** The assignment step: each point moves to its nearest centroid; with no centroids it keeps its label. */
  function Assign(rows: seq<Point>, d: nat, cs: seq<Point>, labels: seq<int>): (r: seq<int>)
    requires Rectangular(rows, d) && Rectangular(cs, d) && |labels| == |rows|
    ensures |r| == |rows|
    ensures |cs| == 0 ==> r == labels
    ensures |cs| > 0 ==> forall i :: 0 <= i < |rows| ==> 0 <= r[i] < |cs|
    ensures |cs| > 0 ==> forall i, j :: 0 <= i < |rows| && 0 <= j < |cs| ==>
      Dist2(rows[i], cs[r[i]]) <= Dist2(rows[i], cs[j])
    ensures |cs| > 0 ==> forall i, j :: 0 <= i < |rows| && 0 <= j < r[i] ==>
      Dist2(rows[i], cs[r[i]]) < Dist2(rows[i], cs[j])
  {
    seq(|rows|, i requires 0 <= i < |rows| => if |cs| == 0 then labels[i] else Nearest(rows[i], cs, |cs|) as int)
  }

  /** Sum of field f over the points labelled c. */
  function ClusterSum(rows: seq<Point>, d: nat, labels: seq<int>, c: int, f: nat): real
    requires Rectangular(rows, d) && |labels| == |rows| && f < d
    decreases |rows|
  {
    if |rows| == 0 then 0.0
    else
      ClusterSum(rows[..|rows| - 1], d, labels[..|labels| - 1], c, f)
        + (if labels[|labels| - 1] == c then rows[|rows| - 1][f] else 0.0)
  }

  /** Sum of `x - m` over the field-f values x of the points labelled c. */
  function Deviation(rows: seq<Point>, d: nat, labels: seq<int>, c: int, f: nat, m: real): real
    requires Rectangular(rows, d) && |labels| == |rows| && f < d
    decreases |rows|
  {
    if |rows| == 0 then 0.0
    else
      Deviation(rows[..|rows| - 1], d, labels[..|labels| - 1], c, f, m)
        + (if labels[|labels| - 1] == c then rows[|rows| - 1][f] - m else 0.0)
  }

  /** The deviations of a cluster's members from m add up to their sum less m once per member. */
  lemma DeviationIsSumMinusCount(rows: seq<Point>, d: nat, labels: seq<int>, c: int, f: nat, m: real)
    requires Rectangular(rows, d) && |labels| == |rows| && f < d
    ensures Deviation(rows, d, labels, c, f, m) == ClusterSum(rows, d, labels, c, f) - (Seqs.CountOf(labels, c) as real) * m
  {
    DeviationIsSumMinusRepeated(rows, d, labels, c, f, m);
    RepeatedIsProduct(labels, c, m);
  }

  /** m added once for each label equal to c. */
  function Repeated(labels: seq<int>, c: int, m: real): real
  {
    if |labels| == 0 then 0.0
    else Repeated(labels[..|labels| - 1], c, m) + (if labels[|labels| - 1] == c then m else 0.0)
  }

  lemma {:induction false} DeviationIsSumMinusRepeated(rows: seq<Point>, d: nat, labels: seq<int>, c: int, f: nat, m: real)
    requires Rectangular(rows, d) && |labels| == |rows| && f < d
    ensures Deviation(rows, d, labels, c, f, m) == ClusterSum(rows, d, labels, c, f) - Repeated(labels, c, m)
    decreases |rows|
  {
    if |rows| > 0 {
      DeviationIsSumMinusRepeated(rows[..|rows| - 1], d, labels[..|labels| - 1], c, f, m);
    }
  }

  lemma {:induction false} RepeatedIsProduct(labels: seq<int>, c: int, m: real)
    ensures Repeated(labels, c, m) == (Seqs.CountOf(labels, c) as real) * m
    decreases |labels|
  {
    if |labels| == 0 {
      NoneTimes(Seqs.CountOf(labels, c) as real, m);
    } else {
      var init := labels[..|labels| - 1];
      RepeatedIsProduct(init, c, m);
      var more := if labels[|labels| - 1] == c then 1.0 else 0.0;
      assert Seqs.CountOf(labels, c) as real == Seqs.CountOf(init, c) as real + more;
      MoreTimes(Seqs.CountOf(init, c) as real, Seqs.CountOf(labels, c) as real, more, m);
    }
  }

  /** The update step: a cluster with members moves to their mean; an empty cluster keeps its centroid. */
  function Update(rows: seq<Point>, d: nat, labels: seq<int>, cs: seq<Point>): (r: seq<Point>)
    requires Rectangular(rows, d) && Rectangular(cs, d) && |labels| == |rows|
    ensures |r| == |cs| && Rectangular(r, d)
    ensures forall j :: 0 <= j < |cs| && j !in labels ==> r[j] == cs[j]
  {
    Seqs.CountOfZeroAll(labels);
    seq(|cs|, j requires 0 <= j < |cs| =>
      var count := Seqs.CountOf(labels, j);
      if count > 0 then seq(d, f requires 0 <= f < d => ClusterSum(rows, d, labels, j, f) / (count as real))
      else cs[j])
  }

  /**
   * A non-empty cluster's new centroid is the mean of its members: the
   * deviations of the members from it cancel out in every field.
   */
  lemma UpdateCentroidIsMean(rows: seq<Point>, d: nat, labels: seq<int>, cs: seq<Point>, j: nat, f: nat)
    requires Rectangular(rows, d) && Rectangular(cs, d) && |labels| == |rows|
    requires j < |cs| && f < d && j in labels
    ensures Deviation(rows, d, labels, j, f, Update(rows, d, labels, cs)[j][f]) == 0.0
  {
    var count := Seqs.CountOf(labels, j);
    Seqs.CountOfZero(labels, j);
    var m := Update(rows, d, labels, cs)[j][f];
    assert m == ClusterSum(rows, d, labels, j, f) / (count as real);
    DeviationIsSumMinusCount(rows, d, labels, j, f, m);
  }

  datatype KMeansResult = KMeansResult(clusters: seq<int>, centroids: seq<Point>, iterations: nat)

  predicate LabelsBelow(labels: seq<int>, k: int)
  {
    forall i :: 0 <= i < |labels| ==> 0 <= labels[i] < k
  }

  /**
   * The Lloyd loop from round `iterations` on: while rounds remain, assign
   * then update; stop after the first round in which no point moved.
   */
  function Lloyd(rows: seq<Point>, d: nat, cs: seq<Point>, labels: seq<int>, iterations: nat, maxIterations: int): (r: KMeansResult)
    requires Rectangular(rows, d) && Rectangular(cs, d) && |labels| == |rows|
    ensures |r.clusters| == |rows| && |r.centroids| == |cs| && Rectangular(r.centroids, d)
    ensures iterations <= r.iterations
    ensures r.iterations <= (if maxIterations < iterations then iterations else maxIterations)
    ensures |cs| > 0 && LabelsBelow(labels, |cs|) ==> LabelsBelow(r.clusters, |cs|)
    decreases maxIterations - iterations
  {
    if iterations >= maxIterations then KMeansResult(labels, cs, iterations)
    else
      var next := Assign(rows, d, cs, labels);
      var moved := Update(rows, d, next, cs);
      if next == labels then KMeansResult(next, moved, iterations + 1)
      else Lloyd(rows, d, moved, next, iterations + 1, maxIterations)
  }

  /** A round in which no point changes cluster is the last one. */
  lemma LloydStopsWhenStable(rows: seq<Point>, d: nat, cs: seq<Point>, labels: seq<int>, iterations: nat, maxIterations: int)
    requires Rectangular(rows, d) && Rectangular(cs, d) && |labels| == |rows|
    requires iterations < maxIterations && Assign(rows, d, cs, labels) == labels
    ensures Lloyd(rows, d, cs, labels, iterations, maxIterations).iterations == iterations + 1
    ensures Lloyd(rows, d, cs, labels, iterations, maxIterations).clusters == labels
  {
  }

  /** A round in which some point changes cluster is followed by another, while rounds remain. */
  lemma LloydContinuesWhenChanged(rows: seq<Point>, d: nat, cs: seq<Point>, labels: seq<int>, iterations: nat, maxIterations: int)
    requires Rectangular(rows, d) && Rectangular(cs, d) && |labels| == |rows|
    requires iterations + 1 < maxIterations && Assign(rows, d, cs, labels) != labels
    ensures Lloyd(rows, d, cs, labels, iterations, maxIterations).iterations >= iterations + 2
  {
    var next := Assign(rows, d, cs, labels);
    var moved := Update(rows, d, next, cs);
    assert Lloyd(rows, d, cs, labels, iterations, maxIterations) == Lloyd(rows, d, moved, next, iterations + 1, maxIterations);
  }

  /**
   * `kMeans(data, k, maxIterations)`.  Reading the keys of `data[0]` fails
   * on empty data, `Array(k)` fails for negative k, and with k = 0 the
   * update step indexes a missing centroid as soon as there is a field to
   * add.
   */
  function KMeans(rows: seq<Point>, d: nat, k: int, maxIterations: int, draws: seq<seq<real>>): (r: Result<KMeansResult, string>)
    requires Rectangular(rows, d) && UnitDraws(draws, d) && (k >= 0 ==> |draws| == k)
    ensures r.Ok? <==> |rows| > 0 && k >= 0 && !(k == 0 && d > 0 && maxIterations >= 1)
    ensures r.Ok? ==> |r.value.clusters| == |rows| && |r.value.centroids| == k
    ensures r.Ok? ==> r.value.iterations <= (if maxIterations < 0 then 0 else maxIterations)
    ensures r.Ok? && k >= 1 ==> LabelsBelow(r.value.clusters, k)
  {
    if |rows| == 0 then Err("TypeError: Cannot convert undefined or null to object")
    else if k < 0 then Err("RangeError: Invalid array length")
    else if k == 0 && d > 0 && maxIterations >= 1 then Err("TypeError: Cannot read properties of undefined")
    else
      var cs := InitialCentroids(rows, d, draws);
      Ok(Lloyd(rows, d, cs, Zeros(|rows|), 0, maxIterations))
  }

  /** `Array(n).fill(0)`. */
  function Zeros(n: nat): (r: seq<int>)
    ensures |r| == n && forall i :: 0 <= i < n ==> r[i] == 0
  {
    seq(n, _ => 0)
  }

  lemma {:induction false} ClusterSumAllSame(rows: seq<Point>, d: nat, labels: seq<int>, f: nat)
    requires Rectangular(rows, d) && |labels| == |rows| && f < d
    requires forall i :: 0 <= i < |labels| ==> labels[i] == 0
    ensures ClusterSum(rows, d, labels, 0, f) == Seqs.Sum(Column(rows, d, f))
    decreases |rows|
  {
    if |rows| > 0 {
      var init := rows[..|rows| - 1];
      ClusterSumAllSame(init, d, labels[..|labels| - 1], f);
      assert Column(rows, d, f)[..|rows| - 1] == Column(init, d, f);
    }
  }

  /** With a single centroid every point is assigned to it. */
  lemma AssignSingle(rows: seq<Point>, d: nat, cs: seq<Point>, labels: seq<int>)
    requires Rectangular(rows, d) && Rectangular(cs, d) && |labels| == |rows| && |cs| == 1
    ensures Assign(rows, d, cs, labels) == Zeros(|rows|)
  {
  }

  /** The centroid of a cluster holding every point is the data set's mean. */
  lemma UpdateAllInOne(rows: seq<Point>, d: nat, cs: seq<Point>, f: nat)
    requires Rectangular(rows, d) && Rectangular(cs, d) && |cs| == 1 && |rows| > 0 && f < d
    ensures Update(rows, d, Zeros(|rows|), cs)[0][f] == Seqs.Mean(Column(rows, d, f))
  {
    var zeros := Zeros(|rows|);
    assert zeros[0] == 0;
    CountAllZeros(zeros);
    ClusterSumAllSame(rows, d, zeros, f);
    var c := Update(rows, d, zeros, cs)[0][f];
    assert c == ClusterSum(rows, d, zeros, 0, f) / (|rows| as real);
  }

  /**
   * With one cluster, every point is labelled 0, the loop ends after its
   * first round, and the centroid is the mean of the whole data set,
   * whatever the random start.
   */
  lemma KMeansSingleCluster(rows: seq<Point>, d: nat, maxIterations: int, draws: seq<seq<real>>, f: nat)
    requires Rectangular(rows, d) && UnitDraws(draws, d) && |draws| == 1
    requires |rows| > 0 && maxIterations >= 1 && f < d
    ensures KMeans(rows, d, 1, maxIterations, draws).Ok?
    ensures var r := KMeans(rows, d, 1, maxIterations, draws).value;
      r.iterations == 1
      && (forall i :: 0 <= i < |rows| ==> r.clusters[i] == 0)
      && r.centroids[0][f] == Seqs.Mean(Column(rows, d, f))
  {
    var cs := InitialCentroids(rows, d, draws);
    var zeros := Zeros(|rows|);
    AssignSingle(rows, d, cs, zeros);
    var moved := Update(rows, d, zeros, cs);
    var res := KMeansResult(zeros, moved, 1);
    assert Lloyd(rows, d, cs, zeros, 0, maxIterations) == res;
    assert KMeans(rows, d, 1, maxIterations, draws) == Ok(res);
    UpdateAllInOne(rows, d, cs, f);
    assert res.centroids[0][f] == moved[0][f];
  }

  lemma {:induction false} CountAllZeros(s: seq<int>)
    requires forall i :: 0 <= i < |s| ==> s[i] == 0
    ensures Seqs.CountOf(s, 0) == |s|
    decreases |s|
  {
    if |s| > 0 {
      CountAllZeros(s[..|s| - 1]);
    }
  }

  // ---------------------------------------------------------------------
  // DBSCAN
  // ---------------------------------------------------------------------

  const Unvisited: int := -1
  const Noise: int := -2

  predicate IsUnvisited(v: int)
  {
    v == Unvisited
  }

  /** `Math.sqrt(dist) <= eps` between points i and j. */
  predicate Within(m: MathLib, rows: seq<Point>, d: nat, i: nat, j: nat, eps: real)
    requires Rectangular(rows, d) && i < |rows| && j < |rows|
  {
    m.sqrt(Dist2(rows[i], rows[j])) <= eps
  }

  /** The indices below `upto`, other than i, of points within eps of point i, in index order. */
  function NeighborsBelow(m: MathLib, rows: seq<Point>, d: nat, i: nat, eps: real, upto: nat): (r: seq<nat>)
    requires Rectangular(rows, d) && i < |rows| && upto <= |rows|
    ensures forall x: nat :: x in r <==> x < upto && x != i && Within(m, rows, d, i, x, eps)
    ensures forall k :: 0 <= k < |r| ==> r[k] < upto
  {
    if upto == 0 then []
    else
      var r := NeighborsBelow(m, rows, d, i, eps, upto - 1);
      if upto - 1 != i && Within(m, rows, d, i, upto - 1, eps) then r + [upto - 1] else r
  }

  /** `getNeighbors(point, index)`: every other point within eps. */
  function Neighbors(m: MathLib, rows: seq<Point>, d: nat, i: nat, eps: real): (r: seq<nat>)
    requires Rectangular(rows, d) && i < |rows|
    ensures forall x: nat :: x in r <==> x < |rows| && x != i && Within(m, rows, d, i, x, eps)
    ensures forall k :: 0 <= k < |r| ==> r[k] < |rows|
  {
    NeighborsBelow(m, rows, d, i, eps, |rows|)
  }

  /**
   * `expandCluster(point, neighbors, cluster)`: claims the seed, then walks
   * the growing neighbour queue, claiming every point still unvisited and
   * queueing the not-yet-queued neighbours of those that are core points.
   * Only unvisited points are ever written.
   */
  method ExpandCluster(m: MathLib, rows: seq<Point>, d: nat, eps: real, minPts: int,
                       labels0: seq<int>, point: nat, neighbors: seq<nat>, cluster: nat)
    returns (labels: seq<int>)
    requires Rectangular(rows, d) && |labels0| == |rows| && point < |rows|
    requires labels0[point] == Unvisited
    requires forall k :: 0 <= k < |neighbors| ==> neighbors[k] < |rows|
    ensures |labels| == |labels0| && labels[point] == cluster
    ensures forall x :: 0 <= x < |labels| ==> labels[x] == labels0[x] || (labels0[x] == Unvisited && labels[x] == cluster)
    ensures forall k :: 0 <= k < |neighbors| ==> labels[neighbors[k]] != Unvisited
  {
    labels := labels0[point := cluster];
    var queue: seq<nat> := neighbors;
    var i := 0;
    while i < |queue|
      invariant 0 <= i <= |queue| && |neighbors| <= |queue|
      invariant queue[..|neighbors|] == neighbors
      invariant forall k :: 0 <= k < |queue| ==> queue[k] < |rows|
      invariant |labels| == |labels0| && labels[point] == cluster
      invariant forall x :: 0 <= x < |labels| ==> labels[x] == labels0[x] || (labels0[x] == Unvisited && labels[x] == cluster)
      invariant forall k :: 0 <= k < i ==> labels[queue[k]] != Unvisited
      decreases Seqs.Count(labels, IsUnvisited), |queue| - i
    {
      var current := queue[i];
      if labels[current] == Unvisited {
        Seqs.CountUpdate(labels, current, cluster, IsUnvisited);
        labels := labels[current := cluster];
        var more := Neighbors(m, rows, d, current, eps);
        if |more| >= minPts {
          var added := Seqs.Filter<nat>(more, x => x !in queue);
          assert forall k :: 0 <= k < |added| ==> added[k] in more;
          queue := queue + added;
        }
      }
      i := i + 1;
    }
    assert forall k :: 0 <= k < |neighbors| ==> neighbors[k] == queue[k];
  }

  /** Some point labelled c has at least minPts neighbours. */
  predicate HasCoreSeed(m: MathLib, rows: seq<Point>, d: nat, eps: real, minPts: int, labels: seq<int>, c: int)
    requires Rectangular(rows, d) && |labels| == |rows|
  {
    exists i :: 0 <= i < |labels| && labels[i] == c && |Neighbors(m, rows, d, i, eps)| >= minPts
  }

  /**
   * `dbscan(data, eps, minPts)`.  Returns the labels and, as
   * `clustersFound`, the number of cluster ids issued (the final value of
   * `currentCluster`).
   */
  method Dbscan(m: MathLib, rows: seq<Point>, d: nat, eps: real, minPts: int)
    returns (labels: seq<int>, clustersFound: nat)
    requires Rectangular(rows, d)
    ensures |labels| == |rows|
    ensures forall i :: 0 <= i < |labels| ==> labels[i] == Noise || 0 <= labels[i] < clustersFound
    ensures forall i :: 0 <= i < |labels| && labels[i] == Noise ==> |Neighbors(m, rows, d, i, eps)| < minPts
    ensures forall c :: 0 <= c < clustersFound ==> HasCoreSeed(m, rows, d, eps, minPts, labels, c)
  {
    var n := |rows|;
    labels := seq(n, _ => Unvisited);
    clustersFound := 0;
    ghost var seeds: seq<nat> := [];
    var i := 0;
    while i < n
      invariant 0 <= i <= n && |labels| == n
      invariant forall j :: 0 <= j < i ==> labels[j] != Unvisited
      invariant forall j :: 0 <= j < n ==> labels[j] == Unvisited || labels[j] == Noise || 0 <= labels[j] < clustersFound
      invariant forall j :: 0 <= j < n && labels[j] == Noise ==> |Neighbors(m, rows, d, j, eps)| < minPts
      invariant |seeds| == clustersFound
      invariant forall c :: 0 <= c < |seeds| ==>
        seeds[c] < n && labels[seeds[c]] == c && |Neighbors(m, rows, d, seeds[c], eps)| >= minPts
    {
      if labels[i] == Unvisited {
        var nb := Neighbors(m, rows, d, i, eps);
        if |nb| < minPts {
          labels := labels[i := Noise];
        } else {
          labels := ExpandCluster(m, rows, d, eps, minPts, labels, i, nb, clustersFound);
          seeds := seeds + [i];
          clustersFound := clustersFound + 1;
        }
      }
      i := i + 1;
    }
    forall c | 0 <= c < clustersFound
      ensures HasCoreSeed(m, rows, d, eps, minPts, labels, c)
    {
      var s := seeds[c];
      assert labels[s] == c;
    }
  }

  // ---------------------------------------------------------------------
  // Agglomerative clustering with complete linkage
  // ---------------------------------------------------------------------

  /** Euclidean distance between points i and j (`distances[i][j]`). */
  function Distance(m: MathLib, rows: seq<Point>, d: nat, i: nat, j: nat): real
    requires Rectangular(rows, d) && i < |rows| && j < |rows|
  {
    m.sqrt(Dist2(rows[i], rows[j]))
  }

  predicate IndicesBelow(c: seq<nat>, n: nat)
  {
    forall k :: 0 <= k < |c| ==> c[k] < n
  }

  /** The distances from point p to the members of cluster b. */
  function DistancesTo(m: MathLib, rows: seq<Point>, d: nat, p: nat, b: seq<nat>): (r: seq<real>)
    requires Rectangular(rows, d) && p < |rows| && IndicesBelow(b, |rows|)
    ensures |r| == |b|
    ensures forall k :: 0 <= k < |b| ==> r[k] == Distance(m, rows, d, p, b[k])
  {
    seq(|b|, k requires 0 <= k < |b| => Distance(m, rows, d, p, b[k]))
  }

  /** For each member of a, its largest distance to a member of b. */
  function FarthestDistances(m: MathLib, rows: seq<Point>, d: nat, a: seq<nat>, b: seq<nat>): (r: seq<real>)
    requires Rectangular(rows, d) && |b| > 0 && IndicesBelow(a, |rows|) && IndicesBelow(b, |rows|)
    ensures |r| == |a|
    ensures forall k :: 0 <= k < |a| ==> r[k] == Seqs.Max(DistancesTo(m, rows, d, a[k], b))
  {
    seq(|a|, k requires 0 <= k < |a| => Seqs.Max(DistancesTo(m, rows, d, a[k], b)))
  }

  /** Complete linkage: the largest distance between a member of a and a member of b. */
  function Linkage(m: MathLib, rows: seq<Point>, d: nat, a: seq<nat>, b: seq<nat>): real
    requires Rectangular(rows, d) && |a| > 0 && |b| > 0 && IndicesBelow(a, |rows|) && IndicesBelow(b, |rows|)
  {
    Seqs.Max(FarthestDistances(m, rows, d, a, b))
  }

  /** The linkage bounds every cross distance and is one of them. */
  lemma LinkageIsMaxDistance(m: MathLib, rows: seq<Point>, d: nat, a: seq<nat>, b: seq<nat>)
    requires Rectangular(rows, d) && |a| > 0 && |b| > 0 && IndicesBelow(a, |rows|) && IndicesBelow(b, |rows|)
    ensures forall i, j :: 0 <= i < |a| && 0 <= j < |b| ==> Distance(m, rows, d, a[i], b[j]) <= Linkage(m, rows, d, a, b)
    ensures exists i, j :: 0 <= i < |a| && 0 <= j < |b| && Distance(m, rows, d, a[i], b[j]) == Linkage(m, rows, d, a, b)
  {
    var fs := FarthestDistances(m, rows, d, a, b);
    var top := Seqs.Max(fs);
    forall i, j | 0 <= i < |a| && 0 <= j < |b|
      ensures Distance(m, rows, d, a[i], b[j]) <= top
    {
      var ds := DistancesTo(m, rows, d, a[i], b);
      assert ds[j] <= Seqs.Max(ds);
      assert fs[i] <= top;
    }
    var i :| 0 <= i < |fs| && fs[i] == top;
    var ds := DistancesTo(m, rows, d, a[i], b);
    var j :| 0 <= j < |ds| && ds[j] == Seqs.Max(ds);
    assert Distance(m, rows, d, a[i], b[j]) == top;
  }

  /** Every cluster is non-empty and names points of the data set. */
  predicate WellFormed(cs: seq<seq<nat>>, n: nat)
  {
    forall c :: 0 <= c < |cs| ==> |cs[c]| > 0 && IndicesBelow(cs[c], n)
  }

  /** Pair (i, j) comes before pair (a, b) in the scan order of the two loops. */
  predicate Before(i: int, j: int, a: int, b: int)
  {
    i < a || (i == a && j < b)
  }

  /** The complete linkage of clusters x and y. */
  function Link(m: MathLib, rows: seq<Point>, d: nat, cs: seq<seq<nat>>, x: nat, y: nat): real
    requires Rectangular(rows, d) && WellFormed(cs, |rows|) && x < |cs| && y < |cs|
  {
    Linkage(m, rows, d, cs[x], cs[y])
  }

  /** The complete linkage of every pair of clusters, row x and column y. */
  function LinkTable(m: MathLib, rows: seq<Point>, d: nat, cs: seq<seq<nat>>): (t: seq<seq<real>>)
    requires Rectangular(rows, d) && WellFormed(cs, |rows|)
    ensures |t| == |cs| && Rectangular(t, |cs|)
    ensures forall x, y :: 0 <= x < |cs| && 0 <= y < |cs| ==> t[x][y] == Link(m, rows, d, cs, x, y)
  {
    seq(|cs|, x requires 0 <= x < |cs| => seq(|cs|, y requires 0 <= y < |cs| => Link(m, rows, d, cs, x, y)))
  }

  /**
   * The pair of clusters to merge: the first pair (i < j) in scan order
   * whose complete linkage is smallest.
   */
  method ClosestPair(m: MathLib, rows: seq<Point>, d: nat, cs: seq<seq<nat>>) returns (a: nat, b: nat)
    requires Rectangular(rows, d) && |cs| >= 2 && WellFormed(cs, |rows|)
    ensures a < b < |cs|
    ensures forall i, j :: 0 <= i < j < |cs| ==> Link(m, rows, d, cs, a, b) <= Link(m, rows, d, cs, i, j)
    ensures forall i, j :: 0 <= i < j < |cs| && Before(i, j, a, b) ==> Link(m, rows, d, cs, a, b) < Link(m, rows, d, cs, i, j)
  {
    var t := LinkTable(m, rows, d, cs);
    a, b := SmallestPair(t);
  }

  /** The first pair (i < j) in scan order holding the smallest entry above the diagonal. */
  method SmallestPair(t: seq<seq<real>>) returns (a: nat, b: nat)
    requires |t| >= 2 && Rectangular(t, |t|)
    ensures a < b < |t|
    ensures forall i, j :: 0 <= i < j < |t| ==> t[a][b] <= t[i][j]
    ensures forall i, j :: 0 <= i < j < |t| && Before(i, j, a, b) ==> t[a][b] < t[i][j]
  {
    var best := t[0][1];
    a, b := 0, 1;
    var i := 0;
    while i < |t|
      invariant 0 <= i <= |t|
      invariant a < b < |t| && best == t[a][b]
      invariant i == 0 ==> a == 0 && b == 1
      invariant i > 0 ==> a < i
      invariant forall x, y :: 0 <= x < y < |t| && x < i ==> best <= t[x][y]
      invariant forall x, y :: 0 <= x < y < |t| && x < i && Before(x, y, a, b) ==> best < t[x][y]
    {
      a, b, best := ScanRow(t, i, a, b, best);
      i := i + 1;
    }
  }

  /**
   * One pass of the inner loop: pairs (i, j) for j > i, replacing the best
   * pair only on a strictly smaller linkage.  The very first pair (0, 1) is
   * always taken, as `maxDist < Infinity` holds for it.
   */
  method ScanRow(t: seq<seq<real>>, i: nat, a0: nat, b0: nat, best0: real) returns (a: nat, b: nat, best: real)
    requires Rectangular(t, |t|) && i < |t|
    requires a0 < b0 < |t| && best0 == t[a0][b0]
    requires i == 0 ==> a0 == 0 && b0 == 1
    requires i > 0 ==> a0 < i
    requires forall x, y :: 0 <= x < y < |t| && x < i ==> best0 <= t[x][y]
    requires forall x, y :: 0 <= x < y < |t| && x < i && Before(x, y, a0, b0) ==> best0 < t[x][y]
    ensures a < b < |t| && best == t[a][b] && a <= i
    ensures forall x, y :: 0 <= x < y < |t| && x <= i ==> best <= t[x][y]
    ensures forall x, y :: 0 <= x < y < |t| && x <= i && Before(x, y, a, b) ==> best < t[x][y]
  {
    a, b, best := a0, b0, best0;
    var j := i + 1;
    if i == 0 {
      // the first pair is taken unconditionally
      j := 2;
    }
    while j < |t|
      invariant i + 1 <= j <= |t|
      invariant a < b < |t| && best == t[a][b] && Before(a, b, i, j)
      invariant forall x, y :: 0 <= x < y < |t| && Before(x, y, i, j) ==> best <= t[x][y]
      invariant forall x, y :: 0 <= x < y < |t| && Before(x, y, i, j) && Before(x, y, a, b) ==> best < t[x][y]
    {
      if t[i][j] < best {
        a, b, best := i, j, t[i][j];
      }
      j := j + 1;
    }
  }

  /** All cluster members, with multiplicity. */
  function Members(cs: seq<seq<nat>>): multiset<nat>
  {
    if |cs| == 0 then multiset{} else Members(cs[..|cs| - 1]) + multiset(cs[|cs| - 1])
  }

  lemma {:induction false} MembersAppend(s: seq<seq<nat>>, t: seq<seq<nat>>)
    ensures Members(s + t) == Members(s) + Members(t)
    decreases |t|
  {
    if |t| > 0 {
      assert (s + t)[..|s + t| - 1] == s + t[..|t| - 1];
      MembersAppend(s, t[..|t| - 1]);
    } else {
      assert s + t == s;
    }
  }

  lemma {:induction false} MemberOf(cs: seq<seq<nat>>, p: nat)
    ensures p in Members(cs) <==> exists c :: 0 <= c < |cs| && p in cs[c]
    decreases |cs|
  {
    if |cs| > 0 {
      MemberOf(cs[..|cs| - 1], p);
      assert forall c :: 0 <= c < |cs| - 1 ==> cs[..|cs| - 1][c] == cs[c];
    }
  }

  /** A point that occurs in two different clusters occurs twice among the members. */
  lemma {:induction false} MemberTwice(cs: seq<seq<nat>>, p: nat, c1: nat, c2: nat)
    requires c1 < c2 < |cs| && p in cs[c1] && p in cs[c2]
    ensures Members(cs)[p] >= 2
    decreases |cs|
  {
    var init := cs[..|cs| - 1];
    if c2 < |cs| - 1 {
      MemberTwice(init, p, c1, c2);
    } else {
      assert init[c1] == cs[c1];
      MemberOf(init, p);
    }
  }

  lemma SingletonsPartition(n: nat)
    ensures Members(seq(n, i => [i])) == multiset(Seqs.Range(n))
  {
    if n > 0 {
      var cs := seq(n, i => [i]);
      assert cs[..n - 1] == seq(n - 1, i => [i]);
      SingletonsPartition(n - 1);
      assert Seqs.Range(n) == Seqs.Range(n - 1) + [n - 1];
    }
  }

  lemma MembersSingle(c: seq<nat>)
    ensures Members([c]) == multiset(c)
  {
    assert [c][..0] == [];
  }

  lemma MembersUpdate(cs: seq<seq<nat>>, a: nat, x: seq<nat>)
    requires a < |cs|
    ensures Members(cs[a := x]) + multiset(cs[a]) == Members(cs) + multiset(x)
  {
    var pre, post := cs[..a], cs[a + 1..];
    assert cs == pre + [cs[a]] + post;
    assert cs[a := x] == pre + [x] + post;
    MembersAppend(pre + [cs[a]], post);
    MembersAppend(pre, [cs[a]]);
    MembersAppend(pre + [x], post);
    MembersAppend(pre, [x]);
    MembersSingle(cs[a]);
    MembersSingle(x);
  }

  lemma MembersRemove(cs: seq<seq<nat>>, b: nat)
    requires b < |cs|
    ensures Members(Seqs.RemoveAt(cs, b)) + multiset(cs[b]) == Members(cs)
  {
    Seqs.RemoveAtSplits(cs, b);
    MembersSplit(cs[..b], cs[b], cs[b + 1..]);
  }

  /** Taking one cluster out of the middle of a list takes exactly its members out. */
  lemma MembersSplit(pre: seq<seq<nat>>, c: seq<nat>, post: seq<seq<nat>>)
    ensures Members(pre + [c] + post) == Members(pre + post) + multiset(c)
  {
    MembersAppend(pre + [c], post);
    MembersAppend(pre, [c]);
    MembersAppend(pre, post);
    MembersSingle(c);
  }

  /** Merging cluster b into cluster a and removing b keeps the multiset of members. */
  lemma MergeKeepsMembers(cs: seq<seq<nat>>, a: nat, b: nat)
    requires a < b < |cs|
    ensures Members(Seqs.RemoveAt(cs[a := cs[a] + cs[b]], b)) == Members(cs)
  {
    var merged := cs[a := cs[a] + cs[b]];
    MembersUpdate(cs, a, cs[a] + cs[b]);
    MembersRemove(merged, b);
    assert merged[b] == cs[b];
    assert multiset(cs[a] + cs[b]) == multiset(cs[a]) + multiset(cs[b]);
    var rest := Members(Seqs.RemoveAt(merged, b));
    assert rest + multiset(cs[b]) + multiset(cs[a]) == Members(cs) + multiset(cs[a]) + multiset(cs[b]);
    forall x: nat
      ensures rest[x] == Members(cs)[x]
    {
      assert (rest + multiset(cs[b]) + multiset(cs[a]))[x] == rest[x] + multiset(cs[b])[x] + multiset(cs[a])[x];
    }
  }

  /** Merging cluster b into cluster a leaves one cluster fewer that still split the points. */
  lemma MergeKeepsPartition(cs: seq<seq<nat>>, n: nat, a: nat, b: nat)
    requires Partition(cs, n) && a < b < |cs|
    ensures Partition(Seqs.RemoveAt(cs[a := cs[a] + cs[b]], b), n)
    ensures |Seqs.RemoveAt(cs[a := cs[a] + cs[b]], b)| == |cs| - 1
  {
    MergeKeepsMembers(cs, a, b);
    var merged := cs[a := cs[a] + cs[b]];
    var r := Seqs.RemoveAt(merged, b);
    forall c | 0 <= c < |r|
      ensures |r[c]| > 0 && IndicesBelow(r[c], n)
    {
      if c == a {
        assert r[c] == cs[a] + cs[b];
        assert IndicesBelow(cs[a], n) && IndicesBelow(cs[b], n);
        forall k | 0 <= k < |r[c]|
          ensures r[c][k] < n
        {
          if k >= |cs[a]| {
            assert r[c][k] == cs[b][k - |cs[a]|];
          }
        }
      } else if c < b {
        assert r[c] == cs[c];
      } else {
        assert r[c] == cs[c + 1];
      }
    }
  }

  /** The clusters split the points 0 .. n-1: each point occurs exactly once. */
  predicate Partition(cs: seq<seq<nat>>, n: nat)
  {
    WellFormed(cs, n) && Members(cs) == multiset(Seqs.Range(n))
  }

  /** The index of the last cluster holding p, or 0 if none does (`assignments[point] = i`, later clusters overwriting). */
  function LabelOf(cs: seq<seq<nat>>, p: nat): (r: nat)
    ensures |cs| > 0 ==> r < |cs|
    ensures |cs| == 0 ==> r == 0
    ensures (exists c :: 0 <= c < |cs| && p in cs[c]) ==> p in cs[r]
    ensures forall c :: r < c < |cs| ==> p !in cs[c]
  {
    if |cs| == 0 then 0
    else if p in cs[|cs| - 1] then |cs| - 1
    else
      var init := cs[..|cs| - 1];
      assert forall c :: 0 <= c < |cs| - 1 ==> init[c] == cs[c];
      LabelOf(init, p)
  }

  lemma PointInCluster(cs: seq<seq<nat>>, n: nat, p: nat, c: nat)
    requires Partition(cs, n) && p < n && c < |cs| && p in cs[c]
    ensures LabelOf(cs, p) == c
  {
    var r := LabelOf(cs, p);
    assert Seqs.Range(n)[p] == p;
    assert multiset(Seqs.Range(n))[p] == 1 by {
      RangeOnce(n, p);
    }
    if r != c {
      assert c < r;
      MemberTwice(cs, p, c, r);
    }
  }

  lemma RangeOnce(n: nat, p: nat)
    requires p < n
    ensures multiset(Seqs.Range(n))[p] == 1
  {
    if n > 0 {
      assert Seqs.Range(n) == Seqs.Range(n - 1) + [n - 1];
      if p < n - 1 {
        RangeOnce(n - 1, p);
      } else {
        assert p !in Seqs.Range(n - 1);
      }
    }
  }

  function MinInt(a: int, b: int): int
  {
    if a < b then a else b
  }

  /**
   * `hierarchicalClustering(data, k)`.  Merging needs two clusters; the
   * loop reaches a single cluster that is still more than k only when
   * k < 1, and then reading the missing second cluster throws.
   */
  method HierarchicalClustering(m: MathLib, rows: seq<Point>, d: nat, k: int) returns (r: Result<seq<int>, string>)
    requires Rectangular(rows, d)
    ensures r.Ok? <==> k >= 1 || (|rows| == 0 && k == 0)
    ensures r.Ok? ==> |r.value| == |rows|
    ensures r.Ok? ==> forall p :: 0 <= p < |rows| ==> 0 <= r.value[p] < MinInt(|rows|, k)
    ensures r.Ok? ==> forall c :: 0 <= c < MinInt(|rows|, k) ==> c in r.value
  {
    var n := |rows|;
    var cs: seq<seq<nat>> := seq(n, i => [i]);
    SingletonsPartition(n);
    while |cs| > k
      invariant Partition(cs, n) && |cs| <= n
      invariant k >= 0 ==> MinInt(n, k) <= |cs|
      invariant n > 0 ==> 1 <= |cs|
      decreases |cs|
    {
      if |cs| < 2 {
        return Err("TypeError: clusters[1] is not iterable");
      }
      var a, b := ClosestPair(m, rows, d, cs);
      MergeKeepsPartition(cs, n, a, b);
      cs := Seqs.RemoveAt(cs[a := cs[a] + cs[b]], b);
    }
    assert |cs| == MinInt(n, k);
    r := Ok(Assignments(cs, n));
  }

  /** `assignments`: each point gets the index of its cluster. */
  function Assignments(cs: seq<seq<nat>>, n: nat): (labels: seq<int>)
    requires Partition(cs, n)
    ensures |labels| == n
    ensures forall p :: 0 <= p < n ==> 0 <= labels[p] < |cs| && p in cs[labels[p]]
    ensures forall c :: 0 <= c < |cs| ==> c in labels
  {
    var labels := seq(n, p requires 0 <= p < n => LabelOf(cs, p) as int);
    AssignmentsFacts(cs, n, labels);
    labels
  }

  lemma AssignmentsFacts(cs: seq<seq<nat>>, n: nat, labels: seq<int>)
    requires Partition(cs, n)
    requires |labels| == n && forall p :: 0 <= p < n ==> labels[p] == LabelOf(cs, p) as int
    ensures forall p :: 0 <= p < n ==> 0 <= labels[p] < |cs| && p in cs[labels[p]]
    ensures forall c :: 0 <= c < |cs| ==> c in labels
  {
    forall p | 0 <= p < n
      ensures 0 <= labels[p] < |cs| && p in cs[labels[p]]
    {
      assert p in multiset(Seqs.Range(n)) by { assert Seqs.Range(n)[p] == p; }
      MemberOf(cs, p);
    }
    forall c | 0 <= c < |cs|
      ensures c in labels
    {
      var p := cs[c][0];
      assert p in Members(cs) by { MemberOf(cs, p); }
      assert p < n by { assert p in multiset(Seqs.Range(n)); }
      PointInCluster(cs, n, p, c);
      assert labels[p] == c;
    }
  }

  // ---------------------------------------------------------------------
  // Per-cluster statistics
  // ---------------------------------------------------------------------

  datatype ClusterStats = ClusterStats(size: nat, center: seq<real>, variance: seq<real>)

  /** The rows labelled c, in order (`data.filter((_, i) => clusters[i] === cluster)`). */
  function RowsOf(rows: seq<Point>, d: nat, labels: seq<int>, c: int): (r: seq<Point>)
    requires Rectangular(rows, d) && |labels| == |rows|
    ensures |r| == Seqs.CountOf(labels, c)
    ensures Rectangular(r, d)
    ensures forall x :: x in r ==> x in rows
    decreases |rows|
  {
    if |rows| == 0 then []
    else
      RowsOf(rows[..|rows| - 1], d, labels[..|labels| - 1], c)
        + (if labels[|labels| - 1] == c then [rows[|rows| - 1]] else [])
  }

  /**
   * Size, per-field mean and per-field population variance of one
   * non-empty cluster: each centre is the field's sum over the points
   * labelled c divided by their number.
   */
  function StatsOf(rows: seq<Point>, d: nat, labels: seq<int>, c: int): (s: ClusterStats)
    requires Rectangular(rows, d) && |labels| == |rows| && c in labels
    ensures s.size == Seqs.CountOf(labels, c) && s.size >= 1
    ensures |s.center| == d && |s.variance| == d
    ensures forall f :: 0 <= f < d ==> s.center[f] == ClusterSum(rows, d, labels, c, f) / (s.size as real)
    ensures forall f :: 0 <= f < d ==> s.variance[f] >= 0.0
  {
    Seqs.CountOfZero(labels, c);
    var members := RowsOf(rows, d, labels, c);
    var size := |members|;
    var center := seq(d, f requires 0 <= f < d => Seqs.Sum(Column(members, d, f)) / (size as real));
    var variance := seq(d, f requires 0 <= f < d => Seqs.PopulationVariance(Column(members, d, f), center[f]));
    CentersAreMeans(rows, d, labels, c, center);
    ClusterStats(size, center, variance)
  }

  /** Each field's sum over the members is its sum along the label, so the centres are those sums over the count. */
  lemma CentersAreMeans(rows: seq<Point>, d: nat, labels: seq<int>, c: int, center: seq<real>)
    requires Rectangular(rows, d) && |labels| == |rows| && Seqs.CountOf(labels, c) > 0 && |center| == d
    requires forall f :: 0 <= f < d ==>
      center[f] == Seqs.Sum(Column(RowsOf(rows, d, labels, c), d, f)) / (Seqs.CountOf(labels, c) as real)
    ensures forall f :: 0 <= f < d ==> center[f] == ClusterSum(rows, d, labels, c, f) / (Seqs.CountOf(labels, c) as real)
  {
    forall f | 0 <= f < d
      ensures Seqs.Sum(Column(RowsOf(rows, d, labels, c), d, f)) == ClusterSum(rows, d, labels, c, f)
    {
      ColumnSumIsClusterSum(rows, d, labels, c, f);
    }
  }

  /** Summing field f over the rows labelled c, or along the label, gives the same total. */
  lemma {:induction false} ColumnSumIsClusterSum(rows: seq<Point>, d: nat, labels: seq<int>, c: int, f: nat)
    requires Rectangular(rows, d) && |labels| == |rows| && f < d
    ensures Seqs.Sum(Column(RowsOf(rows, d, labels, c), d, f)) == ClusterSum(rows, d, labels, c, f)
    decreases |rows|
  {
    if |rows| > 0 {
      var init, initLabels := rows[..|rows| - 1], labels[..|labels| - 1];
      ColumnSumIsClusterSum(init, d, initLabels, c, f);
      var before := RowsOf(init, d, initLabels, c);
      var last := if labels[|labels| - 1] == c then [rows[|rows| - 1]] else [];
      assert Column(before + last, d, f) == Column(before, d, f) + Column(last, d, f);
      Seqs.SumAppend(Column(before, d, f), Column(last, d, f));
    }
  }

  /**
   * A field's variance within a cluster is 0 exactly when every member
   * has the centre's value in that field.
   */
  lemma ClusterVarianceZero(rows: seq<Point>, d: nat, labels: seq<int>, c: int, f: nat)
    requires Rectangular(rows, d) && |labels| == |rows| && c in labels && f < d
    ensures StatsOf(rows, d, labels, c).variance[f] == 0.0 <==>
      forall x :: x in RowsOf(rows, d, labels, c) ==> x[f] == StatsOf(rows, d, labels, c).center[f]
  {
    var s := StatsOf(rows, d, labels, c);
    var members := RowsOf(rows, d, labels, c);
    var column := Column(members, d, f);
    assert s.variance[f] == Seqs.PopulationVariance(column, s.center[f]);
    Seqs.PopulationVarianceZero(column, s.center[f]);
    assert (forall i :: 0 <= i < |column| ==> column[i] == s.center[f]) <==>
      (forall x :: x in members ==> x[f] == s.center[f]) by {
      if forall i :: 0 <= i < |column| ==> column[i] == s.center[f] {
        forall x | x in members
          ensures x[f] == s.center[f]
        {
          var i :| 0 <= i < |members| && members[i] == x;
          assert column[i] == x[f];
        }
      }
    }
  }

  /** `clusterStats`: one entry per label that occurs, with its size and the mean of every field. */
  function ClusterStatistics(rows: seq<Point>, d: nat, labels: seq<int>): (r: map<int, ClusterStats>)
    requires Rectangular(rows, d) && |labels| == |rows|
    ensures forall c :: c in r <==> c in labels
    ensures forall c :: c in r ==> r[c].size == Seqs.CountOf(labels, c) && r[c].size >= 1
    ensures forall c :: c in r ==> |r[c].center| == d
    ensures forall c, f :: c in r && 0 <= f < d ==>
      r[c].center[f] == ClusterSum(rows, d, labels, c, f) / (r[c].size as real)
  {
    map c | c in labels :: StatsOf(rows, d, labels, c)
  }

  /** The cluster sizes add up to the number of points. */
  lemma ClusterSizesSumToCount(rows: seq<Point>, d: nat, labels: seq<int>)
    requires Rectangular(rows, d) && |labels| == |rows|
    ensures Seqs.CountsOver(Seqs.Distinct(labels), labels) == |rows|
  {
    Seqs.GroupCountsSumToLength(labels);
  }
}
