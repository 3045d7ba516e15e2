/**
 * Descriptive statistics and the seasonality test of the statistical
 * analysis panel.  A metric column is a sequence of `Option<real>`: `None`
 * stands for a value `isNaN` rejects (a missing field or a non-numeric
 * string).  The two-decimal `toFixed` formatting of the results is not
 * modelled; the numbers are kept exact.
 */
module StatisticalAnalysis {
  import opened Wrappers
  import Seqs
  import opened Numerics

  /** `values.filter(v => !isNaN(v))`. */
  function Retained(column: seq<Option<real>>): (values: seq<real>)
    ensures |values| <= |column|
    ensures |values| == 0 <==> forall i :: 0 <= i < |column| ==> column[i].None?
    ensures forall v :: v in values <==> Some(v) in column
  {
    if |column| == 0 then []
    else
      var init := Retained(column[..|column| - 1]);
      var last := column[|column| - 1];
      assert column == column[..|column| - 1] + [last];
      assert forall i :: 0 <= i < |column| - 1 ==> column[..|column| - 1][i] == column[i];
      if last.Some? then init + [last.value] else init
  }

  function Ascending(x: real): real
  {
    x
  }

  /** `[...values].sort((a, b) => a - b)`: a sorted copy. */
  function SortedCopy(values: seq<real>): (s: seq<real>)
    ensures |s| == |values| && multiset(s) == multiset(values)
    ensures forall i, j :: 0 <= i <= j < |s| ==> s[i] <= s[j]
  {
    var s := Seqs.SortByKey(values, Ascending);
    assert forall i, j :: 0 <= i < j < |s| ==> Ascending(s[i]) <= Ascending(s[j]);
    s
  }

  /** The middle element for odd n, the mean of the two middle elements for even n. */
  function Median(sorted: seq<real>): real
    requires |sorted| > 0
  {
    var n := |sorted|;
    if n % 2 == 0 then (sorted[n / 2 - 1] + sorted[n / 2]) / 2.0 else sorted[n / 2]
  }

  /** `Math.floor(n * 0.25)` and `Math.floor(n * 0.75)` are the integer quotients n/4 and 3n/4. */
  lemma QuartileIndices(n: nat)
    ensures Floor((n as real) * 0.25) == n / 4
    ensures Floor((n as real) * 0.75) == (3 * n) / 4
  {
    var q, r := n / 4, n % 4;
    assert n == 4 * q + r;
    assert (n as real) * 0.25 == q as real + (r as real) * 0.25;
    var q', r' := (3 * n) / 4, (3 * n) % 4;
    assert 3 * n == 4 * q' + r';
    assert (n as real) * 0.75 == q' as real + (r' as real) * 0.25;
  }

  function Cube(x: real): real
  {
    x * x * x
  }

  function Fourth(x: real): real
  {
    Seqs.Square(x) * Seqs.Square(x)
  }

  function Deviations(values: seq<real>, center: real, power: real -> real): (r: seq<real>)
    ensures |r| == |values| && forall i :: 0 <= i < |values| ==> r[i] == power(values[i] - center)
  {
    seq(|values|, i requires 0 <= i < |values| => power(values[i] - center))
  }

  datatype Statistics = Statistics(
    mean: real, median: real, stdDev: real, q1: real, q3: real, iqr: real,
    skewness: real, kurtosis: real, n: nat)

  /** Denominator of the skewness: n times the cubed standard deviation. */
  function SkewnessScale(m: MathLib, values: seq<real>): real
    requires |values| > 0
  {
    (|values| as real) * Pow(m.sqrt(Seqs.Variance(values)), 3)
  }

  /** Denominator of the kurtosis: n times the squared variance. */
  function KurtosisScale(values: seq<real>): real
    requires |values| > 0
  {
    (|values| as real) * Pow(Seqs.Variance(values), 2)
  }

  /** Median and quartiles of a sorted copy: `sorted[floor(n/4)]`, the middle, `sorted[floor(3n/4)]`. */
  datatype Quartiles = Quartiles(q1: real, median: real, q3: real)

  function QuartilesOf(sorted: seq<real>): (r: Quartiles)
    requires |sorted| > 0
    requires forall i, j :: 0 <= i <= j < |sorted| ==> sorted[i] <= sorted[j]
    ensures r.median == Median(sorted)
    ensures r.q1 <= r.median <= r.q3
    ensures r.q1 in sorted && r.q3 in sorted
    ensures sorted[0] <= r.q1 && r.q3 <= sorted[|sorted| - 1]
  {
    var n := |sorted|;
    QuartileIndices(n);
    Quartiles(sorted[Floor((n as real) * 0.25)], Median(sorted), sorted[Floor((n as real) * 0.75)])
  }

  /** Third and fourth standardised moments; kurtosis is reported as excess kurtosis. */
  datatype Shape = Shape(skewness: real, kurtosis: real)

  function ShapeOf(m: MathLib, values: seq<real>): (r: Shape)
    requires |values| > 0
  {
    var mean := Seqs.Mean(values);
    Shape(
      m.divide(Seqs.Sum(Deviations(values, mean, Cube)), SkewnessScale(m, values)),
      m.divide(Seqs.Sum(Deviations(values, mean, Fourth)), KurtosisScale(values)) - 3.0)
  }

  /** `calculateStatistics(data, metric)`: null exactly when no numeric value remains. */
  function CalculateStatistics(m: MathLib, column: seq<Option<real>>): (r: Option<Statistics>)
    ensures r.None? <==> forall i :: 0 <= i < |column| ==> column[i].None?
    ensures r.Some? ==> r.value.n == |Retained(column)|
    ensures r.Some? ==> r.value.mean == Seqs.Mean(Retained(column))
    ensures r.Some? ==> r.value.stdDev == m.sqrt(Seqs.Variance(Retained(column)))
    ensures r.Some? ==> r.value.median == Median(SortedCopy(Retained(column)))
    ensures r.Some? ==> r.value.iqr == r.value.q3 - r.value.q1
    ensures r.Some? && Sound(m) ==> r.value.stdDev >= 0.0
    ensures r.Some? ==> r.value.q1 <= r.value.median <= r.value.q3
    ensures r.Some? ==> r.value.iqr >= 0.0
    ensures r.Some? ==> r.value.q1 in Retained(column) && r.value.q3 in Retained(column)
    ensures r.Some? ==> r.value.skewness == ShapeOf(m, Retained(column)).skewness
    ensures r.Some? ==> r.value.kurtosis == ShapeOf(m, Retained(column)).kurtosis
  {
    var values := Retained(column);
    var n := |values|;
    if n == 0 then None
    else
      var mean := Seqs.Sum(values) / (n as real);
      var sorted := SortedCopy(values);
      var quartiles := QuartilesOf(sorted);
      var variance := Seqs.Sum(Seqs.SquaredDeviations(values, mean)) / (n as real);
      var stdDev := m.sqrt(variance);
      var shape := ShapeOf(m, values);
      assert quartiles.q1 in multiset(values) && quartiles.q3 in multiset(values);
      SqrtOfVariance(m, values);
      Some(Statistics(mean, quartiles.median, stdDev, quartiles.q1, quartiles.q3,
        quartiles.q3 - quartiles.q1, shape.skewness, shape.kurtosis, n))
  }

  lemma SqrtOfVariance(m: MathLib, values: seq<real>)
    requires |values| > 0
    ensures Sound(m) ==> m.sqrt(Seqs.Variance(values)) >= 0.0
  {
    if Sound(m) {
      SqrtNonNegative(m, Seqs.Variance(values));
    }
  }

  /**
   * Once two values differ, skewness and kurtosis are the third and fourth
   * central moments over n·σ³ and n·σ⁴ (the latter minus 3).
   */
  lemma MomentsWhenValuesVary(m: MathLib, values: seq<real>, i: nat, j: nat)
    requires Sound(m)
    requires i < |values| && j < |values| && values[i] != values[j]
    ensures SkewnessScale(m, values) != 0.0 && KurtosisScale(values) != 0.0
    ensures ShapeOf(m, values).skewness
      == Seqs.Sum(Deviations(values, Seqs.Mean(values), Cube)) / SkewnessScale(m, values)
    ensures ShapeOf(m, values).kurtosis
      == Seqs.Sum(Deviations(values, Seqs.Mean(values), Fourth)) / KurtosisScale(values) - 3.0
  {
    VaryingValuesDefineMoments(m, values, i, j);
    var mean := Seqs.Mean(values);
    var a := Seqs.Sum(Deviations(values, mean, Cube));
    var b := Seqs.Sum(Deviations(values, mean, Fourth));
    assert m.divide(a, SkewnessScale(m, values)) == a / SkewnessScale(m, values);
    assert m.divide(b, KurtosisScale(values)) == b / KurtosisScale(values);
  }

  /** When every value is the same, the variance is 0 and both moment denominators are 0. */
  lemma ConstantValuesLeaveMomentsUndefined(m: MathLib, values: seq<real>)
    requires Sound(m) && |values| > 0
    requires forall i :: 0 <= i < |values| ==> values[i] == values[0]
    ensures Seqs.Variance(values) == 0.0
    ensures SkewnessScale(m, values) == 0.0 && KurtosisScale(values) == 0.0
  {
    var n := |values| as real;
    Seqs.SumConstant(values, values[0]);
    assert Seqs.Mean(values) == values[0];
    Seqs.SumZero(Seqs.SquaredDeviations(values, Seqs.Mean(values)));
  }

  /** When two values differ the variance is positive, so both moments are defined. */
  lemma VaryingValuesDefineMoments(m: MathLib, values: seq<real>, i: nat, j: nat)
    requires Sound(m) && i < |values| && j < |values| && values[i] != values[j]
    ensures Seqs.Variance(values) > 0.0
    ensures SkewnessScale(m, values) != 0.0 && KurtosisScale(values) != 0.0
  {
    Seqs.VaryingVariancePositive(values, i, j);
    var v := Seqs.Variance(values);
    var sd := m.sqrt(v);
    assert sd > 0.0;
    PowPositive(sd, 3);
    PowPositive(v, 2);
    ProductPositive(|values| as real, Pow(sd, 3), SkewnessScale(m, values));
    ProductPositive(|values| as real, Pow(v, 2), KurtosisScale(values));
  }


  lemma {:induction false} PowPositive(x: real, n: nat)
    requires x > 0.0
    ensures Pow(x, n) > 0.0
  {
    if n > 0 {
      PowPositive(x, n - 1);
      ProductPositive(x, Pow(x, n - 1), Pow(x, n));
    }
  }

  // ---------------------------------------------------------------------
  // Seasonality
  // ---------------------------------------------------------------------

  datatype Seasonality = Seasonality(period: nat, strength: real, significant: bool)

  /** `(values[i] - values[i + period]) ** 2` for i < n - period. */
  function LaggedSquares(values: seq<real>, period: nat): (r: seq<real>)
    requires period <= |values|
    ensures |r| == |values| - period
    ensures forall i :: 0 <= i < |r| ==> r[i] == Seqs.Square(values[i] - values[i + period])
  {
    var n := |values| - period;
    seq(n, (i: int) requires 0 <= i < n => Seqs.Square(values[i] - values[i + period]))
  }

  /** `values[i] ** 2` for i < n - period. */
  function LeadingSquares(values: seq<real>, period: nat): (r: seq<real>)
    requires period <= |values|
    ensures |r| == |values| - period
    ensures forall i :: 0 <= i < |r| ==> r[i] == Seqs.Square(values[i])
  {
    seq(|values| - period, i requires 0 <= i < |values| - period => Seqs.Square(values[i]))
  }

  /** `detectSeasonality(data, metric, period)`. */
  function DetectSeasonality(m: MathLib, values: seq<real>, period: nat): (r: Option<Seasonality>)
    ensures r.None? <==> |values| < 2 * period
    ensures r.Some? ==> r.value.period == period
    ensures r.Some? ==> (r.value.significant <==> r.value.strength > 0.5)
    ensures r.Some? ==> (r.value.strength
      == 1.0 - m.divide(Seqs.Sum(LaggedSquares(values, period)), 2.0 * Seqs.Sum(LeadingSquares(values, period))))
  {
    if |values| < 2 * period then None
    else
      var sumProduct := Seqs.Sum(LaggedSquares(values, period));
      var sumSquares := Seqs.Sum(LeadingSquares(values, period));
      var strength := 1.0 - m.divide(sumProduct, 2.0 * sumSquares);
      Some(Seasonality(period, strength, strength > 0.5))
  }

  /** The strength never exceeds 1 once the leading values are not all zero. */
  lemma StrengthAtMostOne(m: MathLib, values: seq<real>, period: nat)
    requires Sound(m) && DetectSeasonality(m, values, period).Some?
    requires Seqs.Sum(LeadingSquares(values, period)) != 0.0
    ensures DetectSeasonality(m, values, period).value.strength <= 1.0
  {
    var a := Seqs.Sum(LaggedSquares(values, period));
    var b := Seqs.Sum(LeadingSquares(values, period));
    Seqs.SumNonNegative(LaggedSquares(values, period));
    Seqs.SumNonNegative(LeadingSquares(values, period));
    assert b > 0.0;
    assert m.divide(a, 2.0 * b) == a / (2.0 * b);
    QuotientNonNegative(a, 2.0 * b, a / (2.0 * b));
  }

  /** A series that repeats exactly with the period has strength 1 and is reported significant. */
  lemma PeriodicSeriesIsSignificant(m: MathLib, values: seq<real>, period: nat)
    requires Sound(m) && |values| >= 2 * period
    requires forall i :: 0 <= i < |values| - period ==> values[i] == values[i + period]
    requires Seqs.Sum(LeadingSquares(values, period)) != 0.0
    ensures DetectSeasonality(m, values, period) == Some(Seasonality(period, 1.0, true))
  {
    Seqs.SumZero(LaggedSquares(values, period));
  }

  /** The periods tested when the configuration names none: a week, a month and a year of days. */
  const DefaultPeriods: seq<nat> := [7, 30, 365]

  /** `seasonalityPeriods.map(p => detectSeasonality(data, metric, p))`. */
  function SeasonalityForPeriods(m: MathLib, values: seq<real>, periods: seq<nat>): (r: seq<Option<Seasonality>>)
    ensures |r| == |periods|
    ensures forall i :: 0 <= i < |r| ==> r[i] == DetectSeasonality(m, values, periods[i])
  {
    seq(|periods|, i requires 0 <= i < |periods| => DetectSeasonality(m, values, periods[i]))
  }

  /** With the default periods, a series shorter than two weeks gets no seasonality result at all. */
  lemma ShortSeriesHasNoSeasonality(m: MathLib, values: seq<real>)
    requires |values| < 14
    ensures forall r :: r in SeasonalityForPeriods(m, values, DefaultPeriods) ==> r.None?
  {
    var rs := SeasonalityForPeriods(m, values, DefaultPeriods);
    assert rs == [DetectSeasonality(m, values, 7), DetectSeasonality(m, values, 30), DetectSeasonality(m, values, 365)];
  }
}
