/**
 * Welch's t-test, one-way ANOVA and Pearson's chi-square test of the
 * advanced statistics panel, and the record selection that feeds them.
 * Every JavaScript division whose divisor can be zero goes through the
 * platform's `divide`; `jStat.mean` and `jStat.variance` (population) are
 * written out with it, so an empty sample gives the platform's NaN rather
 * than a precondition.  The `toFixed(4)` formatting is not modelled.
 */
module AdvancedStatistics {
  import opened Wrappers
  import opened Numerics
  import opened JsValues
  import Seqs

  /** The significance level shared by all three tests. */
  const Alpha: real := 0.05

  // ---------------------------------------------------------------------
  // Record selection
  // ---------------------------------------------------------------------

  /** A record takes part when it matches the category and the time range, each only when one is set. */
  predicate Selected(d: Record, category: string, timeRange: string)
  {
    (category == "" || Get(d, "category") == Str(category))
    && (timeRange == "" || Get(d, "timeRange") == Str(timeRange))
  }

  /** `getMetricData(metric, category, timeRange)`: the numeric metric values of the selected records, in order. */
  function MetricData(rows: seq<Record>, metric: string, category: string, timeRange: string): (r: seq<real>)
    ensures |r| <= |rows|
    ensures forall x :: x in r <==>
      exists i :: 0 <= i < |rows| && Selected(rows[i], category, timeRange) && ToNumber(Get(rows[i], metric)) == Some(x)
  {
    if |rows| == 0 then []
    else
      var init := rows[..|rows| - 1];
      var d := rows[|rows| - 1];
      var rest := MetricData(init, metric, category, timeRange);
      assert forall i :: 0 <= i < |init| ==> init[i] == rows[i];
      var v := ToNumber(Get(d, metric));
      if Selected(d, category, timeRange) && v.Some? then rest + [v.value] else rest
  }

  /** One value per selected record whose metric reads as a number. */
  lemma {:induction false} MetricDataCount(rows: seq<Record>, metric: string, category: string, timeRange: string)
    ensures |MetricData(rows, metric, category, timeRange)|
      == Seqs.Count(rows, (d: Record) => Selected(d, category, timeRange) && !IsNaN(Get(d, metric)))
  {
    if |rows| > 0 {
      MetricDataCount(rows[..|rows| - 1], metric, category, timeRange);
    }
  }

  /** With neither a category nor a time range set, every numeric metric value is kept. */
  lemma UnfilteredKeepsAllNumbers(rows: seq<Record>, metric: string)
    ensures |MetricData(rows, metric, "", "")| == |rows|
      <==> forall i :: 0 <= i < |rows| ==> !IsNaN(Get(rows[i], metric))
  {
    var kept := (d: Record) => Selected(d, "", "") && !IsNaN(Get(d, metric));
    MetricDataCount(rows, metric, "", "");
    Seqs.CountAll(rows, kept);
    assert forall i :: 0 <= i < |rows| ==> (kept(rows[i]) <==> !IsNaN(Get(rows[i], metric)));
  }

  // ---------------------------------------------------------------------
  // Sample moments as jStat computes them
  // ---------------------------------------------------------------------

  /** `jStat.mean(xs)`. */
  function MeanOf(m: MathLib, xs: seq<real>): real
  {
    m.divide(Seqs.Sum(xs), |xs| as real)
  }

  /** `jStat.variance(xs)`: the population variance. */
  function VarianceOf(m: MathLib, xs: seq<real>): real
  {
    m.divide(Seqs.Sum(Seqs.SquaredDeviations(xs, MeanOf(m, xs))), |xs| as real)
  }

  lemma MomentsOfSample(m: MathLib, xs: seq<real>)
    requires Sound(m) && |xs| > 0
    ensures MeanOf(m, xs) == Seqs.Mean(xs)
    ensures VarianceOf(m, xs) == Seqs.Variance(xs)
  {
    assert (|xs| as real) != 0.0;
  }

  // ---------------------------------------------------------------------
  // Welch's t-test
  // ---------------------------------------------------------------------

  datatype TTestResult = TTestResult(t: real, df: int, pValue: real, significant: bool, cohensD: real)

  /** Squared standard error of the difference of the means. */
  function StandardError2(m: MathLib, d1: seq<real>, d2: seq<real>): real
  {
    m.divide(VarianceOf(m, d1), |d1| as real) + m.divide(VarianceOf(m, d2), |d2| as real)
  }

  /** One sample's share of the Welch–Satterthwaite denominator. */
  function DfShare(m: MathLib, xs: seq<real>): real
  {
    m.divide(Seqs.Square(m.divide(VarianceOf(m, xs), |xs| as real)), (|xs| - 1) as real)
  }

  /** `calculateTTest(data1, data2)`. */
  function TTest(m: MathLib, d1: seq<real>, d2: seq<real>): (r: TTestResult)
    ensures r.significant <==> r.pValue < Alpha
    ensures Sound(m) ==> 0.0 <= r.pValue <= 2.0
    ensures r.df == Floor(m.divide(Seqs.Square(StandardError2(m, d1, d2)), DfShare(m, d1) + DfShare(m, d2)))
  {
    var diff := MeanOf(m, d1) - MeanOf(m, d2);
    var t := m.divide(diff, m.sqrt(StandardError2(m, d1, d2)));
    var df := Floor(m.divide(Seqs.Square(StandardError2(m, d1, d2)), DfShare(m, d1) + DfShare(m, d2)));
    var pValue := 2.0 * (1.0 - m.studentTCdf(Abs(t), df));
    var cohensD := m.divide(diff, m.sqrt((VarianceOf(m, d1) + VarianceOf(m, d2)) / 2.0));
    TTestResult(t, df, pValue, pValue < Alpha, cohensD)
  }

  /** Non-empty samples that are not both constant give positive standard errors, independent of the order. */
  lemma WelchScalesPositive(m: MathLib, d1: seq<real>, d2: seq<real>)
    requires Sound(m) && |d1| > 0 && |d2| > 0
    requires Seqs.Variance(d1) > 0.0 || Seqs.Variance(d2) > 0.0
    ensures StandardError2(m, d2, d1) == StandardError2(m, d1, d2)
    ensures m.sqrt(StandardError2(m, d1, d2)) > 0.0
    ensures m.sqrt((VarianceOf(m, d1) + VarianceOf(m, d2)) / 2.0) > 0.0
    ensures (VarianceOf(m, d2) + VarianceOf(m, d1)) / 2.0 == (VarianceOf(m, d1) + VarianceOf(m, d2)) / 2.0
  {
    MomentsOfSample(m, d1);
    MomentsOfSample(m, d2);
    var v1, v2 := Seqs.Variance(d1), Seqs.Variance(d2);
    var n1, n2 := |d1| as real, |d2| as real;
    QuotientNonNegative(v1, n1, v1 / n1);
    QuotientNonNegative(v2, n2, v2 / n2);
    assert m.divide(v1, n1) == v1 / n1 && m.divide(v2, n2) == v2 / n2;
    if v1 > 0.0 {
      QuotientPositive(v1, n1, v1 / n1);
    } else {
      QuotientPositive(v2, n2, v2 / n2);
    }
    assert StandardError2(m, d1, d2) > 0.0;
  }

  /** Negating the numerator of an exact division negates the quotient. */
  lemma DivideNegated(m: MathLib, a: real, b: real)
    requires Sound(m) && b != 0.0
    ensures m.divide(-a, b) == -m.divide(a, b)
  {
    assert m.divide(a, b) == a / b;
    assert m.divide(-a, b) == -a / b;
  }

  /**
   * Swapping the samples negates t and Cohen's d and leaves the degrees of
   * freedom, the p-value and the verdict unchanged, provided the samples are
   * non-empty and not both constant (otherwise both quotients divide by zero).
   */
  lemma TTestAntisymmetric(m: MathLib, d1: seq<real>, d2: seq<real>)
    requires Sound(m) && |d1| > 0 && |d2| > 0
    requires Seqs.Variance(d1) > 0.0 || Seqs.Variance(d2) > 0.0
    ensures TTest(m, d2, d1).t == -TTest(m, d1, d2).t
    ensures TTest(m, d2, d1).cohensD == -TTest(m, d1, d2).cohensD
    ensures TTest(m, d2, d1).df == TTest(m, d1, d2).df
    ensures TTest(m, d2, d1).pValue == TTest(m, d1, d2).pValue
    ensures TTest(m, d2, d1).significant == TTest(m, d1, d2).significant
  {
    WelchScalesPositive(m, d1, d2);
    var diff := MeanOf(m, d1) - MeanOf(m, d2);
    assert MeanOf(m, d2) - MeanOf(m, d1) == -diff;
    var s := m.sqrt(StandardError2(m, d1, d2));
    var s' := m.sqrt((VarianceOf(m, d1) + VarianceOf(m, d2)) / 2.0);
    DivideNegated(m, diff, s);
    DivideNegated(m, diff, s');
    assert TTest(m, d2, d1).t == m.divide(-diff, s);
    assert TTest(m, d2, d1).cohensD == m.divide(-diff, s');
    assert Abs(TTest(m, d2, d1).t) == Abs(TTest(m, d1, d2).t);
    assert DfShare(m, d2) + DfShare(m, d1) == DfShare(m, d1) + DfShare(m, d2);
  }


  // ---------------------------------------------------------------------
  // One-way ANOVA
  // ---------------------------------------------------------------------

  datatype AnovaResult = AnovaResult(f: real, dfb: int, dfw: int, pValue: real, significant: bool, etaSquared: real)

  /** `[].concat(...groups)`. */
  function Concat(groups: seq<seq<real>>): (r: seq<real>)
    ensures |r| == TotalSize(groups)
  {
    if |groups| == 0 then [] else Concat(groups[..|groups| - 1]) + groups[|groups| - 1]
  }

  /** `groups.reduce((sum, group) => sum + group.length, 0)`. */
  function TotalSize(groups: seq<seq<real>>): nat
  {
    if |groups| == 0 then 0 else TotalSize(groups[..|groups| - 1]) + |groups[|groups| - 1]|
  }

  /** Between-groups sum of squares: group sizes times squared distances of group means from the grand mean. */
  function BetweenSS(m: MathLib, groups: seq<seq<real>>, grandMean: real): (r: real)
    ensures r >= 0.0
  {
    if |groups| == 0 then 0.0
    else
      var g := groups[|groups| - 1];
      var term := (|g| as real) * Seqs.Square(MeanOf(m, g) - grandMean);
      ProductNonNegative(|g| as real, Seqs.Square(MeanOf(m, g) - grandMean), term);
      BetweenSS(m, groups[..|groups| - 1], grandMean) + term
  }

  /** Within-groups sum of squares: squared distances of every value from its own group mean. */
  function WithinSS(m: MathLib, groups: seq<seq<real>>): (r: real)
    ensures r >= 0.0
  {
    if |groups| == 0 then 0.0
    else
      var g := groups[|groups| - 1];
      var sq := Seqs.SquaredDeviations(g, MeanOf(m, g));
      Seqs.SumNonNegative(sq);
      WithinSS(m, groups[..|groups| - 1]) + Seqs.Sum(sq)
  }

  /** `calculateANOVA(groups)`. */
  function Anova(m: MathLib, groups: seq<seq<real>>): (r: AnovaResult)
    ensures r.dfb == |groups| - 1 && r.dfw == TotalSize(groups) - |groups|
    ensures r.dfb + r.dfw == TotalSize(groups) - 1
    ensures r.significant <==> r.pValue < Alpha
    ensures Sound(m) ==> 0.0 <= r.pValue <= 1.0
    ensures r.etaSquared == m.divide(BetweenSS(m, groups, MeanOf(m, Concat(groups))),
                                     BetweenSS(m, groups, MeanOf(m, Concat(groups))) + WithinSS(m, groups))
  {
    var grandMean := MeanOf(m, Concat(groups));
    var n := TotalSize(groups);
    var k := |groups|;
    var ssb := BetweenSS(m, groups, grandMean);
    var ssw := WithinSS(m, groups);
    var dfb := k - 1;
    var dfw := n - k;
    var f := m.divide(m.divide(ssb, dfb as real), m.divide(ssw, dfw as real));
    var pValue := 1.0 - m.centralFCdf(f, dfb, dfw);
    AnovaResult(f, dfb, dfw, pValue, pValue < Alpha, m.divide(ssb, ssb + ssw))
  }

  /** The effect size η² is a proportion whenever there is any variation at all. */
  lemma EtaSquaredIsProportion(m: MathLib, groups: seq<seq<real>>)
    requires Sound(m)
    requires BetweenSS(m, groups, MeanOf(m, Concat(groups))) + WithinSS(m, groups) > 0.0
    ensures 0.0 <= Anova(m, groups).etaSquared <= 1.0
  {
    var ssb := BetweenSS(m, groups, MeanOf(m, Concat(groups)));
    var ssw := WithinSS(m, groups);
    var r := Anova(m, groups);
    ShareOfTotal(m, ssb, ssw);
    assert r.etaSquared == m.divide(ssb, ssb + ssw);
  }

  /** Groups whose values all equal their group mean have no within-group variation. */
  lemma {:induction false} ConstantGroupsHaveNoWithinSS(m: MathLib, groups: seq<seq<real>>, c: seq<real>)
    requires Sound(m) && |c| == |groups|
    requires forall i :: 0 <= i < |groups| ==> |groups[i]| > 0
    requires forall i, j :: 0 <= i < |groups| && 0 <= j < |groups[i]| ==> groups[i][j] == c[i]
    ensures WithinSS(m, groups) == 0.0
  {
    if |groups| > 0 {
      var k := |groups| - 1;
      var g := groups[k];
      Seqs.SumConstant(g, c[k]);
      assert (|g| as real) != 0.0;
      assert MeanOf(m, g) == ((|g| as real) * c[k]) / (|g| as real);
      assert MeanOf(m, g) == c[k];
      Seqs.SumZero(Seqs.SquaredDeviations(g, MeanOf(m, g)));
      ConstantGroupsHaveNoWithinSS(m, groups[..k], c[..k]);
    }
  }

  // ---------------------------------------------------------------------
  // Chi-square
  // ---------------------------------------------------------------------

  datatype ChiSquareResult = ChiSquareResult(chiSquare: real, df: int, pValue: real, significant: bool, cramerV: real)

  /** Σ (O − E)² / E over the observed counts. */
  function ChiSquareStatistic(m: MathLib, observed: seq<real>, expected: seq<real>): real
    requires |observed| <= |expected|
  {
    if |observed| == 0 then 0.0
    else
      var i := |observed| - 1;
      ChiSquareStatistic(m, observed[..i], expected) + m.divide(Seqs.Square(observed[i] - expected[i]), expected[i])
  }

  /**
   * `calculateChiSquare(observed, expected)`.  When fewer expected than
   * observed values are given, `expected[i]` is `undefined`, the statistic
   * and everything derived from it are NaN, and the result is `None`.
   */
  function ChiSquare(m: MathLib, observed: seq<real>, expected: seq<real>): (r: Option<ChiSquareResult>)
    ensures r.None? <==> |expected| < |observed|
    ensures r.Some? ==> r.value.df == |observed| - 1
    ensures r.Some? ==> (r.value.significant <==> r.value.pValue < Alpha)
    ensures r.Some? && Sound(m) ==> 0.0 <= r.value.pValue <= 1.0
    ensures r.Some? ==> r.value.chiSquare == ChiSquareStatistic(m, observed, expected)
  {
    if |expected| < |observed| then None
    else
      var chi := ChiSquareStatistic(m, observed, expected);
      var df := |observed| - 1;
      var pValue := 1.0 - m.chiSquareCdf(chi, df);
      var smaller := if |observed| < |expected| then |observed| else |expected|;
      var cramerV := m.sqrt(m.divide(chi, Seqs.Sum(observed) * ((smaller - 1) as real)));
      Some(ChiSquareResult(chi, df, pValue, pValue < Alpha, cramerV))
  }

  /** With every expected count positive the statistic is non-negative. */
  lemma {:induction false} ChiSquareNonNegative(m: MathLib, observed: seq<real>, expected: seq<real>)
    requires Sound(m) && |observed| <= |expected|
    requires forall i :: 0 <= i < |expected| ==> expected[i] > 0.0
    ensures ChiSquareStatistic(m, observed, expected) >= 0.0
  {
    if |observed| > 0 {
      var i := |observed| - 1;
      ChiSquareNonNegative(m, observed[..i], expected);
      var sq := Seqs.Square(observed[i] - expected[i]);
      assert m.divide(sq, expected[i]) == sq / expected[i];
      QuotientNonNegative(sq, expected[i], sq / expected[i]);
    }
  }

  /** Observed counts equal to the expected ones give a statistic of 0. */
  lemma {:induction false} ChiSquareOfExactFit(m: MathLib, observed: seq<real>, expected: seq<real>)
    requires Sound(m) && |observed| <= |expected|
    requires forall i :: 0 <= i < |observed| ==> observed[i] == expected[i] && expected[i] != 0.0
    ensures ChiSquareStatistic(m, observed, expected) == 0.0
  {
    if |observed| > 0 {
      var i := |observed| - 1;
      ChiSquareOfExactFit(m, observed[..i], expected);
      assert Seqs.Square(observed[i] - expected[i]) == 0.0;
      assert m.divide(0.0, expected[i]) == 0.0 / expected[i];
    }
  }
}
