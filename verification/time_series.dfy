/**
 * The time-series computations behind the analytics page's decomposition,
 * smoothing, autocorrelation and forecasting panels: moving average,
 * exponential smoothing, ratio-to-moving-average seasonal decomposition,
 * autocorrelation, the exponential-smoothing and AR(1) forecasts and the
 * Holt-Winters forecaster.  Values are `real`; square roots and divisions
 * whose divisor may be zero go through the `MathLib` record.
 */
module TimeSeries {
  import opened Wrappers
  import Seqs
  import opened Numerics

  // ---------------------------------------------------------------------
  // Moving average and exponential smoothing
  // ---------------------------------------------------------------------

  /**
   * `calculateMovingAverage`: one value per full window of `period`
   * consecutive points, the window ending at i + period - 1.
   */
  function MovingAverage(data: seq<real>, period: nat): (r: seq<real>)
    requires period >= 1
    ensures |r| == if |data| < period then 0 else |data| - period + 1
    ensures forall i :: 0 <= i < |r| ==> r[i] == Seqs.Mean(data[i..i + period])
  {
    var count := if |data| < period then 0 else |data| - period + 1;
    seq(count, i requires 0 <= i < count => Seqs.Sum(data[i..i + period]) / (period as real))
  }

  /** Sliding the window by one adds the entering point and drops the leaving one. */
  lemma MovingAverageSlides(data: seq<real>, period: nat, i: nat)
    requires period >= 1 && i + period < |data|
    ensures var r := MovingAverage(data, period);
      r[i + 1] - r[i] == (data[i + period] - data[i]) / (period as real)
  {
    var w := data[i..i + period];
    var v := data[i + 1..i + period + 1];
    assert data[i..i + period + 1] == [data[i]] + v;
    assert data[i..i + period + 1] == w + [data[i + period]];
    Seqs.SumCons(data[i], v);
    Seqs.SumAppend(w, [data[i + period]]);
    assert Seqs.Sum([data[i + period]]) == data[i + period] by {
      assert [data[i + period]][..0] == [];
    }
    var r := MovingAverage(data, period);
    assert r[i + 1] == Seqs.Sum(v) / (period as real) && r[i] == Seqs.Sum(w) / (period as real);
    assert Seqs.Sum(v) - Seqs.Sum(w) == data[i + period] - data[i];
    DifferenceOfQuotients(Seqs.Sum(v), Seqs.Sum(w), period as real);
  }

  /** A constant series averages to the same constant. */
  lemma MovingAverageOfConstant(data: seq<real>, period: nat, c: real)
    requires period >= 1
    requires forall i :: 0 <= i < |data| ==> data[i] == c
    ensures forall i :: 0 <= i < |MovingAverage(data, period)| ==> MovingAverage(data, period)[i] == c
  {
    var r := MovingAverage(data, period);
    forall i | 0 <= i < |r|
      ensures r[i] == c
    {
      var w := data[i..i + period];
      Seqs.SumConstant(w, c);
      QuotientOfMultiple(Seqs.Sum(w), |w| as real, c);
    }
  }

  /**
   * `calculateExponentialSmoothing` on a non-empty series.  (On an empty
   * series the source returns `[undefined]`, which is `None` here.)
   */
  function ExponentialSmoothing(data: seq<real>, alpha: real): (r: Option<seq<real>>)
    ensures r.Some? <==> |data| > 0
    ensures r.Some? ==> |r.value| == |data| && r.value[0] == data[0]
    ensures r.Some? ==> forall t :: 1 <= t < |data| ==> r.value[t] == Mix(alpha, data[t], r.value[t - 1])
  {
    if |data| == 0 then None else Some(Smooth(data, alpha))
  }

  /** One smoothing step: weight alpha on the new value and 1 - alpha on the previous smoothed one. */
  function Mix(alpha: real, x: real, y: real): real
  {
    alpha * x + (1.0 - alpha) * y
  }

  function Smooth(data: seq<real>, alpha: real): (r: seq<real>)
    requires |data| > 0
    ensures |r| == |data| && r[0] == data[0]
    ensures forall t :: 1 <= t < |data| ==> r[t] == Mix(alpha, data[t], r[t - 1])
    decreases |data|
  {
    if |data| == 1 then [data[0]]
    else
      var prev := Smooth(data[..|data| - 1], alpha);
      var next := Mix(alpha, data[|data| - 1], prev[|prev| - 1]);
      SmoothNext(data, alpha, prev, next);
      prev + [next]
  }

  /** Appending the next smoothed value to the smoothed prefix keeps every step of the recursion. */
  lemma SmoothNext(data: seq<real>, alpha: real, prev: seq<real>, next: real)
    requires |data| >= 2 && |prev| == |data| - 1 && prev[0] == data[0]
    requires forall t :: 1 <= t < |prev| ==> prev[t] == Mix(alpha, data[..|data| - 1][t], prev[t - 1])
    requires next == Mix(alpha, data[|data| - 1], prev[|prev| - 1])
    ensures var r := prev + [next]; forall t :: 1 <= t < |data| ==> r[t] == Mix(alpha, data[t], r[t - 1])
  {
    var r := prev + [next];
    forall t | 1 <= t < |data|
      ensures r[t] == Mix(alpha, data[t], r[t - 1])
    {
      if t < |prev| {
        assert data[..|data| - 1][t] == data[t];
      }
    }
  }

  /** With a smoothing factor in [0, 1] each step is a weighted average, so no output leaves the data's range. */
  lemma {:induction false} SmoothingStaysInRange(data: seq<real>, alpha: real)
    requires |data| > 0 && 0.0 <= alpha <= 1.0
    ensures forall t :: 0 <= t < |data| ==> Seqs.Min(data) <= Smooth(data, alpha)[t] <= Seqs.Max(data)
    decreases |data|
  {
    var r := Smooth(data, alpha);
    var lo, hi := Seqs.Min(data), Seqs.Max(data);
    forall t | 0 <= t < |data|
      ensures lo <= r[t] <= hi
    {
      SmoothStepInRange(data, alpha, t, lo, hi);
    }
  }

  lemma {:induction false} SmoothStepInRange(data: seq<real>, alpha: real, t: nat, lo: real, hi: real)
    requires 0 <= t < |data| && 0.0 <= alpha <= 1.0
    requires forall i :: 0 <= i < |data| ==> lo <= data[i] <= hi
    ensures lo <= Smooth(data, alpha)[t] <= hi
    decreases t
  {
    var r := Smooth(data, alpha);
    if t > 0 {
      SmoothStepInRange(data, alpha, t - 1, lo, hi);
      Blend(alpha, data[t], r[t - 1], lo, hi);
    }
  }

  /** `a * x + (1 - a) * y` lies between lo and hi when x and y do and a is in [0, 1]. */
  lemma Blend(a: real, x: real, y: real, lo: real, hi: real)
    requires 0.0 <= a <= 1.0 && lo <= x <= hi && lo <= y <= hi
    ensures lo <= Mix(a, x, y) <= hi
  {
    assert a * x + (1.0 - a) * y - lo == a * (x - lo) + (1.0 - a) * (y - lo);
    assert hi - (a * x + (1.0 - a) * y) == a * (hi - x) + (1.0 - a) * (hi - y);
    NonNegativeProduct(a, x - lo);
    NonNegativeProduct(1.0 - a, y - lo);
    NonNegativeProduct(a, hi - x);
    NonNegativeProduct(1.0 - a, hi - y);
  }

  lemma NonNegativeProduct(a: real, b: real)
    requires 0.0 <= a && 0.0 <= b
    ensures 0.0 <= a * b
  {
  }

  lemma ProductSign(a: real, b: real)
    ensures 0.0 <= a && 0.0 <= b ==> 0.0 <= a * b
  {
  }

  // ---------------------------------------------------------------------
  // Seasons: the indices i, i + period, i + 2 period, ... below n
  // ---------------------------------------------------------------------

  /** The indices `for (let j = s; j < n; j += period)` visits, in order. */
  function SeasonIndices(n: nat, period: nat, s: nat): (r: seq<nat>)
    requires period >= 1
    ensures forall k :: 0 <= k < |r| ==> r[k] == s + k * period && r[k] < n
    ensures |r| > 0 <==> s < n
  {
    if n <= s then [] else Stride(n, period, s)
  }

  function Stride(n: nat, period: nat, s: nat): (r: seq<nat>)
    requires period >= 1 && s < n
    ensures |r| > 0 && r[0] == s
    ensures forall k :: 0 <= k < |r| ==> r[k] == s + k * period && r[k] < n
    decreases n - s
  {
    if s + period >= n then [s]
    else
      var rest := Stride(n, period, s + period);
      assert forall k :: 0 <= k < |rest| ==> rest[k] == s + (k + 1) * period;
      [s] + rest
  }

  /** Shifting by one period keeps the remainder. */
  lemma ModShift(x: int, p: nat)
    requires p >= 1
    ensures (x + p) % p == x % p
  {
    var q, r := x / p, x % p;
    assert x + p == (q + 1) * p + r;
    DivModUnique(x + p, p, q + 1, r);
  }

  /** Below n, the visited indices are exactly those s + k * period with k >= 0. */
  lemma {:induction false} StrideMembers(n: nat, period: nat, s: nat, i: int)
    requires period >= 1 && s < n
    ensures i in Stride(n, period, s) <==> s <= i < n && (i - s) % period == 0
    decreases n - s
  {
    var r := Stride(n, period, s);
    if i == s {
      assert r[0] == i;
      DivModUnique(i - s, period, 0, 0);
    } else if s < i < s + period {
      DivModUnique(i - s, period, 0, i - s);
      assert i !in r;
    } else if i < s || n <= i {
      assert i !in r;
    } else {
      assert s + period <= i < n;
      var rest := Stride(n, period, s + period);
      assert r == [s] + rest;
      StrideMembers(n, period, s + period, i);
      ModShift(i - s - period, period);
      assert i in r <==> i in rest;
    }
  }

  /** The stride loop from s and the `i % period === s` test select the same indices. */
  lemma SeasonIndicesAreResidueClass(n: nat, period: nat, s: nat, i: int)
    requires period >= 1 && s < period
    ensures i in SeasonIndices(n, period, s) <==> 0 <= i < n && i % period == s
  {
    if s < n {
      StrideMembers(n, period, s, i);
      if 0 <= i && i % period == s {
        ResidueToStride(period, s, i);
      }
      if s <= i && (i - s) % period == 0 {
        StrideToResidue(period, s, i);
      }
    } else if 0 <= i < n && i % period == s {
      assert false;
    }
  }

  lemma ResidueToStride(period: nat, s: nat, i: int)
    requires period >= 1 && 0 <= i && i % period == s
    ensures s <= i && (i - s) % period == 0
  {
    var q := i / period;
    assert i - s == q * period + 0;
    DivModUnique(i - s, period, q, 0);
  }

  lemma StrideToResidue(period: nat, s: nat, i: int)
    requires period >= 1 && s < period && s <= i && (i - s) % period == 0
    ensures i % period == s
  {
    var k := (i - s) / period;
    assert i == k * period + s;
    DivModUnique(i, period, k, s);
  }

  /** The elements at the indices of a season. */
  function Season(xs: seq<real>, period: nat, s: nat): (r: seq<real>)
    requires period >= 1
    ensures |r| == |SeasonIndices(|xs|, period, s)|
    ensures |r| > 0 <==> s < |xs|
  {
    var idx := SeasonIndices(|xs|, period, s);
    seq(|idx|, k requires 0 <= k < |idx| => xs[idx[k]])
  }

  /** Average of a season's elements; without elements the source divides 0 by 0. */
  function SeasonMean(m: MathLib, xs: seq<real>, period: nat, s: nat): real
    requires period >= 1
  {
    var e := Season(xs, period, s);
    m.divide(Seqs.Sum(e), |e| as real)
  }

  lemma SeasonMeanIsMean(m: MathLib, xs: seq<real>, period: nat, s: nat)
    requires Sound(m) && period >= 1 && s < |xs|
    ensures SeasonMean(m, xs, period, s) == Seqs.Mean(Season(xs, period, s))
  {
  }

  // ---------------------------------------------------------------------
  // Seasonal decomposition
  // ---------------------------------------------------------------------

  datatype Decomposition = Decomposition(trend: seq<real>, seasonal: seq<real>, residual: seq<Option<real>>)

  /** `data[i] / trend[i]` for every point that has a trend value. */
  function Ratios(m: MathLib, data: seq<real>, trend: seq<real>): (r: seq<real>)
    requires |trend| <= |data|
    ensures |r| == |trend|
    ensures forall i :: 0 <= i < |r| ==> r[i] == m.divide(data[i], trend[i])
  {
    seq(|trend|, i requires 0 <= i < |trend| => m.divide(data[i], trend[i]))
  }

  /**
   * `calculateSeasonalDecomposition`: the trend is the moving average, the
   * seasonal factor of season s averages the ratios data/trend over the
   * points with a trend value in that season, and the residual divides out
   * both (null where there is no trend value).
   */
  function SeasonalDecomposition(m: MathLib, data: seq<real>, period: nat): (r: Decomposition)
    requires period >= 1
    ensures r.trend == MovingAverage(data, period)
    ensures |r.seasonal| == period && |r.residual| == |data|
    ensures forall i :: 0 <= i < |data| ==> (r.residual[i].None? <==> i >= |r.trend|)
    ensures forall s :: 0 <= s < period ==> r.seasonal[s] == SeasonMean(m, Ratios(m, data, r.trend), period, s)
  {
    var trend := MovingAverage(data, period);
    var ratios := Ratios(m, data, trend);
    var seasonal := SeasonalFactors(m, ratios, period);
    Decomposition(trend, seasonal, Residuals(m, data, trend, seasonal))
  }

  function SeasonalFactors(m: MathLib, ratios: seq<real>, period: nat): (r: seq<real>)
    requires period >= 1
    ensures |r| == period
    ensures forall s :: 0 <= s < period ==> r[s] == SeasonMean(m, ratios, period, s)
  {
    seq(period, s requires 0 <= s < period => SeasonMean(m, ratios, period, s))
  }

  /** `data[i] / (trend[i] * seasonal[i % period])` where there is a trend value, else null. */
  function Residuals(m: MathLib, data: seq<real>, trend: seq<real>, seasonal: seq<real>): (r: seq<Option<real>>)
    requires |trend| <= |data| && |seasonal| >= 1
    ensures |r| == |data|
    ensures forall i :: 0 <= i < |data| ==> (r[i].None? <==> i >= |trend|)
    ensures forall i :: 0 <= i < |trend| ==> r[i] == Some(m.divide(data[i], trend[i] * seasonal[i % |seasonal|]))
  {
    seq(|data|, i requires 0 <= i < |data| => ResidualAt(m, data, trend, seasonal, i))
  }

  function ResidualAt(m: MathLib, data: seq<real>, trend: seq<real>, seasonal: seq<real>, i: nat): Option<real>
    requires |trend| <= |data| && |seasonal| >= 1 && i < |data|
  {
    if i < |trend| then Some(m.divide(data[i], trend[i] * seasonal[i % |seasonal|])) else None
  }

  /** The seasonal factor of a season with trend values is the plain mean of its ratios. */
  lemma SeasonalFactorIsMeanRatio(m: MathLib, data: seq<real>, period: nat, s: nat)
    requires Sound(m) && period >= 1 && s < period
    requires s < |MovingAverage(data, period)|
    ensures var d := SeasonalDecomposition(m, data, period);
      d.seasonal[s] == Seqs.Mean(Season(Ratios(m, data, d.trend), period, s))
  {
    var d := SeasonalDecomposition(m, data, period);
    SeasonMeanIsMean(m, Ratios(m, data, d.trend), period, s);
  }

  /** A season with a trend value gets a defined factor; the others (when the series is short) divide by zero. */
  lemma SeasonHasRatios(data: seq<real>, period: nat, m: MathLib, s: nat)
    requires period >= 1 && s < period
    ensures |Season(Ratios(m, data, MovingAverage(data, period)), period, s)| > 0
      <==> s + period <= |data|
  {
  }

  // ---------------------------------------------------------------------
  // Autocorrelation
  // ---------------------------------------------------------------------

  /** The products `(data[i] - mean) * (data[i + lag] - mean)` the inner loop adds up. */
  function LagProducts(data: seq<real>, lag: nat, mean: real): (r: seq<real>)
    ensures |r| == if lag < |data| then |data| - lag else 0
  {
    var count := if lag < |data| then |data| - lag else 0;
    seq(count, i requires 0 <= i < count => (data[i] - mean) * (data[i + lag] - mean))
  }

  /**
   * The coefficient at one lag, `None` where the source divides zero by
   * zero (no variance, or lag = n) and so produces NaN.
   */
  function AutocorrelationAt(data: seq<real>, lag: nat): (r: Option<real>)
    requires |data| > 0
    ensures r.None? <==> Seqs.Variance(data) == 0.0 || lag == |data|
  {
    var denominator := (|data| - lag) as real * Seqs.Variance(data);
    if denominator == 0.0 then None
    else Some(Seqs.Sum(LagProducts(data, lag, Seqs.Mean(data))) / denominator)
  }

  /**
   * `calculateAutocorrelation`: coefficients for lags 0 .. maxLag, with the
   * population mean and variance.  An empty series has a NaN mean, so every
   * coefficient is NaN.
   */
  function Autocorrelation(data: seq<real>, maxLag: int): (r: seq<Option<real>>)
    ensures |r| == if maxLag < 0 then 0 else maxLag + 1
    ensures forall lag :: 0 <= lag < |r| ==>
      (r[lag].None? <==> |data| == 0 || Seqs.Variance(data) == 0.0 || lag == |data|)
  {
    if maxLag < 0 then []
    else
      seq(maxLag + 1, lag requires 0 <= lag <= maxLag =>
        if |data| == 0 then None else AutocorrelationAt(data, lag))
  }

  /** A series with some variance is perfectly correlated with itself. */
  lemma AutocorrelationAtLagZero(data: seq<real>, maxLag: int)
    requires |data| > 0 && maxLag >= 0 && Seqs.Variance(data) != 0.0
    ensures Autocorrelation(data, maxLag)[0] == Some(1.0)
  {
    var mean := Seqs.Mean(data);
    var products := LagProducts(data, 0, mean);
    var squares := Seqs.SquaredDeviations(data, mean);
    assert products == squares;
    var total := Seqs.Sum(squares);
    var n := |data| as real;
    var v := Seqs.Variance(data);
    assert v == total / n;
    Cancel(total, n);
    assert ((|data| - 0) as real) * v == total;
    assert total != 0.0;
    assert Seqs.Sum(LagProducts(data, 0, Seqs.Mean(data))) == total;
    assert (|data| - 0) as real * Seqs.Variance(data) == total;
    assert AutocorrelationAt(data, 0) == Some(total / total);
    assert total / total == 1.0;
    assert Autocorrelation(data, maxLag)[0] == AutocorrelationAt(data, 0);
  }

  lemma Cancel(x: real, n: real)
    requires n != 0.0
    ensures n * (x / n) == x
  {
  }

  /** Past the series' length there are no products, so the coefficient is 0. */
  lemma AutocorrelationBeyondLength(data: seq<real>, maxLag: int, lag: nat)
    requires 0 < |data| < lag <= maxLag && Seqs.Variance(data) != 0.0
    ensures Autocorrelation(data, maxLag)[lag] == Some(0.0)
  {
  }

  // ---------------------------------------------------------------------
  // Holt-Winters
  // ---------------------------------------------------------------------

  datatype Smoothing = Smoothing(alpha: real, beta: real, gamma: real, period: nat)

  /** The running state of the Holt-Winters loop and the arrays it has pushed to. */
  datatype HwState = HwState(
    level: real, trend: real, seasonal: seq<real>,
    levels: seq<real>, trends: seq<real>, seasonals: seq<real>, fitted: seq<real>)

  /** Season i's initial index: the mean of its points, then divided by the mean of all indices. */
  function InitialSeasonal(m: MathLib, data: seq<real>, period: nat): (r: seq<real>)
    requires period >= 1
    ensures |r| == period
  {
    var raw := SeasonalFactors(m, data, period);
    var mean := Seqs.Sum(raw) / (period as real);
    seq(period, i requires 0 <= i < period => m.divide(raw[i], mean))
  }

  function HwStart(m: MathLib, data: seq<real>, p: Smoothing): (st: HwState)
    requires |data| >= 2 && p.period >= 1
    ensures |st.seasonal| == p.period && |st.seasonals| == p.period
    ensures st.levels == [st.level] && st.trends == [st.trend] && |st.fitted| == 1
  {
    var seasonal := InitialSeasonal(m, data, p.period);
    HwState(data[0], data[1] - data[0], seasonal, [data[0]], [data[1] - data[0]], seasonal,
      [data[0] * seasonal[0]])
  }

  /** One round of the loop, for point t. */
  function HwStep(m: MathLib, data: seq<real>, p: Smoothing, st: HwState, t: nat): (r: HwState)
    requires t < |data| && p.period >= 1 && |st.seasonal| == p.period
    ensures |r.seasonal| == p.period
    ensures r.levels == st.levels + [r.level] && r.trends == st.trends + [r.trend]
    ensures |r.seasonals| == |st.seasonals| + 1 && |r.fitted| == |st.fitted| + 1
    ensures r.seasonal[t % p.period] == r.seasonals[|r.seasonals| - 1]
    ensures forall j :: 0 <= j < p.period && j != t % p.period ==> r.seasonal[j] == st.seasonal[j]
  {
    var s := t % p.period;
    var level := p.alpha * m.divide(data[t], st.seasonal[s]) + (1.0 - p.alpha) * (st.level + st.trend);
    var trend := p.beta * (level - st.level) + (1.0 - p.beta) * st.trend;
    var season := p.gamma * m.divide(data[t], level) + (1.0 - p.gamma) * st.seasonal[s];
    HwState(level, trend, st.seasonal[s := season], st.levels + [level], st.trends + [trend],
      st.seasonals + [season], st.fitted + [level * season])
  }

  /** The state after the first t points. */
  function HwFit(m: MathLib, data: seq<real>, p: Smoothing, t: nat): (st: HwState)
    requires |data| >= 2 && p.period >= 1 && 1 <= t <= |data|
    ensures |st.seasonal| == p.period
    ensures |st.levels| == t && |st.trends| == t && |st.fitted| == t
    ensures |st.seasonals| == p.period + t - 1
    ensures st.levels[t - 1] == st.level && st.trends[t - 1] == st.trend
    decreases t
  {
    if t == 1 then HwStart(m, data, p)
    else HwStep(m, data, p, HwFit(m, data, p, t - 1), t - 1)
  }

  /** The point forecast h steps ahead, using season (n + h - 1) mod period. */
  function HwPoint(st: HwState, n: nat, period: nat, h: nat): real
    requires period >= 1 && |st.seasonal| == period
  {
    Extrapolate(st.level, st.trend, h, st.seasonal[(n + h - 1) % period])
  }

  /** `(level + steps * trend) * index`. */
  function Extrapolate(level: real, trend: real, steps: nat, index: real): real
  {
    (level + (steps as real) * trend) * index
  }

  /** A prediction interval `[center - width, center + width]`. */
  datatype Band = Band(lower: real, upper: real)

  function Around(center: real, width: real): (b: Band)
    ensures b.upper - center == center - b.lower
    ensures width >= 0.0 ==> b.lower <= center <= b.upper
  {
    Band(center - width, center + width)
  }

  /** `1.96 * sigma * Math.sqrt(spread)`, the half-width of a 95% interval. */
  function HalfWidth(m: MathLib, sigma: real, spread: real): (w: real)
    ensures Sound(m) && sigma >= 0.0 && spread >= 0.0 ==> w >= 0.0
  {
    ProductSign(1.96 * sigma, m.sqrt(spread));
    1.96 * sigma * m.sqrt(spread)
  }

  datatype HoltWintersResult = HoltWintersResult(
    fitted: seq<real>, forecasts: seq<real>, forecastLower: seq<real>, forecastUpper: seq<real>,
    levels: seq<real>, trends: seq<real>, seasonals: seq<real>)

  /** Squared one-step errors of the fitted values. */
  function SquaredErrors(data: seq<real>, fitted: seq<real>): (r: seq<real>)
    requires |fitted| == |data|
    ensures |r| == |data| && forall i :: 0 <= i < |r| ==> r[i] >= 0.0
  {
    seq(|data|, i requires 0 <= i < |data| => Seqs.Square(data[i] - fitted[i]))
  }

  /** `Math.sqrt(sse / (n - 3))`, the residual standard error of the fit. */
  function ResidualSigma(m: MathLib, data: seq<real>, fitted: seq<real>): (sigma: real)
    requires |fitted| == |data|
    ensures Sound(m) && |data| >= 4 ==> sigma >= 0.0
  {
    var errors := SquaredErrors(data, fitted);
    Seqs.SumNonNegative(errors);
    m.sqrt(m.divide(Seqs.Sum(errors), (|data| - 3) as real))
  }

  /** The point forecasts for steps 1 .. k. */
  function HwPoints(st: HwState, n: nat, period: nat, k: nat): (r: seq<real>)
    requires period >= 1 && |st.seasonal| == period
    ensures |r| == k && forall h :: 0 <= h < k ==> r[h] == HwPoint(st, n, period, h + 1)
  {
    seq(k, h requires 0 <= h < k => HwPoint(st, n, period, h + 1))
  }

  /** The intervals around the point forecasts, widening with the step as `sqrt(1 + h / n)`. */
  function HwBands(m: MathLib, points: seq<real>, n: nat, sigma: real): (r: seq<Band>)
    requires n >= 1
    ensures |r| == |points|
    ensures forall h :: 0 <= h < |r| ==> r[h].upper - points[h] == points[h] - r[h].lower
    ensures Sound(m) && sigma >= 0.0 ==> forall h :: 0 <= h < |r| ==> r[h].lower <= points[h] <= r[h].upper
  {
    seq(|points|, h requires 0 <= h < |points| =>
      Around(points[h], HalfWidth(m, sigma, 1.0 + ((h + 1) as real) / (n as real))))
  }

  function Lowers(bands: seq<Band>): (r: seq<real>)
    ensures |r| == |bands| && forall h :: 0 <= h < |r| ==> r[h] == bands[h].lower
  {
    seq(|bands|, h requires 0 <= h < |bands| => bands[h].lower)
  }

  function Uppers(bands: seq<Band>): (r: seq<real>)
    ensures |r| == |bands| && forall h :: 0 <= h < |r| ==> r[h] == bands[h].upper
  {
    seq(|bands|, h requires 0 <= h < |bands| => bands[h].upper)
  }

  /**
   * `holtWinters`. On fewer than two points `data[1] - data[0]` is NaN, so
   * the trend and with it every forecast and interval bound is NaN: `None`.
   * The residual standard error divides by n - 3, so the interval is only
   * known to be well ordered from four points on.
   */
  function HoltWinters(m: MathLib, data: seq<real>, p: Smoothing, horizon: int): (r: Option<HoltWintersResult>)
    requires p.period >= 1
    ensures r.None? <==> |data| < 2
    ensures r.Some? ==> |r.value.fitted| == |data| && |r.value.levels| == |data| && |r.value.trends| == |data|
    ensures r.Some? ==> |r.value.seasonals| == p.period + |data| - 1
    ensures r.Some? ==> var k := if horizon < 0 then 0 else horizon;
      |r.value.forecasts| == k && |r.value.forecastLower| == k && |r.value.forecastUpper| == k
    ensures r.Some? ==> forall h :: 0 <= h < |r.value.forecasts| ==>
      r.value.forecastUpper[h] - r.value.forecasts[h] == r.value.forecasts[h] - r.value.forecastLower[h]
    ensures r.Some? && Sound(m) && |data| >= 4 ==> forall h :: 0 <= h < |r.value.forecasts| ==>
      r.value.forecastLower[h] <= r.value.forecasts[h] <= r.value.forecastUpper[h]
  {
    if |data| < 2 then None
    else
      var n := |data|;
      var st := HwFit(m, data, p, n);
      var k := if horizon < 0 then 0 else horizon;
      var sigma := ResidualSigma(m, data, st.fitted);
      var points := HwPoints(st, n, p.period, k);
      var bands := HwBands(m, points, n, sigma);
      Some(HoltWintersResult(st.fitted, points, Lowers(bands), Uppers(bands), st.levels, st.trends, st.seasonals))
  }

  /**
   * The forecast h + 1 steps ahead extends the last level by h + 1 steps of
   * the last trend and scales by the seasonal index of season (n + h) mod
   * period, the season point n + h would have had.
   */
  lemma HoltWintersForecastExtrapolates(m: MathLib, data: seq<real>, p: Smoothing, horizon: int, h: nat)
    requires |data| >= 2 && p.period >= 1 && h < horizon
    ensures var r := HoltWinters(m, data, p, horizon).value;
      var st := HwFit(m, data, p, |data|);
      r.forecasts[h] == Extrapolate(r.levels[|data| - 1], r.trends[|data| - 1], h + 1, st.seasonal[(|data| + h) % p.period])
  {
    var r := HoltWinters(m, data, p, horizon).value;
    var st := HwFit(m, data, p, |data|);
    assert (|data| + h) % p.period == (|data| + (h + 1) - 1) % p.period;
    assert r.forecasts[h] == HwPoint(st, |data|, p.period, h + 1);
  }

  // ---------------------------------------------------------------------
  // calculateForecast
  // ---------------------------------------------------------------------

  /** The smoothing constants and weekly period the 'ets' branch fixes. */
  const EtsSmoothing := Smoothing(0.2, 0.1, 0.3, 7)

  datatype ForecastResult = ForecastResult(forecast: seq<real>, confidenceIntervals: seq<Band>)

  /**
   * AR(1) path: the first step multiplies the last value by phi, each later
   * step the previous forecast, so step j is `phi^(j+1) * last`.
   */
  function ArPath(phi: real, last: real, k: nat): (r: seq<real>)
    ensures |r| == k
    ensures forall j :: 0 <= j < k ==> r[j] == Pow(phi, j + 1) * last
    decreases k
  {
    if k == 0 then []
    else
      var prev := ArPath(phi, last, k - 1);
      var next := phi * (if k == 1 then last else prev[k - 2]);
      ArPathNext(phi, last, k, prev, next);
      prev + [next]
  }

  /** The step the loop appends keeps the path in closed form. */
  lemma ArPathNext(phi: real, last: real, k: nat, prev: seq<real>, next: real)
    requires k >= 1 && |prev| == k - 1
    requires forall j :: 0 <= j < k - 1 ==> prev[j] == Pow(phi, j + 1) * last
    requires next == phi * (if k == 1 then last else prev[k - 2])
    ensures forall j :: 0 <= j < k ==> (prev + [next])[j] == Pow(phi, j + 1) * last
  {
    ArPathLast(phi, last, k, prev, next);
  }

  lemma ArPathLast(phi: real, last: real, k: nat, prev: seq<real>, next: real)
    requires k >= 1 && |prev| == k - 1
    requires forall j :: 0 <= j < k - 1 ==> prev[j] == Pow(phi, j + 1) * last
    requires next == phi * (if k == 1 then last else prev[k - 2])
    ensures next == Pow(phi, k) * last
  {
    assert Pow(phi, k) == phi * Pow(phi, k - 1);
    if k == 1 {
      assert Pow(phi, 0) == 1.0;
    } else {
      ChainStep(phi, Pow(phi, k - 1), last, prev[k - 2], next, Pow(phi, k));
    }
  }

  /** Each forecast after the first is phi times the one before it. */
  lemma ArPathSteps(phi: real, last: real, k: nat, j: nat)
    requires 1 <= j < k
    ensures ArPath(phi, last, k)[j] == phi * ArPath(phi, last, k)[j - 1]
  {
    var r := ArPath(phi, last, k);
    assert Pow(phi, j + 1) == phi * Pow(phi, j);
    ChainBack(phi, Pow(phi, j), last, r[j - 1], r[j], Pow(phi, j + 1));
  }

  /** One step of the unrolling: `a * (p * c) == (a * p) * c`, with every term named. */
  lemma ChainStep(a: real, p: real, c: real, prev: real, cur: real, q: real)
    requires prev == p * c && cur == a * prev && q == a * p
    ensures cur == q * c
  {
    Associate(a, p, c);
  }

  /** The same step read backwards. */
  lemma ChainBack(a: real, p: real, c: real, prev: real, cur: real, q: real)
    requires prev == p * c && cur == q * c && q == a * p
    ensures cur == a * prev
  {
    Associate(a, p, c);
  }

  lemma Associate(a: real, b: real, c: real)
    ensures a * (b * c) == (a * b) * c
  {
  }

  /** Intervals whose half-width for step h + 1 is `1.96 * sigma * sqrt(spread(h + 1))`. */
  function Intervals(m: MathLib, points: seq<real>, sigma: real, spread: nat -> real): (r: seq<Band>)
    ensures |r| == |points|
    ensures forall h :: 0 <= h < |r| ==> r[h].upper - points[h] == points[h] - r[h].lower
    ensures Sound(m) && sigma >= 0.0 && (forall h: nat :: spread(h) >= 0.0) ==>
      forall h :: 0 <= h < |r| ==> r[h].lower <= points[h] <= r[h].upper
  {
    seq(|points|, h requires 0 <= h < |points| => Around(points[h], HalfWidth(m, sigma, spread(h + 1))))
  }

  /** Sum over positions of the product of the two series' deviations from mx and my. */
  function CrossDeviation(x: seq<real>, y: seq<real>, mx: real, my: real): real
    requires |x| == |y|
    decreases |x|
  {
    if |x| == 0 then 0.0
    else CrossDeviation(x[..|x| - 1], y[..|y| - 1], mx, my) + (x[|x| - 1] - mx) * (y[|y| - 1] - my)
  }

  /** Swapping the two series leaves their cross deviation unchanged. */
  lemma {:induction false} CrossDeviationSymmetric(x: seq<real>, y: seq<real>, mx: real, my: real)
    requires |x| == |y|
    ensures CrossDeviation(x, y, mx, my) == CrossDeviation(y, x, my, mx)
    decreases |x|
  {
    if |x| > 0 {
      CrossDeviationSymmetric(x[..|x| - 1], y[..|y| - 1], mx, my);
      Commute(x[|x| - 1] - mx, y[|y| - 1] - my);
    }
  }

  lemma Commute(a: real, b: real)
    ensures a * b == b * a
  {
  }

  /**
   * Pearson's correlation coefficient as the jStat library's `corrcoeff`
   * computes it: the sample covariance divided by the sample standard
   * deviation of each series in turn.
   */
  function Correlation(m: MathLib, x: seq<real>, y: seq<real>): real
    requires |x| == |y| > 0
  {
    var mx, my := Seqs.Mean(x), Seqs.Mean(y);
    var n1 := (|x| - 1) as real;
    var covariance := m.divide(CrossDeviation(x, y, mx, my), n1);
    var sx := m.sqrt(m.divide(Seqs.Sum(Seqs.SquaredDeviations(x, mx)), n1));
    var sy := m.sqrt(m.divide(Seqs.Sum(Seqs.SquaredDeviations(y, my)), n1));
    m.divide(m.divide(covariance, sx), sy)
  }

  /** With sound arithmetic and non-zero spreads, the coefficient does not depend on the order of the two series. */
  lemma CorrelationSymmetric(m: MathLib, x: seq<real>, y: seq<real>)
    requires Sound(m) && |x| == |y| > 1
    requires m.sqrt(m.divide(Seqs.Sum(Seqs.SquaredDeviations(x, Seqs.Mean(x))), (|x| - 1) as real)) != 0.0
    requires m.sqrt(m.divide(Seqs.Sum(Seqs.SquaredDeviations(y, Seqs.Mean(y))), (|y| - 1) as real)) != 0.0
    ensures Correlation(m, x, y) == Correlation(m, y, x)
  {
    var mx, my := Seqs.Mean(x), Seqs.Mean(y);
    var n1 := (|x| - 1) as real;
    CrossDeviationSymmetric(x, y, mx, my);
    var c := m.divide(CrossDeviation(x, y, mx, my), n1);
    var sx := m.sqrt(m.divide(Seqs.Sum(Seqs.SquaredDeviations(x, mx)), n1));
    var sy := m.sqrt(m.divide(Seqs.Sum(Seqs.SquaredDeviations(y, my)), n1));
    DivideTwice(c, sx, sy);
  }

  lemma DivideTwice(c: real, a: real, b: real)
    requires a != 0.0 && b != 0.0
    ensures (c / a) / b == (c / b) / a
  {
    assert (c / a) / b == c / (a * b);
    assert (c / b) / a == c / (b * a);
  }

  /**
   * The AR(1) coefficient: the correlation of the series without its last
   * value against the series without its first, i.e. of each value with
   * its successor.
   */
  function LagOneCorrelation(m: MathLib, data: seq<real>): real
    requires |data| >= 2
  {
    Correlation(m, data[..|data| - 1], data[1..])
  }

  /**
   * `calculateForecast` for the 'ets' and 'arima' methods; any other method
   * string falls through the switch and yields two empty arrays.  On fewer
   * than two points both methods read past the data (or correlate empty
   * series) and every value is NaN: `None`.  The 'arima' branch is modelled
   * with the coefficient it evidently intends, `LagOneCorrelation`;
   * `ArimaAsWritten` models the line as written.
   */
  function Forecast(m: MathLib, data: seq<real>, horizon: int, technique: string): (r: Option<ForecastResult>)
    ensures r.None? <==> (technique == "ets" || technique == "arima") && |data| < 2
    ensures r.Some? ==> var k := if horizon < 0 then 0 else horizon;
      if technique == "ets" || technique == "arima" then |r.value.forecast| == k && |r.value.confidenceIntervals| == k
      else r.value.forecast == [] && r.value.confidenceIntervals == []
    ensures r.Some? ==> forall h :: 0 <= h < |r.value.forecast| && h < |r.value.confidenceIntervals| ==>
      r.value.confidenceIntervals[h].upper - r.value.forecast[h] == r.value.forecast[h] - r.value.confidenceIntervals[h].lower
    ensures r.Some? && technique == "ets" ==>
      HoltWinters(m, data, EtsSmoothing, horizon).Some? && r.value.forecast == HoltWinters(m, data, EtsSmoothing, horizon).value.forecasts
    ensures r.Some? && technique == "ets" && Sound(m) ==> forall h :: 0 <= h < |r.value.forecast| ==>
      r.value.confidenceIntervals[h].lower <= r.value.forecast[h] <= r.value.confidenceIntervals[h].upper
    ensures r.Some? && technique == "arima" ==>
      |data| >= 2 && r.value.forecast == ArPath(LagOneCorrelation(m, data), data[|data| - 1], |r.value.forecast|)
  {
    var k := if horizon < 0 then 0 else horizon;
    if (technique == "ets" || technique == "arima") && |data| < 2 then None
    else if technique == "ets" then
      var st := HwFit(m, data, EtsSmoothing, |data|);
      var points := HwPoints(st, |data|, 7, k);
      var sigma := m.sqrt(Seqs.Variance(data));
      SqrtNonNegativeIfSound(m, Seqs.Variance(data));
      Some(ForecastResult(points, Intervals(m, points, sigma, (h: nat) => h as real)))
    else if technique == "arima" then
      var phi := LagOneCorrelation(m, data);
      var points := ArPath(phi, data[|data| - 1], k);
      var sigma := m.sqrt(Seqs.Variance(data));
      Some(ForecastResult(points, Intervals(m, points, sigma, (h: nat) => 1.0 - Pow(phi, 2 * h))))
    else Some(ForecastResult([], []))
  }

  /**
   * The 'arima' branch as written: `jStat.correlation(...)[0]`. When the
   * library has no `correlation` the call throws a TypeError; when it
   * returns a coefficient, indexing a number gives `undefined`, so phi
   * times any value is NaN (None) at every step.
   */
  function ArimaAsWritten(data: seq<real>, horizon: int, correlationExists: bool): (r: Result<seq<Option<real>>, string>)
    ensures r.Err? <==> !correlationExists
    ensures r.Ok? ==> |r.value| == (if horizon < 0 then 0 else horizon)
    ensures r.Ok? ==> forall h :: 0 <= h < |r.value| ==> r.value[h].None?
  {
    if !correlationExists then Err("TypeError: jStat.correlation is not a function")
    else
      var k := if horizon < 0 then 0 else horizon;
      Ok(seq(k, h => None))
  }

  /**
   * On the series 1, 2, 3 with one step ahead the written branch yields no
   * number at all, while the intended one predicts phi times 3.
   */
  lemma ArimaAsWrittenLosesForecast(m: MathLib, correlationExists: bool)
    ensures var written := ArimaAsWritten([1.0, 2.0, 3.0], 1, correlationExists);
      written.Err? || written.value == [None]
    ensures Forecast(m, [1.0, 2.0, 3.0], 1, "arima").Some?
    ensures Forecast(m, [1.0, 2.0, 3.0], 1, "arima").value.forecast == [LagOneCorrelation(m, [1.0, 2.0, 3.0]) * 3.0]
  {
    var phi := LagOneCorrelation(m, [1.0, 2.0, 3.0]);
    var r := Forecast(m, [1.0, 2.0, 3.0], 1, "arima").value.forecast;
    assert r == ArPath(phi, 3.0, 1);
    assert Pow(phi, 1) == phi * Pow(phi, 0);
  }

  lemma SqrtNonNegativeIfSound(m: MathLib, x: real)
    requires x >= 0.0
    ensures Sound(m) ==> m.sqrt(x) >= 0.0
  {
    if Sound(m) {
      SqrtNonNegative(m, x);
    }
  }
}
