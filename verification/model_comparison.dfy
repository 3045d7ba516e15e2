/**
 * The model-comparison page: three regression models fitted through the
 * normal equations, scored by contiguous k-fold cross-validation, and the
 * per-model results table.  The two copies of the page share the
 * computation; they differ in how the results table treats a model that
 * fails (the newer copy skips it, the older one aborts) and in whether
 * missing fields default to zero.
 */
module ModelComparison {
  import opened Wrappers
  import Seqs
  import opened Numerics
  import GaussJordan

  /** One `{ x, target }` pair. */
  datatype Point = Point(x: real, target: real)

  datatype Kind = Linear | Polynomial | Exponential

  /** The `models` table: the three names the page knows. */
  function ModelNamed(name: string): (k: Option<Kind>)
    ensures k == Some(Linear) <==> name == "linear"
    ensures k == Some(Polynomial) <==> name == "polynomial"
    ensures k == Some(Exponential) <==> name == "exponential"
  {
    if name == "linear" then Some(Linear)
    else if name == "polynomial" then Some(Polynomial)
    else if name == "exponential" then Some(Exponential)
    else None
  }

  /** The polynomial model is trained with its default degree. */
  const PolynomialDegree: nat := 2

  /** The number of folds `crossValidate` is called with. */
  const Folds: nat := 5

  // ---------------------------------------------------------------------
  // Features and the normal equations
  // ---------------------------------------------------------------------

  /** Number of coefficients: intercept and slope, or one per power up to the degree. */
  function Width(kind: Kind): (p: nat)
    ensures p >= 2
  {
    if kind == Polynomial then PolynomialDegree + 1 else 2
  }

  /** `[1, x]`, or `[x^0, x^1, ..., x^degree]` for the polynomial model. */
  function Features(kind: Kind, x: real): (row: seq<real>)
    ensures |row| == Width(kind)
    ensures row[0] == 1.0 && row[1] == x
  {
    if kind == Polynomial then seq(PolynomialDegree + 1, i requires 0 <= i < PolynomialDegree + 1 => Pow(x, i))
    else [1.0, x]
  }

  /** The design matrix X, one feature row per point. */
  function Design(kind: Kind, points: seq<Point>): (xs: seq<seq<real>>)
    ensures |xs| == |points|
    ensures forall k :: 0 <= k < |points| ==> xs[k] == Features(kind, points[k].x)
  {
    seq(|points|, k requires 0 <= k < |points| => Features(kind, points[k].x))
  }

  /** The regression target: the exponential model fits the logarithm of the target. */
  function Targets(m: MathLib, kind: Kind, points: seq<Point>): (y: seq<real>)
    ensures |y| == |points|
    ensures forall k :: 0 <= k < |points| ==> y[k] == if kind == Exponential then m.log(points[k].target) else points[k].target
  {
    seq(|points|, k requires 0 <= k < |points| => if kind == Exponential then m.log(points[k].target) else points[k].target)
  }

  function Product(a: real, b: real): real
  {
    a * b
  }

  /** Column i of X times column j of X, point by point. */
  function ColumnProducts(xs: seq<seq<real>>, p: nat, i: nat, j: nat): (r: seq<real>)
    requires forall k :: 0 <= k < |xs| ==> |xs[k]| == p
    requires i < p && j < p
    ensures |r| == |xs| && forall k :: 0 <= k < |xs| ==> r[k] == Product(xs[k][i], xs[k][j])
  {
    seq(|xs|, k requires 0 <= k < |xs| => Product(xs[k][i], xs[k][j]))
  }

  /** Column i of X times y, point by point. */
  function TargetProducts(xs: seq<seq<real>>, y: seq<real>, p: nat, i: nat): (r: seq<real>)
    requires |y| == |xs| && forall k :: 0 <= k < |xs| ==> |xs[k]| == p
    requires i < p
    ensures |r| == |xs| && forall k :: 0 <= k < |xs| ==> r[k] == Product(xs[k][i], y[k])
  {
    seq(|xs|, k requires 0 <= k < |xs| => Product(xs[k][i], y[k]))
  }

  /** Row i of the augmented matrix `[XᵀX | Xᵀy]`. */
  function NormalRow(xs: seq<seq<real>>, y: seq<real>, p: nat, i: nat): (row: seq<real>)
    requires |y| == |xs| && forall k :: 0 <= k < |xs| ==> |xs[k]| == p
    requires i < p
    ensures |row| == p + 1
    ensures forall j :: 0 <= j < p ==> row[j] == Seqs.Sum(ColumnProducts(xs, p, i, j))
    ensures row[p] == Seqs.Sum(TargetProducts(xs, y, p, i))
  {
    seq(p, j requires 0 <= j < p => Seqs.Sum(ColumnProducts(xs, p, i, j))) + [Seqs.Sum(TargetProducts(xs, y, p, i))]
  }

  /** The augmented normal equations `[XᵀX | Xᵀy]` the models hand to the solver. */
  function NormalSystem(m: MathLib, kind: Kind, points: seq<Point>): (a: seq<seq<real>>)
    ensures GaussJordan.Augmented(a, Width(kind))
  {
    var xs, y, p := Design(kind, points), Targets(m, kind, points), Width(kind);
    seq(p, i requires 0 <= i < p => NormalRow(xs, y, p, i))
  }

  // ---------------------------------------------------------------------
  // Training and prediction
  // ---------------------------------------------------------------------

  datatype Trained = Trained(kind: Kind, coefficients: seq<real>)

  /** The error `X[0].map(...)` raises when there is no training data. */
  const NoTrainingData := "TypeError: Cannot read properties of undefined (reading 'map')"

  /**
   * `models[kind].train(points)`: the Gauss-Jordan solution of the normal
   * equations.  The exponential model trains the linear one on log(target).
   */
  function Train(m: MathLib, kind: Kind, points: seq<Point>): (r: Result<Trained, string>)
    ensures r.Err? <==> |points| == 0
    ensures r.Err? ==> r.error == NoTrainingData
    ensures r.Ok? ==> r.value.kind == kind && |r.value.coefficients| == Width(kind)
  {
    if |points| == 0 then Err(NoTrainingData)
    else Ok(Trained(kind, GaussJordan.Solve(m, NormalSystem(m, kind, points), Width(kind))))
  }

  /** `coefficients.reduce((sum, coef, i) => sum + coef * Math.pow(x, i), 0)`. */
  function PolynomialValue(coefficients: seq<real>, x: real): real
  {
    if |coefficients| == 0 then 0.0
    else PolynomialValue(coefficients[..|coefficients| - 1], x) + coefficients[|coefficients| - 1] * Pow(x, |coefficients| - 1)
  }

  /**
   * `trainedModel.predict({ x })`: the feature row of x times the
   * coefficients, so the model predicts with the features it was fitted
   * on; the exponential model takes exp of that, so it only predicts
   * positive values.
   */
  function Predict(m: MathLib, t: Trained, x: real): (y: real)
    requires |t.coefficients| == Width(t.kind)
    ensures t.kind != Exponential ==> y == GaussJordan.Dot(Features(t.kind, x), t.coefficients, Width(t.kind))
    ensures t.kind == Exponential ==> y == m.exp(GaussJordan.Dot(Features(t.kind, x), t.coefficients, Width(t.kind)))
    ensures Sound(m) && t.kind == Exponential ==> y > 0.0
  {
    var c := t.coefficients;
    match t.kind
    case Linear =>
      StraightLineIsDot(c, x);
      c[0] + c[1] * x
    case Polynomial =>
      PolynomialValueIsDot(c, x, |c|);
      assert c[..|c|] == c;
      PolynomialValue(c, x)
    case Exponential =>
      StraightLineIsDot(c, x);
      m.exp(c[0] + c[1] * x)
  }

  lemma StraightLineIsDot(c: seq<real>, x: real)
    requires |c| == 2
    ensures GaussJordan.Dot([1.0, x], c, 2) == c[0] + c[1] * x
  {
    assert GaussJordan.Dot([1.0, x], c, 1) == 1.0 * c[0];
  }

  /** With non-zero pivots the trained coefficients satisfy `XᵀX·β = Xᵀy`. */
  lemma TrainSolvesNormalEquations(m: MathLib, kind: Kind, points: seq<Point>)
    requires Sound(m) && |points| > 0
    requires GaussJordan.PivotsNonZero(m, NormalSystem(m, kind, points), Width(kind), 0)
    ensures Train(m, kind, points).Ok?
    ensures GaussJordan.Solves(NormalSystem(m, kind, points), Width(kind), Train(m, kind, points).value.coefficients)
  {
    GaussJordan.SolveSatisfiesSystem(m, NormalSystem(m, kind, points), Width(kind));
  }

  lemma {:induction false} PolynomialValueIsDot(coefficients: seq<real>, x: real, len: nat)
    requires len <= |coefficients| && len <= PolynomialDegree + 1
    ensures PolynomialValue(coefficients[..len], x) == GaussJordan.Dot(Features(Polynomial, x), coefficients, len)
    decreases len
  {
    if len > 0 {
      PolynomialValueIsDot(coefficients, x, len - 1);
      assert coefficients[..len][..len - 1] == coefficients[..len - 1];
      assert Features(Polynomial, x)[len - 1] == Pow(x, len - 1);
      assert GaussJordan.Dot(Features(Polynomial, x), coefficients, len)
          == GaussJordan.Dot(Features(Polynomial, x), coefficients, len - 1) + Pow(x, len - 1) * coefficients[len - 1];
    }
  }

  // ---------------------------------------------------------------------
  // Metrics
  // ---------------------------------------------------------------------

  datatype Metrics = Metrics(mse: real, mae: real, r2: real)

  function SquaredError(a: real, b: real): (r: real)
    ensures r >= 0.0
  {
    Seqs.Square(a - b)
  }

  function AbsoluteErrors(predictions: seq<real>, actual: seq<real>): (r: seq<real>)
    requires |predictions| == |actual|
    ensures |r| == |predictions| && forall i :: 0 <= i < |r| ==> r[i] == Abs(predictions[i] - actual[i])
  {
    seq(|predictions|, i requires 0 <= i < |predictions| => Abs(predictions[i] - actual[i]))
  }

  function SquaredErrors(predictions: seq<real>, actual: seq<real>): (r: seq<real>)
    requires |predictions| == |actual|
    ensures |r| == |predictions| && forall i :: 0 <= i < |r| ==> r[i] == SquaredError(predictions[i], actual[i])
  {
    seq(|predictions|, i requires 0 <= i < |predictions| => SquaredError(predictions[i], actual[i]))
  }

  /** `residualSS`: the squared errors summed. */
  function ResidualSS(predictions: seq<real>, actual: seq<real>): (r: real)
    requires |predictions| == |actual|
    ensures r >= 0.0
  {
    Seqs.SumNonNegative(SquaredErrors(predictions, actual));
    Seqs.Sum(SquaredErrors(predictions, actual))
  }

  /** `totalSS`: squared deviations of the actual values from their mean. */
  function TotalSS(m: MathLib, actual: seq<real>): (r: real)
    ensures r >= 0.0
  {
    var sq := Seqs.SquaredDeviations(actual, m.divide(Seqs.Sum(actual), |actual| as real));
    Seqs.SumNonNegative(sq);
    Seqs.Sum(sq)
  }

  /** `calculateMetrics(predictions, actual)`; every division is the platform's, so an empty fold gives NaN. */
  function CalculateMetrics(m: MathLib, predictions: seq<real>, actual: seq<real>): (r: Metrics)
    requires |predictions| == |actual|
    ensures Sound(m) && |predictions| > 0 ==> r.mse == Seqs.Mean(SquaredErrors(predictions, actual))
    ensures Sound(m) && |predictions| > 0 ==> r.mae == Seqs.Mean(AbsoluteErrors(predictions, actual))
    ensures r.r2 == 1.0 - m.divide(ResidualSS(predictions, actual), TotalSS(m, actual))
  {
    var n := |predictions| as real;
    Metrics(m.divide(Seqs.Sum(SquaredErrors(predictions, actual)), n),
            m.divide(Seqs.Sum(AbsoluteErrors(predictions, actual)), n),
            1.0 - m.divide(ResidualSS(predictions, actual), TotalSS(m, actual)))
  }

  /** mse and mae are non-negative, residualSS is n times mse, and r2 compares residual with total spread. */
  lemma MetricsProperties(m: MathLib, predictions: seq<real>, actual: seq<real>)
    requires Sound(m) && |predictions| == |actual| > 0
    ensures CalculateMetrics(m, predictions, actual).mse >= 0.0
    ensures CalculateMetrics(m, predictions, actual).mae >= 0.0
    ensures ResidualSS(predictions, actual) == (|predictions| as real) * CalculateMetrics(m, predictions, actual).mse
    ensures TotalSS(m, actual) > 0.0 ==>
      CalculateMetrics(m, predictions, actual).r2 == 1.0 - ResidualSS(predictions, actual) / TotalSS(m, actual)
  {
    var n := |predictions| as real;
    var squared, absolute := SquaredErrors(predictions, actual), AbsoluteErrors(predictions, actual);
    Seqs.SumNonNegative(squared);
    Seqs.SumNonNegative(absolute);
    DivideByCount(m, Seqs.Sum(squared), n);
    DivideByCount(m, Seqs.Sum(absolute), n);
  }

  /** Perfect predictions score mse = mae = 0, and r2 = 1 whenever the actual values vary. */
  lemma PerfectPredictions(m: MathLib, actual: seq<real>)
    requires Sound(m) && |actual| > 0
    ensures CalculateMetrics(m, actual, actual).mse == 0.0
    ensures CalculateMetrics(m, actual, actual).mae == 0.0
    ensures TotalSS(m, actual) > 0.0 ==> CalculateMetrics(m, actual, actual).r2 == 1.0
  {
    Seqs.SumZero(SquaredErrors(actual, actual));
    Seqs.SumZero(AbsoluteErrors(actual, actual));
  }

  // ---------------------------------------------------------------------
  // Folds
  // ---------------------------------------------------------------------

  /** `foldSize = Math.floor(n / k)`. */
  function FoldSize(n: nat, k: nat): (f: nat)
    requires k >= 1
    ensures f == n / k
  {
    n / k
  }

  /** `testStart = i * foldSize`, accumulated fold by fold. */
  function FoldStart(n: nat, k: nat, i: nat): nat
    requires k >= 1
  {
    if i == 0 then 0 else FoldStart(n, k, i - 1) + FoldSize(n, k)
  }

  /** `testEnd = i === k - 1 ? n : (i + 1) * foldSize`. */
  function FoldEnd(n: nat, k: nat, i: nat): nat
    requires k >= 1
  {
    if i == k - 1 then n else FoldStart(n, k, i + 1)
  }

  lemma {:induction false} FoldStartIsProduct(n: nat, k: nat, i: nat)
    requires k >= 1
    ensures FoldStart(n, k, i) == i * (n / k)
  {
    if i > 0 {
      FoldStartIsProduct(n, k, i - 1);
      assert (i - 1) * (n / k) + n / k == i * (n / k);
    }
  }

  lemma MulMonotone(a: nat, b: nat, f: nat)
    requires a <= b
    ensures a * f <= b * f
  {
    assert b * f == a * f + (b - a) * f;
  }

  lemma FoldStartMonotone(n: nat, k: nat, i: nat, i': nat)
    requires k >= 1 && i <= i'
    ensures FoldStart(n, k, i) <= FoldStart(n, k, i')
  {
    FoldStartIsProduct(n, k, i);
    FoldStartIsProduct(n, k, i');
    MulMonotone(i, i', n / k);
  }

  /** Each fold is a slice of the data. */
  lemma FoldBounds(n: nat, k: nat, i: nat)
    requires k >= 1 && i < k
    ensures FoldStart(n, k, i) <= FoldEnd(n, k, i) <= n
  {
    FoldStartMonotone(n, k, i, k);
    FoldStartIsProduct(n, k, k);
    assert k * (n / k) <= n;
    if i < k - 1 {
      FoldStartMonotone(n, k, i, i + 1);
      FoldStartMonotone(n, k, i + 1, k);
    }
  }

  /** The folds follow each other without gaps: the first starts at 0, the last ends at n. */
  lemma FoldsContiguous(n: nat, k: nat)
    requires k >= 1
    ensures FoldStart(n, k, 0) == 0 && FoldEnd(n, k, k - 1) == n
    ensures forall i :: 0 <= i < k - 1 ==> FoldEnd(n, k, i) == FoldStart(n, k, i + 1)
  {
  }

  predicate InFold(n: nat, k: nat, i: nat, j: nat)
    requires k >= 1
  {
    FoldStart(n, k, i) <= j < FoldEnd(n, k, i)
  }

  /** The fold an index falls in. */
  function FoldOf(n: nat, k: nat, j: nat): (i: nat)
    requires k >= 1
    ensures i < k
  {
    var f := n / k;
    if f == 0 || j / f >= k - 1 then k - 1 else j / f
  }

  lemma FoldOfContains(n: nat, k: nat, j: nat)
    requires k >= 1 && j < n
    ensures InFold(n, k, FoldOf(n, k, j), j)
  {
    var f := n / k;
    var i := FoldOf(n, k, j);
    FoldStartIsProduct(n, k, i);
    FoldStartIsProduct(n, k, i + 1);
    if f > 0 {
      var q := j / f;
      assert j == q * f + j % f;
      if q < k - 1 {
        assert (q + 1) * f == q * f + f;
      } else {
        MulMonotone(k - 1, q, f);
      }
    }
  }

  lemma FoldsOrdered(n: nat, k: nat, i: nat, i': nat)
    requires k >= 1 && i < i' < k
    ensures FoldEnd(n, k, i) <= FoldStart(n, k, i')
  {
    FoldStartMonotone(n, k, i + 1, i');
  }

  /** Every index of the data lies in exactly one fold. */
  lemma FoldsPartition(n: nat, k: nat, i: nat, j: nat)
    requires k >= 1 && i < k && j < n
    ensures InFold(n, k, i, j) <==> i == FoldOf(n, k, j)
  {
    var o := FoldOf(n, k, j);
    FoldOfContains(n, k, j);
    if InFold(n, k, i, j) && i != o {
      if i < o {
        FoldsOrdered(n, k, i, o);
      } else {
        FoldsOrdered(n, k, o, i);
      }
    }
  }

  /** `data.slice(testStart, testEnd)`. */
  function TestSet<T>(data: seq<T>, k: nat, i: nat): (test: seq<T>)
    requires k >= 1 && i < k
    ensures FoldStart(|data|, k, i) + |test| == FoldEnd(|data|, k, i) <= |data|
    ensures forall j :: 0 <= j < |test| ==> test[j] == data[FoldStart(|data|, k, i) + j]
  {
    FoldBounds(|data|, k, i);
    data[FoldStart(|data|, k, i)..FoldEnd(|data|, k, i)]
  }

  /** Fold i's test slice is the whole data set, so nothing is left to train on. */
  predicate TestsEverything(n: nat, k: nat, i: nat)
    requires k >= 1
  {
    FoldStart(n, k, i) == 0 && FoldEnd(n, k, i) == n
  }

  /** `[...data.slice(0, testStart), ...data.slice(testEnd)]`. */
  function TrainSet<T>(data: seq<T>, k: nat, i: nat): (train: seq<T>)
    requires k >= 1 && i < k
    ensures |train| + |TestSet(data, k, i)| == |data|
    ensures |train| == 0 <==> TestsEverything(|data|, k, i)
  {
    FoldBounds(|data|, k, i);
    data[..FoldStart(|data|, k, i)] + data[FoldEnd(|data|, k, i)..]
  }

  /** Putting the test slice back into the training data at testStart gives the data back. */
  lemma TrainAndTestRebuildData<T>(data: seq<T>, k: nat, i: nat)
    requires k >= 1 && i < k
    ensures FoldStart(|data|, k, i) <= |TrainSet(data, k, i)|
    ensures data == TrainSet(data, k, i)[..FoldStart(|data|, k, i)] + TestSet(data, k, i) + TrainSet(data, k, i)[FoldStart(|data|, k, i)..]
  {
    FoldBounds(|data|, k, i);
    var s, e := FoldStart(|data|, k, i), FoldEnd(|data|, k, i);
    var train, test := TrainSet(data, k, i), TestSet(data, k, i);
    assert train == data[..s] + data[e..];
    assert train[..s] == data[..s] && train[s..] == data[e..];
    assert test == data[s..e];
    assert data == data[..s] + data[s..e] + data[e..];
  }

  /** A fold trains on nothing when there is no data, or when it is the last fold and every other fold is empty. */
  lemma TestsEverythingIff(n: nat, k: nat, i: nat)
    requires k >= 1 && i < k
    ensures TestsEverything(n, k, i) <==> n == 0 || (i == k - 1 && (k == 1 || n < k))
  {
    var f := n / k;
    FoldStartIsProduct(n, k, i);
    FoldStartIsProduct(n, k, i + 1);
    if n > 0 && n >= k && k > 1 {
      assert f >= 1;
      if i == 0 {
        MulMonotone(2, k, f);
      } else {
        MulMonotone(1, i, f);
      }
    }
    if n > 0 && i < k - 1 && n < k {
      assert f == 0;
    }
  }

  // ---------------------------------------------------------------------
  // Cross-validation
  // ---------------------------------------------------------------------

  /** One fold: train on the rest, predict the test slice and score it. */
  function FoldScore(m: MathLib, kind: Kind, data: seq<Point>, k: nat, i: nat): (r: Result<Metrics, string>)
    requires k >= 1 && i < k
    ensures r.Err? <==> TestsEverything(|data|, k, i)
  {
    match Train(m, kind, TrainSet(data, k, i))
    case Err(e) => Err(e)
    case Ok(t) =>
      var test := TestSet(data, k, i);
      var predictions := seq(|test|, j requires 0 <= j < |test| => Predict(m, t, test[j].x));
      var actual := seq(|test|, j requires 0 <= j < |test| => test[j].target);
      Ok(CalculateMetrics(m, predictions, actual))
  }

  /** The scores of folds i .. k-1, in order; the first fold that throws ends the loop. */
  function Scores(score: nat -> Result<Metrics, string>, k: nat, i: nat): (r: Result<seq<Metrics>, string>)
    requires i <= k
    ensures r.Ok? ==> |r.value| == k - i && forall j :: 0 <= j < k - i ==> score(i + j) == Ok(r.value[j])
    decreases k - i
  {
    if i == k then Ok([])
    else match score(i)
      case Err(e) => Err(e)
      case Ok(s) =>
        match Scores(score, k, i + 1)
        case Err(e) => Err(e)
        case Ok(rest) => Ok([s] + rest)
  }

  lemma {:induction false} ScoresFailIff(score: nat -> Result<Metrics, string>, k: nat, i: nat)
    requires i <= k
    ensures Scores(score, k, i).Err? <==> exists j :: i <= j < k && score(j).Err?
    decreases k - i
  {
    if i < k {
      ScoresFailIff(score, k, i + 1);
      if score(i).Err? {
        assert i <= i < k && score(i).Err?;
      } else {
        assert (exists j :: i <= j < k && score(j).Err?) <==> (exists j :: i + 1 <= j < k && score(j).Err?);
      }
    }
  }

  /** Scoring fold j for j < k. */
  function FoldScores(m: MathLib, kind: Kind, data: seq<Point>, k: nat): nat -> Result<Metrics, string>
    requires k >= 1
  {
    (j: nat) => if j < k then FoldScore(m, kind, data, k, j) else Err("")
  }

  /** Some fold's training throws exactly when there is a single fold or fewer points than folds. */
  lemma SomeFoldFailsIff(m: MathLib, kind: Kind, data: seq<Point>, k: nat)
    requires k >= 1
    ensures (exists j :: 0 <= j < k && FoldScores(m, kind, data, k)(j).Err?) <==> k == 1 || |data| < k
  {
    var scores := FoldScores(m, kind, data, k);
    if k == 1 || |data| < k {
      FoldFails(m, kind, data, k, k - 1);
      assert scores(k - 1).Err?;
    } else {
      forall j | 0 <= j < k
        ensures !scores(j).Err?
      {
        FoldFails(m, kind, data, k, j);
      }
    }
  }

  /**
   * Fold j's score is an error exactly when its test slice takes in all the
   * data: there is no data, or j is the last fold and there is a single
   * fold or fewer points than folds.
   */
  lemma FoldFails(m: MathLib, kind: Kind, data: seq<Point>, k: nat, j: nat)
    requires k >= 1 && j < k
    ensures FoldScores(m, kind, data, k)(j).Err? <==> |data| == 0 || (j == k - 1 && (k == 1 || |data| < k))
  {
    var r := FoldScore(m, kind, data, k, j);
    assert FoldScores(m, kind, data, k)(j) == r;
    TestsEverythingIff(|data|, k, j);
  }

  /** `value / k`, term by term: the reduce that forms the mean adds these. */
  function DividedBy(xs: seq<real>, k: nat): (r: seq<real>)
    requires k >= 1
    ensures |r| == |xs| && forall i :: 0 <= i < |xs| ==> r[i] == xs[i] / (k as real)
  {
    seq(|xs|, i requires 0 <= i < |xs| => xs[i] / (k as real))
  }

  lemma {:induction false} SumDividedBy(xs: seq<real>, k: nat)
    requires k >= 1
    ensures Seqs.Sum(DividedBy(xs, k)) == Seqs.Sum(xs) / (k as real)
    decreases |xs|
  {
    if |xs| > 0 {
      var n := |xs|;
      SumDividedBy(xs[..n - 1], k);
      assert DividedBy(xs, k)[..n - 1] == DividedBy(xs[..n - 1], k);
    }
  }

  /** `scores.reduce((acc, s) => acc + s / k, 0)`. */
  function FoldMean(xs: seq<real>, k: nat): (r: real)
    requires k >= 1
    ensures |xs| == k ==> r == Seqs.Mean(xs)
  {
    SumDividedBy(xs, k);
    Seqs.Sum(DividedBy(xs, k))
  }

  /** `Math.sqrt(scores.reduce((acc, s) => acc + Math.pow(s - mean, 2), 0) / k)`. */
  function FoldStd(m: MathLib, xs: seq<real>, k: nat): (r: real)
    requires k >= 1
    ensures Sound(m) ==> r >= 0.0
    ensures |xs| == k ==> r == m.sqrt(Seqs.Variance(xs))
  {
    var sq := Seqs.SquaredDeviations(xs, FoldMean(xs, k));
    Seqs.SumNonNegative(sq);
    SqrtOfNonNegative(m, Seqs.Sum(sq) / (k as real));
    m.sqrt(Seqs.Sum(sq) / (k as real))
  }

  lemma SqrtOfNonNegative(m: MathLib, x: real)
    ensures Sound(m) && x >= 0.0 ==> m.sqrt(x) >= 0.0
  {
    if Sound(m) && x >= 0.0 {
      SqrtNonNegative(m, x);
    }
  }

  datatype CvResult = CvResult(mean: Metrics, std: Metrics)

  function MseOf(scores: seq<Metrics>): (r: seq<real>)
    ensures |r| == |scores| && forall i :: 0 <= i < |r| ==> r[i] == scores[i].mse
  {
    seq(|scores|, i requires 0 <= i < |scores| => scores[i].mse)
  }

  function MaeOf(scores: seq<Metrics>): (r: seq<real>)
    ensures |r| == |scores| && forall i :: 0 <= i < |r| ==> r[i] == scores[i].mae
  {
    seq(|scores|, i requires 0 <= i < |scores| => scores[i].mae)
  }

  function R2Of(scores: seq<Metrics>): (r: seq<real>)
    ensures |r| == |scores| && forall i :: 0 <= i < |r| ==> r[i] == scores[i].r2
  {
    seq(|scores|, i requires 0 <= i < |scores| => scores[i].r2)
  }

  /** Mean and population standard deviation of each metric over the fold scores. */
  ghost predicate Summarises(m: MathLib, cv: CvResult, scores: seq<Metrics>)
    requires |scores| > 0
  {
    cv.mean == Metrics(Seqs.Mean(MseOf(scores)), Seqs.Mean(MaeOf(scores)), Seqs.Mean(R2Of(scores)))
    && cv.std == Metrics(m.sqrt(Seqs.Variance(MseOf(scores))), m.sqrt(Seqs.Variance(MaeOf(scores))), m.sqrt(Seqs.Variance(R2Of(scores))))
  }

  /** The `mean` and `std` objects `crossValidate` returns, computed from the k fold scores. */
  function Summary(m: MathLib, scores: seq<Metrics>, k: nat): (cv: CvResult)
    requires k >= 1 && |scores| == k
    ensures Summarises(m, cv, scores)
    ensures Sound(m) ==> cv.std.mse >= 0.0 && cv.std.mae >= 0.0 && cv.std.r2 >= 0.0
  {
    var mse, mae, r2 := MseOf(scores), MaeOf(scores), R2Of(scores);
    CvResult(Metrics(FoldMean(mse, k), FoldMean(mae, k), FoldMean(r2, k)),
             Metrics(FoldStd(m, mse, k), FoldStd(m, mae, k), FoldStd(m, r2, k)))
  }

  /** `crossValidate(data, model, k)`: it throws exactly when some fold leaves nothing to train on. */
  function CrossValidate(m: MathLib, kind: Kind, data: seq<Point>, k: nat): (r: Result<CvResult, string>)
    requires k >= 1
    ensures r.Err? <==> k == 1 || |data| < k
    ensures r.Ok? ==> exists scores: seq<Metrics> :: |scores| == k && Summarises(m, r.value, scores)
    ensures r.Ok? && Sound(m) ==> r.value.std.mse >= 0.0 && r.value.std.mae >= 0.0 && r.value.std.r2 >= 0.0
  {
    var score := FoldScores(m, kind, data, k);
    ScoresFailIff(score, k, 0);
    SomeFoldFailsIff(m, kind, data, k);
    match Scores(score, k, 0)
    case Err(e) => Err(e)
    case Ok(scores) => Ok(Summary(m, scores, k))
  }

  // ---------------------------------------------------------------------
  // The results table
  // ---------------------------------------------------------------------

  /** A data row: field name to numeric value; a missing field is absent. */
  type Row = map<string, real>

  /** `d[field] || 0`. */
  function FieldOrZero(row: Row, field: string): real
  {
    if field in row then row[field] else 0.0
  }

  function Points(rows: seq<Row>, metric: string, target: string): (ps: seq<Point>)
    ensures |ps| == |rows|
    ensures forall i :: 0 <= i < |rows| ==> ps[i] == Point(FieldOrZero(rows[i], metric), FieldOrZero(rows[i], target))
  {
    seq(|rows|, i requires 0 <= i < |rows| => Point(FieldOrZero(rows[i], metric), FieldOrZero(rows[i], target)))
  }

  datatype Prediction = Prediction(actual: real, predicted: real, x: real)

  datatype ModelResult = ModelResult(cvResults: CvResult, predictions: seq<Prediction>, model: Trained)

  /** `modelData.map(d => ({ actual, predicted: trainedModel.predict({ x }), x }))`. */
  function PredictAll(m: MathLib, t: Trained, points: seq<Point>): (ps: seq<Prediction>)
    requires |t.coefficients| == Width(t.kind)
    ensures |ps| == |points|
    ensures forall i :: 0 <= i < |points| ==>
      ps[i] == Prediction(points[i].target, Predict(m, t, points[i].x), points[i].x)
  {
    seq(|points|, i requires 0 <= i < |points| => Prediction(points[i].target, Predict(m, t, points[i].x), points[i].x))
  }

  /** Cross-validate one model, train it on all points and predict every point. */
  function EvaluateModel(m: MathLib, kind: Kind, points: seq<Point>): (r: Result<ModelResult, string>)
    ensures r.Err? <==> |points| < Folds
    ensures r.Ok? ==> r.value.cvResults == CrossValidate(m, kind, points, Folds).value
    ensures r.Ok? ==> r.value.model == Train(m, kind, points).value
    ensures r.Ok? ==> r.value.predictions == PredictAll(m, r.value.model, points)
  {
    match CrossValidate(m, kind, points, Folds)
    case Err(e) => Err(e)
    case Ok(cv) =>
      match Train(m, kind, points)
      case Err(e) => Err(e)
      case Ok(t) => Ok(ModelResult(cv, PredictAll(m, t, points), t))
  }

  /**
   * The guarded table: no data gives an empty table; an unknown model name
   * is skipped, and so is a model whose evaluation throws, while the other
   * selected models are still evaluated.
   */
  function ModelResults(m: MathLib, rows: seq<Row>, selected: seq<string>, metric: string, target: string)
    : (r: map<string, ModelResult>)
    ensures forall name :: name in r <==>
      |rows| > 0 && name in selected && ModelNamed(name).Some?
      && EvaluateModel(m, ModelNamed(name).value, Points(rows, metric, target)).Ok?
    ensures forall name :: name in r ==>
      r[name] == EvaluateModel(m, ModelNamed(name).value, Points(rows, metric, target)).value
  {
    if |rows| == 0 || |selected| == 0 then map[]
    else
      var earlier := ModelResults(m, rows, selected[..|selected| - 1], metric, target);
      var name := selected[|selected| - 1];
      assert forall x :: x in selected <==> x in selected[..|selected| - 1] || x == name;
      match ModelNamed(name)
      case None => earlier
      case Some(kind) =>
        match EvaluateModel(m, kind, Points(rows, metric, target))
        case Err(_) => earlier
        case Ok(res) => earlier[name := res]
  }

  /** With enough rows every known selected model appears; with fewer than k rows none does. */
  lemma ModelResultsKeys(m: MathLib, rows: seq<Row>, selected: seq<string>, metric: string, target: string)
    ensures |rows| >= Folds ==> forall name :: name in ModelResults(m, rows, selected, metric, target) <==>
      name in selected && ModelNamed(name).Some?
    ensures |rows| < Folds ==> ModelResults(m, rows, selected, metric, target) == map[]
  {
    var r := ModelResults(m, rows, selected, metric, target);
    if |rows| < Folds {
      assert forall name :: name !in r;
    }
  }

  /** The older copy's table: an unknown name or a failing model aborts the whole table. */
  function ModelResultsUnguarded(m: MathLib, rows: seq<Row>, selected: seq<string>, metric: string, target: string)
    : (r: Result<map<string, ModelResult>, string>)
    requires forall i :: 0 <= i < |rows| ==> metric in rows[i] && target in rows[i]
    ensures r.Ok? <==> forall name :: name in selected ==>
      ModelNamed(name).Some? && EvaluateModel(m, ModelNamed(name).value, Points(rows, metric, target)).Ok?
    ensures r.Ok? ==> forall name :: name in r.value <==> name in selected
    ensures r.Ok? ==> forall name :: name in r.value ==>
      r.value[name] == EvaluateModel(m, ModelNamed(name).value, Points(rows, metric, target)).value
  {
    var ps := Points(rows, metric, target);
    var eval := (name: string) => Evaluate(m, name, ps);
    var r := AllOrNothing(selected, eval);
    assert forall name :: eval(name) == Evaluate(m, name, ps);
    r
  }

  /** One model of the older copy's loop: an unknown name throws a TypeError when its `train` is called. */
  function Evaluate(m: MathLib, name: string, ps: seq<Point>): (r: Result<ModelResult, string>)
    ensures r.Ok? <==> ModelNamed(name).Some? && EvaluateModel(m, ModelNamed(name).value, ps).Ok?
    ensures r.Ok? ==> r.value == EvaluateModel(m, ModelNamed(name).value, ps).value
  {
    match ModelNamed(name)
    case None => Err("TypeError: Cannot read properties of undefined (reading 'train')")
    case Some(kind) => EvaluateModel(m, kind, ps)
  }

  /** The loop over the selected names in order: the first evaluation that throws ends it. */
  function AllOrNothing(selected: seq<string>, eval: string -> Result<ModelResult, string>)
    : (r: Result<map<string, ModelResult>, string>)
    ensures r.Ok? <==> forall name :: name in selected ==> eval(name).Ok?
    ensures r.Ok? ==> forall name :: name in r.value <==> name in selected
    ensures r.Ok? ==> forall name :: name in r.value ==> r.value[name] == eval(name).value
    ensures r.Err? ==> exists name :: name in selected && eval(name) == Err(r.error)
  {
    if |selected| == 0 then Ok(map[])
    else
      var name := selected[|selected| - 1];
      assert forall x :: x in selected <==> x in selected[..|selected| - 1] || x == name;
      match AllOrNothing(selected[..|selected| - 1], eval)
      case Err(e) => Err(e)
      case Ok(earlier) =>
        match eval(name)
        case Err(e) => Err(e)
        case Ok(res) => Ok(earlier[name := res])
  }

  /** The older copy produces a table exactly when there are enough rows and every selected name is known. */
  lemma UnguardedSucceedsIff(m: MathLib, rows: seq<Row>, selected: seq<string>, metric: string, target: string)
    requires forall i :: 0 <= i < |rows| ==> metric in rows[i] && target in rows[i]
    requires |selected| > 0
    ensures ModelResultsUnguarded(m, rows, selected, metric, target).Ok? <==>
      |rows| >= Folds && forall name :: name in selected ==> ModelNamed(name).Some?
  {
    var ps := Points(rows, metric, target);
    assert selected[0] in selected;
    if ModelResultsUnguarded(m, rows, selected, metric, target).Ok? {
      assert EvaluateModel(m, ModelNamed(selected[0]).value, ps).Ok?;
    }
  }

  /** Whenever the older copy produces a table, the guarded copy produces the same one. */
  lemma UnguardedAgreesWhenItSucceeds(m: MathLib, rows: seq<Row>, selected: seq<string>, metric: string, target: string)
    requires forall i :: 0 <= i < |rows| ==> metric in rows[i] && target in rows[i]
    requires |selected| > 0
    requires ModelResultsUnguarded(m, rows, selected, metric, target).Ok?
    ensures ModelResultsUnguarded(m, rows, selected, metric, target).value == ModelResults(m, rows, selected, metric, target)
  {
    var u := ModelResultsUnguarded(m, rows, selected, metric, target).value;
    var g := ModelResults(m, rows, selected, metric, target);
    assert forall name :: name in u <==> name in g by {
      UnguardedSucceedsIff(m, rows, selected, metric, target);
      ModelResultsKeys(m, rows, selected, metric, target);
    }
    assert forall name :: name in g ==> u[name] == g[name];
    SameEntries(u, g);
  }

  /** Two maps with the same keys and the same value at every key are equal. */
  lemma SameEntries<K, V>(u: map<K, V>, g: map<K, V>)
    requires forall k :: k in u <==> k in g
    requires forall k :: k in g ==> u[k] == g[k]
    ensures u == g
  {
  }
}
