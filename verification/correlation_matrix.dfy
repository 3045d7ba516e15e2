/**
 * The data behind the correlation scatter matrix: one point per unordered
 * pair of metrics, with a significance label, a colour and a dot size
 * derived from the pair's correlation coefficient.
 */
module CorrelationMatrix {
  import opened Numerics
  import Seqs

  datatype Significance = Weak | Moderate | Strong

  /** The palette entries the matrix uses: grey, the success colour and the error colour. */
  datatype Color = Grey | Success | Failure

  const DefaultThreshold := 0.3

  /** `getSignificance`: a three-tier classification of |c|. */
  function SignificanceOf(c: real): (s: Significance)
    ensures s == Weak <==> Abs(c) < 0.3
    ensures s == Moderate <==> 0.3 <= Abs(c) < 0.7
    ensures s == Strong <==> 0.7 <= Abs(c)
  {
    var a := Abs(c);
    if a < 0.3 then Weak
    else if a < 0.7 then Moderate
    else Strong
  }

  function Rank(s: Significance): nat
  {
    match s
    case Weak => 0
    case Moderate => 1
    case Strong => 2
  }

  /** A stronger correlation never gets a weaker label, and the label ignores the sign. */
  lemma SignificanceMonotone(a: real, b: real)
    requires Abs(a) <= Abs(b)
    ensures Rank(SignificanceOf(a)) <= Rank(SignificanceOf(b))
    ensures SignificanceOf(-a) == SignificanceOf(a)
  {
  }

  /** `getCorrelationColor`: grey below the threshold, otherwise by sign. */
  function ColorOf(c: real, threshold: real): (col: Color)
    ensures col == Grey <==> Abs(c) < threshold
    ensures col == Success <==> threshold <= Abs(c) && c > 0.0
    ensures col == Failure <==> threshold <= Abs(c) && c <= 0.0
  {
    if Abs(c) < threshold then Grey
    else if c > 0.0 then Success
    else Failure
  }

  /** Flipping the sign of a non-zero correlation above the threshold swaps the two signal colours. */
  lemma ColorFlipsWithSign(c: real, threshold: real)
    requires c != 0.0
    ensures ColorOf(c, threshold) == Grey <==> ColorOf(-c, threshold) == Grey
    ensures ColorOf(c, threshold) == Success <==> ColorOf(-c, threshold) == Failure
  {
  }

  /** One point of the matrix. */
  datatype Entry = Entry(xMetric: string, yMetric: string, x: int, y: int, correlation: real,
                         significance: Significance, color: Color, size: real)

  /** The key under which the correlation of a pair is stored. */
  function Key(x: string, y: string): string
  {
    x + "_" + y
  }

  /** `data[key] || 0`: a stored coefficient, or 0 when the key is missing. */
  function Lookup(data: map<string, real>, key: string): (c: real)
    ensures key !in data ==> c == 0.0
    ensures key in data ==> c == data[key]
  {
    if key in data then data[key] else 0.0
  }

  /** The point for the pair (metrics[i], metrics[j]). */
  function MakeEntry(data: map<string, real>, metrics: seq<string>, threshold: real, i: nat, j: nat): (e: Entry)
    requires i < j < |metrics|
    ensures e.xMetric == metrics[i] && e.yMetric == metrics[j] && e.x == i
    ensures 0 <= e.y <= j && e.y < |metrics| && metrics[e.y] == metrics[j]
    ensures Key(metrics[i], metrics[j]) !in data ==> e.correlation == 0.0
    ensures e.size >= 0.0
    ensures e.significance == Weak <==> e.size < 30.0
    ensures e.significance == Strong <==> e.size >= 70.0
  {
    var c := Lookup(data, Key(metrics[i], metrics[j]));
    Entry(metrics[i], metrics[j], i, Seqs.IndexOf(metrics, metrics[j]), c,
          SignificanceOf(c), ColorOf(c, threshold), Abs(c) * 100.0)
  }

  /** With distinct metric names each point's coordinates are the pair's own indices, below the diagonal. */
  lemma EntryCoordinates(data: map<string, real>, metrics: seq<string>, threshold: real, i: nat, j: nat)
    requires i < j < |metrics| && Seqs.NoDuplicates(metrics)
    ensures MakeEntry(data, metrics, threshold, i, j).y == j
    ensures MakeEntry(data, metrics, threshold, i, j).x < MakeEntry(data, metrics, threshold, i, j).y
  {
  }

  /** The points contributed by metric i: its pairs with every later metric. */
  function Row(data: map<string, real>, metrics: seq<string>, threshold: real, i: nat): (r: seq<Entry>)
    requires i < |metrics|
  {
    seq(|metrics| - i - 1, t requires 0 <= t < |metrics| - i - 1 => MakeEntry(data, metrics, threshold, i, i + 1 + t))
  }

  /** The rows of the first n metrics, concatenated. */
  function Rows(data: map<string, real>, metrics: seq<string>, threshold: real, n: nat): seq<Entry>
    requires n <= |metrics|
  {
    if n == 0 then [] else Rows(data, metrics, threshold, n - 1) + Row(data, metrics, threshold, n - 1)
  }

  /** `correlationData`: the flatMap over every metric of its row. */
  function CorrelationData(data: map<string, real>, metrics: seq<string>, threshold: real): seq<Entry>
  {
    Rows(data, metrics, threshold, |metrics|)
  }

  /** Where row i starts: the number of pairs whose first metric comes before i. */
  function RowStart(m: nat, i: nat): nat
    requires i <= m
  {
    if i == 0 then 0 else RowStart(m, i - 1) + (m - i)
  }

  lemma {:induction false} RowStartClosedForm(m: nat, i: nat)
    requires i <= m
    ensures 2 * RowStart(m, i) == i * (2 * m - i - 1)
  {
    if i > 0 {
      RowStartClosedForm(m, i - 1);
    }
  }

  lemma {:induction false} RowsLength(data: map<string, real>, metrics: seq<string>, threshold: real, n: nat)
    requires n <= |metrics|
    ensures |Rows(data, metrics, threshold, n)| == RowStart(|metrics|, n)
  {
    if n > 0 {
      RowsLength(data, metrics, threshold, n - 1);
    }
  }

  /** m metrics give exactly m(m-1)/2 points. */
  lemma PairCount(data: map<string, real>, metrics: seq<string>, threshold: real)
    ensures 2 * |CorrelationData(data, metrics, threshold)| == |metrics| * (|metrics| - 1)
  {
    RowsLength(data, metrics, threshold, |metrics|);
    RowStartClosedForm(|metrics|, |metrics|);
  }

  lemma {:induction false} RowsPrefix(data: map<string, real>, metrics: seq<string>, threshold: real, n: nat, n': nat)
    requires n <= n' <= |metrics|
    ensures Rows(data, metrics, threshold, n) <= Rows(data, metrics, threshold, n')
  {
    if n < n' {
      RowsPrefix(data, metrics, threshold, n, n' - 1);
    }
  }

  /** Row-major order: the pair (i, j) sits at RowStart(m, i) + (j - i - 1). */
  lemma PairPosition(data: map<string, real>, metrics: seq<string>, threshold: real, i: nat, j: nat)
    requires i < j < |metrics|
    ensures RowStart(|metrics|, i) + (j - i - 1) < |CorrelationData(data, metrics, threshold)|
    ensures CorrelationData(data, metrics, threshold)[RowStart(|metrics|, i) + (j - i - 1)]
      == MakeEntry(data, metrics, threshold, i, j)
  {
    RowEntry(data, metrics, threshold, i, j);
    RowsPrefix(data, metrics, threshold, i + 1, |metrics|);
    Seqs.PrefixIndex(Rows(data, metrics, threshold, i + 1), CorrelationData(data, metrics, threshold), RowStart(|metrics|, i) + (j - i - 1));
  }

  /** The pair (i, j) is already in place once row i has been appended. */
  lemma RowEntry(data: map<string, real>, metrics: seq<string>, threshold: real, i: nat, j: nat)
    requires i < j < |metrics|
    ensures RowStart(|metrics|, i) + (j - i - 1) < |Rows(data, metrics, threshold, i + 1)|
    ensures Rows(data, metrics, threshold, i + 1)[RowStart(|metrics|, i) + (j - i - 1)]
      == MakeEntry(data, metrics, threshold, i, j)
  {
    RowsLength(data, metrics, threshold, i);
    var before := Rows(data, metrics, threshold, i);
    var row := Row(data, metrics, threshold, i);
    assert Rows(data, metrics, threshold, i + 1) == before + row;
    assert (before + row)[|before| + (j - i - 1)] == row[j - i - 1];
  }

  /** Each point is the point of some pair i < j. */
  ghost predicate FromPair(data: map<string, real>, metrics: seq<string>, threshold: real, e: Entry)
  {
    exists i: nat, j: nat :: i < j < |metrics| && e == MakeEntry(data, metrics, threshold, i, j)
  }

  lemma {:induction false} EveryPointIsAPair(data: map<string, real>, metrics: seq<string>, threshold: real, n: nat)
    requires n <= |metrics|
    ensures forall k :: 0 <= k < |Rows(data, metrics, threshold, n)| ==>
      FromPair(data, metrics, threshold, Rows(data, metrics, threshold, n)[k])
  {
    if n > 0 {
      EveryPointIsAPair(data, metrics, threshold, n - 1);
      var before := Rows(data, metrics, threshold, n - 1);
      var row := Row(data, metrics, threshold, n - 1);
      forall k | 0 <= k < |before + row|
        ensures FromPair(data, metrics, threshold, (before + row)[k])
      {
        if k >= |before| {
          var t := k - |before|;
          assert row[t] == MakeEntry(data, metrics, threshold, n - 1, n + t);
        }
      }
    }
  }
}
