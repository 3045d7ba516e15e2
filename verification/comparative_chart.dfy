/**
 * The comparative bar chart's value axis and its tooltip: the axis domain is
 * the range of every plotted value widened by a tenth of its span on each
 * side, and a tooltip over exactly two bars shows the change between them.
 */
module ComparativeChart {
  import opened Wrappers
  import opened JsValues
  import Seqs

  // ---------------------------------------------------------------------
  // Axis domain
  // ---------------------------------------------------------------------

  /** The values of one item, one per series, in series order. */
  function ItemValues(item: Record, seriesKeys: seq<string>): (r: seq<Value>)
    ensures |r| == |seriesKeys|
    ensures forall j :: 0 <= j < |seriesKeys| ==> r[j] == Get(item, seriesKeys[j])
  {
    seq(|seriesKeys|, j requires 0 <= j < |seriesKeys| => Get(item, seriesKeys[j]))
  }

  /** `data.flatMap(item => series.map(s => item[s.dataKey]))`. */
  function AllValues(data: seq<Record>, seriesKeys: seq<string>): (r: seq<Value>)
    ensures |r| == |data| * |seriesKeys|
  {
    if |data| == 0 then []
    else AllValues(data[..|data| - 1], seriesKeys) + ItemValues(data[|data| - 1], seriesKeys)
  }

  /** A value plotted for some item and some series. */
  ghost predicate Plotted(data: seq<Record>, seriesKeys: seq<string>, v: Value)
  {
    exists i, j :: 0 <= i < |data| && 0 <= j < |seriesKeys| && v == Get(data[i], seriesKeys[j])
  }

  /** The collected values are exactly the item-by-series values, item-major. */
  lemma {:induction false} AllValuesPosition(data: seq<Record>, seriesKeys: seq<string>, i: nat, j: nat)
    requires i < |data| && j < |seriesKeys|
    ensures i * |seriesKeys| + j < |AllValues(data, seriesKeys)|
    ensures AllValues(data, seriesKeys)[i * |seriesKeys| + j] == Get(data[i], seriesKeys[j])
    decreases |data|
  {
    var init := data[..|data| - 1];
    var before := AllValues(init, seriesKeys);
    if i < |data| - 1 {
      AllValuesPosition(init, seriesKeys, i, j);
      assert init[i] == data[i];
    } else {
      assert |before| == i * |seriesKeys|;
    }
  }

  lemma {:induction false} AllValuesArePlotted(data: seq<Record>, seriesKeys: seq<string>)
    ensures forall k :: 0 <= k < |AllValues(data, seriesKeys)| ==>
      Plotted(data, seriesKeys, AllValues(data, seriesKeys)[k])
    decreases |data|
  {
    if |data| > 0 {
      var init := data[..|data| - 1];
      AllValuesArePlotted(init, seriesKeys);
      var before := AllValues(init, seriesKeys);
      var last := ItemValues(data[|data| - 1], seriesKeys);
      forall k | 0 <= k < |before + last|
        ensures Plotted(data, seriesKeys, (before + last)[k])
      {
        if k < |before| {
          var i, j :| 0 <= i < |init| && 0 <= j < |seriesKeys| && before[k] == Get(init[i], seriesKeys[j]);
          assert init[i] == data[i];
        } else {
          assert last[k - |before|] == Get(data[|data| - 1], seriesKeys[k - |before|]);
        }
      }
    }
  }

  /**
   * The axis domain: 'auto' on both ends, a numeric interval, or an interval
   * whose ends are not finite numbers (no values at all gives
   * [Infinity, -Infinity]; a non-numeric value gives NaN).
   */
  datatype Domain = Auto | Span(lower: real, upper: real) | Unbounded

  predicate AllNumeric(values: seq<Value>)
  {
    forall k :: 0 <= k < |values| ==> ToNumber(values[k]).Some?
  }

  function AsNumbers(values: seq<Value>): (r: seq<real>)
    requires AllNumeric(values)
    ensures |r| == |values| && forall k :: 0 <= k < |r| ==> ToNumber(values[k]) == Some(r[k])
  {
    seq(|values|, k requires 0 <= k < |values| && AllNumeric(values) => ToNumber(values[k]).value)
  }

  /** `calculateDomain()`. */
  function CalculateDomain(showChangePercentage: bool, data: seq<Record>, seriesKeys: seq<string>): (d: Domain)
    ensures d.Auto? <==> !showChangePercentage
    ensures d.Span? <==> showChangePercentage && |data| * |seriesKeys| > 0 && AllNumeric(AllValues(data, seriesKeys))
    ensures d.Span? ==> forall k :: 0 <= k < |data| * |seriesKeys| ==>
      d.lower <= ToNumber(AllValues(data, seriesKeys)[k]).value <= d.upper
  {
    if !showChangePercentage then Auto
    else
      var values := AllValues(data, seriesKeys);
      if |values| > 0 && AllNumeric(values) then
        var xs := AsNumbers(values);
        var lo, hi := Seqs.Min(xs), Seqs.Max(xs);
        var padding := (hi - lo) * 0.1;
        Span(lo - padding, hi + padding)
      else Unbounded
  }

  /**
   * The interval is the value range widened by a tenth of its span on each
   * side: centred on the range's midpoint and 1.2 times as wide.
   */
  lemma DomainWidensRange(data: seq<Record>, seriesKeys: seq<string>)
    requires |data| * |seriesKeys| > 0 && AllNumeric(AllValues(data, seriesKeys))
    ensures var d := CalculateDomain(true, data, seriesKeys);
      var xs := AsNumbers(AllValues(data, seriesKeys));
      d.Span?
      && d.lower <= Seqs.Min(xs) <= Seqs.Max(xs) <= d.upper
      && d.lower + d.upper == Seqs.Min(xs) + Seqs.Max(xs)
      && d.upper - d.lower == 1.2 * (Seqs.Max(xs) - Seqs.Min(xs))
  {
  }

  // ---------------------------------------------------------------------
  // Tooltip
  // ---------------------------------------------------------------------

  /**
   * The change line of the tooltip: absent unless the tooltip lists exactly
   * two bars; a percentage when the first bar is non-zero; otherwise the
   * rendering of a division by zero.
   */
  datatype ChangeLine = NoLine | Percent(p: real) | NotFinite(text: string)

  function ChangeOf(payload: seq<real>): (c: ChangeLine)
    ensures c.NoLine? <==> |payload| != 2
    ensures c.Percent? <==> |payload| == 2 && payload[0] != 0.0
    ensures c.NotFinite? ==> c.text in {"Infinity", "-Infinity", "NaN"}
  {
    if |payload| != 2 then NoLine
    else
      var p0, p1 := payload[0], payload[1];
      if p0 != 0.0 then Percent((p1 - p0) / p0 * 100.0)
      else if p1 - p0 > 0.0 then NotFinite("Infinity")
      else if p1 - p0 < 0.0 then NotFinite("-Infinity")
      else NotFinite("NaN")
  }

  /** Applying the reported percentage to the first bar gives the second. */
  lemma ChangeReproducesSecond(payload: seq<real>)
    requires ChangeOf(payload).Percent?
    ensures payload[1] == payload[0] + payload[0] * ChangeOf(payload).p / 100.0
  {
    var p0, p1 := payload[0], payload[1];
    GrowthInverse(p0, p1, ChangeOf(payload).p);
  }

  lemma GrowthInverse(p0: real, p1: real, p: real)
    requires p0 != 0.0 && p == (p1 - p0) / p0 * 100.0
    ensures p1 == p0 + p0 * p / 100.0
  {
    var q := (p1 - p0) / p0;
    assert q * p0 == p1 - p0;
    assert p0 * p / 100.0 == p0 * q;
  }
}
