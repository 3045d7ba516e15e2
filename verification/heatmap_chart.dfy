/**
 * The heatmap's colour scale: the range of the plotted values, the colour of
 * one cell (the dark theme colour followed by a two-hex-digit alpha), and the
 * label fields added to every cell.
 */
module HeatmapChart {
  import opened Wrappers
  import opened Numerics
  import opened JsValues
  import Seqs

  /** The smallest and largest plotted value. */
  datatype Bounds = Bounds(lo: real, hi: real)

  /** `item[valueKey]` for every cell, as numbers (`None` where `Number()` gives NaN). */
  function Plotted(data: seq<Record>, valueKey: string): (r: seq<Option<real>>)
    ensures |r| == |data|
    ensures forall i :: 0 <= i < |data| ==> r[i] == ToNumber(Get(data[i], valueKey))
  {
    seq(|data|, i requires 0 <= i < |data| => ToNumber(Get(data[i], valueKey)))
  }

  predicate AllNumbers(values: seq<Option<real>>)
  {
    forall i :: 0 <= i < |values| ==> values[i].Some?
  }

  function Numbers(values: seq<Option<real>>): (r: seq<real>)
    requires AllNumbers(values)
    ensures |r| == |values| && forall i :: 0 <= i < |r| ==> values[i] == Some(r[i])
  {
    seq(|values|, i requires 0 <= i < |values| && AllNumbers(values) => values[i].value)
  }

  /**
   * `Math.min(...)` and `Math.max(...)` of the plotted values.  They are
   * finite numbers only when there is at least one cell and every value
   * converts to a number; otherwise (±Infinity or NaN) there is no range.
   */
  function ValueRange(data: seq<Record>, valueKey: string): (r: Option<Bounds>)
    ensures r.Some? <==> |data| > 0 && AllNumbers(Plotted(data, valueKey))
    ensures r.Some? ==> r.value.lo <= r.value.hi
    ensures r.Some? ==> forall i :: 0 <= i < |data| ==>
      r.value.lo <= ToNumber(Get(data[i], valueKey)).value <= r.value.hi
    ensures r.Some? ==> exists i :: 0 <= i < |data| && ToNumber(Get(data[i], valueKey)) == Some(r.value.lo)
    ensures r.Some? ==> exists i :: 0 <= i < |data| && ToNumber(Get(data[i], valueKey)) == Some(r.value.hi)
  {
    var p := Plotted(data, valueKey);
    if |data| > 0 && AllNumbers(p) then
      var xs := Numbers(p);
      var lo, hi := Seqs.Min(xs), Seqs.Max(xs);
      var i :| 0 <= i < |xs| && xs[i] == lo;
      var j :| 0 <= j < |xs| && xs[j] == hi;
      assert p[i] == Some(lo) && p[j] == Some(hi);
      Some(Bounds(lo, hi))
    else None
  }

  // ---------------------------------------------------------------------
  // Hexadecimal rendering (`Number.prototype.toString(16)` on integers)
  // ---------------------------------------------------------------------

  predicate IsHexDigit(c: char)
  {
    '0' <= c <= '9' || 'a' <= c <= 'f'
  }

  /** The lower-case digit for 0..15. */
  function HexDigit(d: nat): (c: char)
    requires d < 16
    ensures IsHexDigit(c)
  {
    if d < 10 then ('0' as int + d) as char else ('a' as int + d - 10) as char
  }

  function DigitValue(c: char): (d: nat)
    requires IsHexDigit(c)
    ensures d < 16 && HexDigit(d) == c
  {
    if c <= '9' then c as int - '0' as int else c as int - 'a' as int + 10
  }

  /** The lower-case base-16 digits of n, without leading zeros. */
  function HexNat(n: nat): (r: string)
    ensures |r| >= 1 && forall i :: 0 <= i < |r| ==> IsHexDigit(r[i])
    ensures n < 16 <==> |r| == 1
    ensures n < 256 ==> |r| <= 2
  {
    if n < 16 then [HexDigit(n)]
    else HexNat(n / 16) + [HexDigit(n % 16)]
  }

  /** Reading base-16 digits back into a number. */
  function HexValue(s: string): nat
    requires forall i :: 0 <= i < |s| ==> IsHexDigit(s[i])
  {
    if |s| == 0 then 0
    else HexValue(s[..|s| - 1]) * 16 + DigitValue(s[|s| - 1])
  }

  /** Rendering in base 16 and reading the digits back gives the number again. */
  lemma {:induction false} HexRoundTrip(n: nat)
    ensures HexValue(HexNat(n)) == n
  {
    if n >= 16 {
      HexRoundTrip(n / 16);
      var s := HexNat(n);
      assert s[..|s| - 1] == HexNat(n / 16);
    }
  }

  /** `toString(16)` of an integer: a minus sign in front of the digits of a negative number. */
  function Hex(n: int): string
  {
    if n < 0 then "-" + HexNat(-n) else HexNat(n)
  }

  /** `padStart(2, '0')`. */
  function PadTwo(s: string): (r: string)
    ensures |r| == if |s| >= 2 then |s| else 2
    ensures r[|r| - |s|..] == s
    ensures forall i :: 0 <= i < |r| - |s| ==> r[i] == '0'
  {
    if |s| >= 2 then s else seq(2 - |s|, _ => '0') + s
  }

  // ---------------------------------------------------------------------
  // Cell colours
  // ---------------------------------------------------------------------

  /**
   * The alpha suffix of `getColor(value)`: the ratio of the value within the
   * range, scaled to 0..255, rounded and rendered in two hex digits.  When
   * the range is a single value the ratio is 0/0 (NaN) for that value and
   * ±Infinity for any other, and those names are what gets rendered.
   */
  function Suffix(b: Bounds, value: real): string
  {
    if b.hi == b.lo then
      if value == b.lo then "NaN" else if value > b.lo then "Infinity" else "-Infinity"
    else
      PadTwo(Hex(Alpha(b, value)))
  }

  /** `(value - minValue) / (maxValue - minValue)`. */
  function Ratio(b: Bounds, value: real): real
    requires b.hi != b.lo
  {
    (value - b.lo) / (b.hi - b.lo)
  }

  /** `Math.round(ratio * 255)`. */
  function Alpha(b: Bounds, value: real): int
    requires b.hi != b.lo
  {
    Round(Ratio(b, value) * 255.0)
  }

  /** `getColor(value)`: the dark colour followed by the alpha suffix. */
  function ColorOf(maxColor: string, b: Bounds, value: real): (c: string)
    ensures |c| == |maxColor| + |Suffix(b, value)|
    ensures c[..|maxColor|] == maxColor && c[|maxColor|..] == Suffix(b, value)
  {
    maxColor + Suffix(b, value)
  }

  /** A value inside a proper range has a ratio in [0, 1] and an alpha in 0..255. */
  lemma RatioInUnitInterval(b: Bounds, value: real)
    requires b.lo < b.hi && b.lo <= value <= b.hi
    ensures 0.0 <= Ratio(b, value) <= 1.0
    ensures 0 <= Alpha(b, value) <= 255
  {
    QuotientNonNegative(value - b.lo, b.hi - b.lo, Ratio(b, value));
    QuotientAtMostOne(value - b.lo, b.hi - b.lo, Ratio(b, value));
  }

  /**
   * For a value inside a proper range the suffix is exactly two hex digits
   * that read back as the rounded, scaled ratio.
   */
  lemma SuffixIsTwoHexDigits(b: Bounds, value: real)
    requires b.lo < b.hi && b.lo <= value <= b.hi
    ensures |Suffix(b, value)| == 2
    ensures forall i :: 0 <= i < 2 ==> IsHexDigit(Suffix(b, value)[i])
    ensures HexValue(Suffix(b, value)) == Alpha(b, value)
  {
    RatioInUnitInterval(b, value);
    var n := Alpha(b, value);
    var h := HexNat(n);
    HexRoundTrip(n);
    if |h| == 1 {
      var s := PadTwo(h);
      assert s == ['0'] + h;
      assert s[..1] == ['0'] && s[1..] == h;
      assert HexValue(s[..1]) == 0 by {
        assert s[..1][..0] == [];
      }
      assert HexValue(s) == HexValue(s[..1]) * 16 + DigitValue(s[1]);
      assert h[..0] == [];
    }
  }

  /** The cells with the lowest and highest values get the alphas 00 and ff. */
  lemma EndsOfTheScale(b: Bounds)
    requires b.lo < b.hi
    ensures Suffix(b, b.lo) == "00"
    ensures Suffix(b, b.hi) == "ff"
  {
    assert Ratio(b, b.lo) == 0.0;
    QuotientOfSelf(b.hi - b.lo, Ratio(b, b.hi));
    assert Alpha(b, b.hi) == 255;
    assert HexNat(255) == HexNat(15) + [HexDigit(15)];
  }

  // ---------------------------------------------------------------------
  // Enriched cells
  // ---------------------------------------------------------------------

  const LabelKeys: set<string> := {"xLabel", "yLabel", "valueLabel"}

  /** `{ ...item, xLabel, yLabel, valueLabel }`. */
  function Enrich(item: Record, xLabel: string, yLabel: string, valueLabel: string): Record
  {
    item["xLabel" := Str(xLabel)]["yLabel" := Str(yLabel)]["valueLabel" := Str(valueLabel)]
  }

  /** `enrichedData`: every cell with the three axis labels added. */
  function EnrichedData(data: seq<Record>, xLabel: string, yLabel: string, valueLabel: string): (r: seq<Record>)
    ensures |r| == |data|
    ensures forall i :: 0 <= i < |data| ==> r[i].Keys == data[i].Keys + LabelKeys
    ensures forall i, k :: 0 <= i < |data| && k in data[i] && k !in LabelKeys ==> r[i][k] == data[i][k]
    ensures forall i :: 0 <= i < |data| ==>
      r[i]["xLabel"] == Str(xLabel) && r[i]["yLabel"] == Str(yLabel) && r[i]["valueLabel"] == Str(valueLabel)
  {
    seq(|data|, i requires 0 <= i < |data| => Enrich(data[i], xLabel, yLabel, valueLabel))
  }
}
