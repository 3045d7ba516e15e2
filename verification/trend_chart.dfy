/**
 * The split point of the trend chart's two-colour gradient: the fraction of
 * the plot height, measured from the top, at which the series crosses zero.
 */
module TrendChart {
  import Seqs

  /**
   * `gradientOffset` over the plotted y values: 0 when nothing is plotted or
   * everything is at or below zero, 1 when everything is at or above zero,
   * otherwise the position of zero between the maximum and the minimum.
   */
  function GradientOffset(values: seq<real>): (r: real)
    ensures 0.0 <= r <= 1.0
    ensures |values| == 0 ==> r == 0.0
    ensures |values| > 0 && Seqs.Max(values) <= 0.0 ==> r == 0.0
    ensures |values| > 0 && Seqs.Max(values) > 0.0 && Seqs.Min(values) >= 0.0 ==> r == 1.0
    ensures |values| > 0 && Seqs.Max(values) > 0.0 && Seqs.Min(values) < 0.0 ==> 0.0 < r < 1.0
    // for a series with both signs the offset is where zero falls between the maximum and the minimum
    ensures |values| > 0 && Seqs.Max(values) > 0.0 && Seqs.Min(values) < 0.0
      ==> LocatesZero(r, Seqs.Max(values), Seqs.Min(values))
  {
    if |values| == 0 then 0.0
    else
      var hi, lo := Seqs.Max(values), Seqs.Min(values);
      if hi <= 0.0 then 0.0
      else if lo >= 0.0 then 1.0
      else
        OffsetBetween(hi, lo);
        var r := hi / (hi - lo);
        ZeroCrossing(hi, lo, r);
        r
  }

  lemma OffsetBetween(hi: real, lo: real)
    requires hi > 0.0 && lo < 0.0
    ensures hi - lo != 0.0
    ensures 0.0 < hi / (hi - lo) < 1.0
  {
    var q := hi / (hi - lo);
    assert q * (hi - lo) == hi;
  }

  /** Moving down a fraction r of the span from the maximum reaches zero. */
  predicate LocatesZero(r: real, hi: real, lo: real)
  {
    hi - r * (hi - lo) == 0.0
  }

  lemma ZeroCrossing(hi: real, lo: real, r: real)
    requires hi > 0.0 && lo < 0.0 && r == hi / (hi - lo)
    ensures LocatesZero(r, hi, lo)
  {
  }
}
