/**
 * The predictions the server offers: a 30-day demand forecast from the
 * daily lending counts, each book's popularity and trend, how likely each
 * open lending is to come back on time, and the trend of each genre.
 *
 * The clock is the parameter `now`. The recent average rating of a book
 * comes from a repository query that is not part of this model; it is the
 * parameter `recentRating` (book id to rating, `None` for SQL null).
 */
module PredictiveAnalytics {
  import opened Wrappers
  import opened Library
  import Seqs
  import Calendar
  import Numerics

  // ---------------------------------------------------------------------
  // Demand forecast
  // ---------------------------------------------------------------------

  /** The day (midnight) of every borrow date, in table order. */
  function BorrowDays(lendings: seq<Lending>): (r: seq<int>)
    ensures |r| == |lendings|
    ensures forall i :: 0 <= i < |r| ==> r[i] == Calendar.TruncateToDay(lendings[i].borrowDate)
  {
    seq(|lendings|, i requires 0 <= i < |lendings| => Calendar.TruncateToDay(lendings[i].borrowDate))
  }

  /** The baseline: the mean daily count over the days with lendings, 0 when there is none. */
  function Baseline(lendings: seq<Lending>): (b: real)
    ensures |lendings| == 0 ==> b == 0.0
    ensures |lendings| > 0 ==> b >= 1.0
  {
    var days := BorrowDays(lendings);
    var keys := Seqs.Distinct(days);
    assert |lendings| > 0 ==> |keys| > 0 by {
      if |lendings| > 0 {
        assert days[0] in days;
      }
    }
    Seqs.GroupSizesAtLeastOne(days, keys);
    Seqs.MeanOrAtLeastOne(Seqs.GroupSizes(days, keys), 1.0);
    Seqs.MeanOr(Seqs.GroupSizes(days, keys), 0.0)
  }

  /** The days with lendings that fall on weekday w. */
  function DaysOn(keys: seq<int>, w: int): (r: seq<int>)
    ensures forall d :: d in r ==> d in keys && Calendar.DayOfWeek(d) == w
    ensures forall i :: 0 <= i < |keys| && Calendar.DayOfWeek(keys[i]) == w ==> keys[i] in r
  {
    var p := (d: int) => Calendar.DayOfWeek(d) == w;
    forall i | 0 <= i < |keys| && p(keys[i])
      ensures keys[i] in Seqs.Filter(keys, p)
    {
      Seqs.FilterKeeps(keys, p, keys[i]);
    }
    Seqs.Filter(keys, p)
  }

  /** The weekdays (1 = Monday .. 7 = Sunday) on which some lending was made. */
  function Weekdays(keys: seq<int>): (r: seq<int>)
    ensures forall w :: w in r <==> exists i :: 0 <= i < |keys| && Calendar.DayOfWeek(keys[i]) == w
  {
    var all := seq(|keys|, i requires 0 <= i < |keys| => Calendar.DayOfWeek(keys[i]));
    assert forall i :: 0 <= i < |keys| ==> all[i] in all;
    var r := Seqs.Distinct(all);
    forall w
      ensures w in r <==> exists i :: 0 <= i < |keys| && Calendar.DayOfWeek(keys[i]) == w
    {
      if w in r {
        var i :| 0 <= i < |all| && all[i] == w;
      }
      if exists i :: 0 <= i < |keys| && Calendar.DayOfWeek(keys[i]) == w {
        var i :| 0 <= i < |keys| && Calendar.DayOfWeek(keys[i]) == w;
        assert all[i] in all;
      }
    }
    r
  }

  /** `averagingLong` for one weekday: the mean count of the days on that weekday. */
  function WeekdayAverage(days: seq<int>, keys: seq<int>, w: int): (a: real)
    requires forall k :: k in keys ==> k in days
    ensures w in Weekdays(keys) ==> a >= 1.0
  {
    var on := DaysOn(keys, w);
    var sizes := Seqs.GroupSizes(days, on);
    assert w in Weekdays(keys) ==> |on| > 0 by {
      if w in Weekdays(keys) {
        var i :| 0 <= i < |keys| && Calendar.DayOfWeek(keys[i]) == w;
        assert keys[i] in on;
      }
    }
    assert forall k :: k in on ==> k in days;
    Seqs.GroupSizesAtLeastOne(days, on);
    Seqs.MeanOrAtLeastOne(sizes, 1.0);
    assert |sizes| > 0 ==> Seqs.MeanOr(sizes, 0.0) == Seqs.MeanOr(sizes, 1.0);
    Seqs.MeanOr(sizes, 0.0)
  }

  /** The per-weekday averages, one per weekday that occurs. */
  function WeekdayAverages(days: seq<int>, keys: seq<int>): (r: seq<real>)
    requires forall k :: k in keys ==> k in days
    ensures |r| == |Weekdays(keys)|
    ensures forall i :: 0 <= i < |r| ==> r[i] == WeekdayAverage(days, keys, Weekdays(keys)[i]) && r[i] >= 1.0
  {
    var ws := Weekdays(keys);
    seq(|ws|, i requires 0 <= i < |ws| => (assert ws[i] in ws; WeekdayAverage(days, keys, ws[i])))
  }

  /** The mean of the weekday averages, `orElse(1.0)`; never below 1. */
  function OverallAverage(lendings: seq<Lending>): (a: real)
    ensures a >= 1.0
  {
    var days := BorrowDays(lendings);
    var keys := Seqs.Distinct(days);
    Seqs.MeanOrAtLeastOne(WeekdayAverages(days, keys), 1.0);
    Seqs.MeanOr(WeekdayAverages(days, keys), 1.0)
  }

  /**
   * `calculateSeasonalFactor`: the weekday's average over the overall
   * average; a weekday without lendings gets the overall average
   * (`getOrDefault`), so its factor is 1.
   */
  function WeekdayFactor(lendings: seq<Lending>, w: int): (f: real)
    ensures f >= 0.0
    ensures w !in Weekdays(Seqs.Distinct(BorrowDays(lendings))) ==> f == 1.0
  {
    var days := BorrowDays(lendings);
    var keys := Seqs.Distinct(days);
    var overall := OverallAverage(lendings);
    var mine := if w in Weekdays(keys) then WeekdayAverage(days, keys, w) else overall;
    Numerics.QuotientNonNegative(mine, overall, mine / overall);
    assert w !in Weekdays(keys) ==> mine / overall == 1.0 by {
      if w !in Weekdays(keys) {
        Numerics.QuotientOfSelf(overall, mine / overall);
      }
    }
    mine / overall
  }

  /** The baseline times the factor times the smoothing boost 1 + 0.2. */
  function Boosted(baseline: real, factor: real): (p: real)
    requires baseline >= 0.0 && factor >= 0.0
    ensures p >= 0.0
    ensures baseline == 0.0 ==> p == 0.0
    ensures factor == 1.0 ==> p == baseline * 1.2
  {
    Numerics.ProductNonNegative(baseline, factor, baseline * factor);
    baseline * factor * (1.0 + 0.2)
  }

  /** `calculateDemandPrediction` for a target date: it depends on the date only through its weekday. */
  function DemandPrediction(lendings: seq<Lending>, date: Timestamp): (p: real)
    ensures p >= 0.0
  {
    Boosted(Baseline(lendings), WeekdayFactor(lendings, Calendar.DayOfWeek(date)))
  }

  datatype DemandPoint = DemandPoint(date: Timestamp, predictedDemand: real)

  /** `generateDemandForecast`: 30 points, one per day from today's midnight on. */
  function Forecast(lendings: seq<Lending>, now: Timestamp): (r: seq<DemandPoint>)
    ensures |r| == 30
    ensures forall i :: 0 <= i < 30 ==>
      r[i].date == Calendar.PlusDays(Calendar.TruncateToDay(now), i) && r[i].predictedDemand == DemandPrediction(lendings, r[i].date)
  {
    var today := Calendar.TruncateToDay(now);
    seq(30, i requires 0 <= i < 30 => DemandPoint(Calendar.PlusDays(today, i), DemandPrediction(lendings, Calendar.PlusDays(today, i))))
  }

  /** The forecast repeats every week: a day and the same weekday a week later get the same demand. */
  lemma ForecastIsWeekly(lendings: seq<Lending>, now: Timestamp, i: int)
    requires 0 <= i && i + 7 < 30
    ensures Forecast(lendings, now)[i].predictedDemand == Forecast(lendings, now)[i + 7].predictedDemand
  {
    var f := Forecast(lendings, now);
    var today := Calendar.TruncateToDay(now);
    assert f[i].predictedDemand == DemandPrediction(lendings, Calendar.PlusDays(today, i));
    assert f[i + 7].predictedDemand == DemandPrediction(lendings, Calendar.PlusDays(today, i + 7));
    WeekLaterSameDemand(lendings, today, i);
  }

  lemma WeekLaterSameDemand(lendings: seq<Lending>, today: Timestamp, i: int)
    ensures DemandPrediction(lendings, Calendar.PlusDays(today, i)) == DemandPrediction(lendings, Calendar.PlusDays(today, i + 7))
  {
    var t := Calendar.PlusDays(today, i);
    assert Calendar.PlusDays(today, i + 7) == t + 7 * Calendar.SecondsPerDay;
    Calendar.DayOfWeekPeriodic(t);
  }

  /** Without any lending history every forecast point is 0. */
  lemma EmptyHistoryForecastsNothing(now: Timestamp, i: int)
    requires 0 <= i < 30
    ensures Forecast([], now)[i].predictedDemand == 0.0
  {
  }

  // ---------------------------------------------------------------------
  // Popularity and trends
  // ---------------------------------------------------------------------

  /** `calculatePopularityScore`: lendings count up to 10 (weight 0.6), the rating out of 5 (weight 0.4). */
  function PopularityScore(lendings: nat, rating: real): (s: real)
    ensures 0.0 <= rating <= 5.0 ==> 0.0 <= s <= 1.0
    ensures lendings >= 10 ==> s == 0.6 + rating / 5.0 * 0.4
  {
    Numerics.MinR(lendings as real / 10.0, 1.0) * 0.6 + rating / 5.0 * 0.4
  }

  /** More lendings never lower the score, and from 10 lendings on the count no longer matters. */
  lemma PopularitySaturates(m: nat, n: nat, rating: real)
    ensures m <= n ==> PopularityScore(m, rating) <= PopularityScore(n, rating)
    ensures m >= 10 && n >= 10 ==> PopularityScore(m, rating) == PopularityScore(n, rating)
  {
  }

  /** The percentage change from the previous to the current count, against at least 1. */
  function Change(previous: nat, current: nat): real
  {
    (current as real - previous as real) / (if previous > 1 then previous else 1) as real * 100.0
  }

  /** `calculateTrend` on the two counts: more than 20 percent either way. */
  function BookTrend(previous: nat, current: nat): (t: string)
    ensures t in {"RISING", "FALLING", "STABLE"}
    ensures t == "RISING" <==> Change(previous, current) > 20.0
    ensures t == "FALLING" <==> Change(previous, current) < -20.0
  {
    var change := Change(previous, current);
    if change > 20.0 then "RISING" else if change < -20.0 then "FALLING" else "STABLE"
  }

  /** In whole numbers: RISING means five times the growth exceeds the previous count (at least 1). */
  lemma BookTrendInCounts(previous: nat, current: nat)
    ensures var base := if previous > 1 then previous else 1;
      BookTrend(previous, current) == "RISING" <==> 5 * (current - previous) > base
    ensures var base := if previous > 1 then previous else 1;
      BookTrend(previous, current) == "FALLING" <==> 5 * (current - previous) < -base
  {
    var base := if previous > 1 then previous else 1;
    var diff := current as real - previous as real;
    var q := diff / base as real;
    assert Change(previous, current) == q * 100.0;
    PercentAgainst(q, diff, base as real);
  }

  lemma PercentAgainst(q: real, a: real, b: real)
    requires b > 0.0 && q == a / b
    ensures q * 100.0 > 20.0 <==> 5.0 * a > b
    ensures q * 100.0 < -20.0 <==> 5.0 * a < -b
  {
    Numerics.QuotientTimes(q, a, b);
  }

  /** `countByBookIdAndBorrowDateBetween`: the book's lendings borrowed from `from` to `to`, both included. */
  function CountBetween(all: seq<Lending>, bookId: int, from: Timestamp, to: Timestamp): (n: nat)
    ensures n <= |all|
  {
    Seqs.Count(all, (l: Lending) => l.book.id == bookId && from <= l.borrowDate <= to)
  }

  /** `countByBookIdAndBorrowDateAfter`: the book's lendings borrowed strictly after `since`. */
  function CountSince(all: seq<Lending>, bookId: int, since: Timestamp): (n: nat)
    ensures n <= |all|
  {
    Seqs.Count(all, (l: Lending) => l.book.id == bookId && l.borrowDate > since)
  }

  /**
   * The previous window (inclusive at both ends) and the current one
   * (strictly after its start) never share a lending, and together they
   * count every lending of the book from 60 days before `now` on.
   */
  lemma WindowsSplitSixtyDays(all: seq<Lending>, bookId: int, now: Timestamp)
    ensures var start := Calendar.MinusDays(now, 30);
      CountBetween(all, bookId, Calendar.MinusDays(start, 30), start) + CountSince(all, bookId, start)
      == Seqs.Count(all, (l: Lending) => l.book.id == bookId && l.borrowDate >= Calendar.MinusDays(now, 60))
  {
    var start := Calendar.MinusDays(now, 30);
    var from := Calendar.MinusDays(start, 30);
    assert from == Calendar.MinusDays(now, 60);
    CountDisjoint(all, (l: Lending) => l.book.id == bookId && l.borrowDate >= from,
                  (l: Lending) => l.book.id == bookId && from <= l.borrowDate <= start,
                  (l: Lending) => l.book.id == bookId && l.borrowDate > start);
  }

  /** A count over a predicate that is the disjoint union of two others is the sum of their counts. */
  lemma {:induction false} CountDisjoint<T>(s: seq<T>, p: T -> bool, a: T -> bool, b: T -> bool)
    requires forall x :: p(x) <==> a(x) || b(x)
    requires forall x :: !(a(x) && b(x))
    ensures Seqs.Count(s, p) == Seqs.Count(s, a) + Seqs.Count(s, b)
    decreases |s|
  {
    if |s| > 0 {
      CountDisjoint(s[..|s| - 1], p, a, b);
    }
  }

  /**
   * A book's recent average rating is the AVG of its approved reviews in the
   * window, `None` (SQL null) when there is none. The service assigns it to
   * a primitive `double`, and unboxing null throws.
   */
  const UnboxingNull := "NullPointerException"

  /** Every listed book has a recent rating, so no unboxing throws. */
  predicate Rated(books: seq<Book>, recentRating: int -> Option<real>)
  {
    forall b :: b in books ==> recentRating(b.id).Some?
  }

  datatype PopularityRow = PopularityRow(
    bookId: int, title: string, recentLendings: nat, recentRating: real, popularityScore: real, trend: string)

  /** The map step of `analyzePopularityTrends` for one book whose recent rating is `rating`. */
  function PopularityFor(book: Book, all: seq<Lending>, rating: real, now: Timestamp): (row: PopularityRow)
    ensures row.bookId == book.id && row.title == book.title && row.recentRating == rating
    ensures var start := Calendar.MinusDays(now, 30);
      row.recentLendings == CountSince(all, book.id, start)
      && row.popularityScore == PopularityScore(row.recentLendings, rating)
      && row.trend == BookTrend(CountBetween(all, book.id, Calendar.MinusDays(start, 30), start), row.recentLendings)
  {
    var start := Calendar.MinusDays(now, 30);
    var recent := CountSince(all, book.id, start);
    PopularityRow(book.id, book.title, recent, rating, PopularityScore(recent, rating),
                  BookTrend(CountBetween(all, book.id, Calendar.MinusDays(start, 30), start), recent))
  }

  /** The unsorted rows, one per book in table order. */
  function PopularityRows(books: seq<Book>, all: seq<Lending>, recentRating: int -> Option<real>, now: Timestamp)
    : (rows: seq<PopularityRow>)
    requires Rated(books, recentRating)
    ensures |rows| == |books|
    ensures forall i :: 0 <= i < |books| ==> rows[i] == PopularityFor(books[i], all, recentRating(books[i].id).value, now)
  {
    seq(|books|, i requires 0 <= i < |books| => PopularityFor(books[i], all, recentRating(books[i].id).value, now))
  }

  function PopularityKey(row: PopularityRow): real
  {
    row.popularityScore
  }

  /**
   * `analyzePopularityTrends`: throws when some book has no recent rating;
   * otherwise one row per book, stably sorted by ascending popularity score.
   */
  function PopularityTrends(books: seq<Book>, all: seq<Lending>, recentRating: int -> Option<real>, now: Timestamp)
    : (r: Result<seq<PopularityRow>, string>)
    ensures r.Err? <==> !Rated(books, recentRating)
    ensures r.Err? ==> r.error == UnboxingNull
    ensures r.Ok? ==> |r.value| == |books| && multiset(r.value) == multiset(PopularityRows(books, all, recentRating, now))
    ensures r.Ok? ==> forall i, j :: 0 <= i < j < |r.value| ==> r.value[i].popularityScore <= r.value[j].popularityScore
  {
    if !Rated(books, recentRating) then Err(UnboxingNull)
    else
      var rows := PopularityRows(books, all, recentRating, now);
      var r := Seqs.SortByKey(rows, PopularityKey);
      assert Seqs.SortedBy(r, PopularityKey);
      Ok(r)
  }

  // ---------------------------------------------------------------------
  // Return predictions
  // ---------------------------------------------------------------------

  /** Returned, and not after the due date. */
  predicate OnTime(l: Lending)
  {
    l.returnDate.Some? && !(l.returnDate.value > l.dueDate)
  }

  /** `calculateUserReturnRate`: the share of the user's lendings returned on time, 1 for a user without history. */
  function ReturnRate(all: seq<Lending>, userId: int): (r: real)
    ensures 0.0 <= r <= 1.0
    ensures |LendingsByUser(all, userId)| == 0 ==> r == 1.0
  {
    var history := LendingsByUser(all, userId);
    if |history| == 0 then 1.0
    else
      var onTime := Seqs.Count(history, OnTime) as real;
      Numerics.QuotientNonNegative(onTime, |history| as real, onTime / |history| as real);
      Numerics.QuotientAtMostOne(onTime, |history| as real, onTime / |history| as real);
      onTime / |history| as real
  }

  /** A user's rate is 1 exactly when every lending of the history came back on time. */
  lemma PerfectRateMeansAllOnTime(all: seq<Lending>, userId: int)
    requires |LendingsByUser(all, userId)| > 0
    ensures ReturnRate(all, userId) == 1.0 <==> Seqs.Count(LendingsByUser(all, userId), OnTime) == |LendingsByUser(all, userId)|
  {
    var history := LendingsByUser(all, userId);
    var onTime := Seqs.Count(history, OnTime) as real;
    var n := |history| as real;
    var r := ReturnRate(all, userId);
    assert r == onTime / n;
    Numerics.RatioAgainstOne(r, onTime, n);
  }

  /** `ChronoUnit.DAYS.between(now, due)`: whole days, truncated toward zero. */
  function DaysUntil(now: Timestamp, due: Timestamp): int
  {
    Numerics.TruncDiv(due - now, Calendar.SecondsPerDay)
  }

  /** A lending less than a day past due still counts 0 days until due, not a negative number. */
  lemma LessThanADayLateIsNotLate(now: Timestamp, due: Timestamp)
    requires now - Calendar.SecondsPerDay < due
    ensures DaysUntil(now, due) >= 0
  {
    if due - now < 0 {
      Numerics.TruncDivOdd(now - due, Calendar.SecondsPerDay);
    }
  }

  /** `calculateReturnProbability`: 0.8 times the user's rate, halved when overdue, times 0.9 when due within 3 days. */
  function ReturnProbability(l: Lending, all: seq<Lending>, now: Timestamp): (p: real)
    ensures 0.0 <= p <= 0.8
    ensures DaysUntil(now, l.dueDate) < 0 ==> p <= 0.4
  {
    var p := 0.8 * ReturnRate(all, l.user.id);
    var days := DaysUntil(now, l.dueDate);
    var adjusted := if days < 0 then p * 0.5 else if days < 3 then p * 0.9 else p;
    Numerics.MinR(Numerics.MaxR(adjusted, 0.0), 1.0)
  }

  /** `predictReturnStatus`. */
  function ReturnStatus(probability: real): (s: string)
    ensures s == "LIKELY_ON_TIME" <==> probability > 0.8
    ensures s == "POSSIBLY_DELAYED" <==> 0.5 < probability <= 0.8
    ensures s == "LIKELY_OVERDUE" <==> probability <= 0.5
  {
    if probability > 0.8 then "LIKELY_ON_TIME"
    else if probability > 0.5 then "POSSIBLY_DELAYED"
    else "LIKELY_OVERDUE"
  }

  datatype ReturnPrediction = ReturnPrediction(
    lendingId: int, bookTitle: string, dueDate: Timestamp, returnProbability: real, predictedStatus: string)

  function PredictionFor(l: Lending, all: seq<Lending>, now: Timestamp): (r: ReturnPrediction)
    ensures r.lendingId == l.id && r.bookTitle == l.book.title && r.dueDate == l.dueDate
    ensures r.returnProbability == ReturnProbability(l, all, now)
    ensures r.predictedStatus == ReturnStatus(r.returnProbability)
  {
    var p := ReturnProbability(l, all, now);
    ReturnPrediction(l.id, l.book.title, l.dueDate, p, ReturnStatus(p))
  }

  /**
   * `predictReturns`: one prediction per open lending (`findByReturnDateIsNull`),
   * in table order: the open lending at table position j gets the prediction
   * at the position that counts the open lendings before it.
   */
  function PredictReturns(all: seq<Lending>, now: Timestamp): (r: seq<ReturnPrediction>)
    ensures |r| == Seqs.Count(all, Unreturned)
    ensures forall p :: p in r ==> exists l :: l in all && Unreturned(l) && p == PredictionFor(l, all, now)
    ensures forall l :: l in all && Unreturned(l) ==> PredictionFor(l, all, now) in r
    ensures forall j :: 0 <= j < |all| && Unreturned(all[j]) ==>
      Seqs.Count(all[..j], Unreturned) < |r| && r[Seqs.Count(all[..j], Unreturned)] == PredictionFor(all[j], all, now)
  {
    var open := Seqs.Filter(all, Unreturned);
    var r := seq(|open|, i requires 0 <= i < |open| => PredictionFor(open[i], all, now));
    forall j | 0 <= j < |all| && Unreturned(all[j])
      ensures Seqs.Count(all[..j], Unreturned) < |r| && r[Seqs.Count(all[..j], Unreturned)] == PredictionFor(all[j], all, now)
    {
      Seqs.FilterPosition(all, Unreturned, j);
    }
    forall l | l in all && Unreturned(l)
      ensures PredictionFor(l, all, now) in r
    {
      var j :| 0 <= j < |all| && all[j] == l;
      Seqs.FilterPosition(all, Unreturned, j);
      assert r[Seqs.Count(all[..j], Unreturned)] == PredictionFor(l, all, now);
    }
    forall p | p in r
      ensures exists l :: l in all && Unreturned(l) && p == PredictionFor(l, all, now)
    {
      var i :| 0 <= i < |r| && r[i] == p;
      assert open[i] in open;
    }
    r
  }

  /**
   * Because the probability starts at 0.8 and is only ever scaled down, no
   * lending is ever predicted LIKELY_ON_TIME, and every overdue one is
   * predicted LIKELY_OVERDUE.
   */
  lemma NeverPredictedOnTime(all: seq<Lending>, now: Timestamp)
    ensures forall p :: p in PredictReturns(all, now) ==> p.predictedStatus != "LIKELY_ON_TIME"
    ensures forall p :: p in PredictReturns(all, now) && DaysUntil(now, p.dueDate) < 0 ==> p.predictedStatus == "LIKELY_OVERDUE"
  {
    forall p | p in PredictReturns(all, now)
      ensures p.predictedStatus != "LIKELY_ON_TIME"
      ensures DaysUntil(now, p.dueDate) < 0 ==> p.predictedStatus == "LIKELY_OVERDUE"
    {
      var l :| l in all && Unreturned(l) && p == PredictionFor(l, all, now);
    }
  }

  // ---------------------------------------------------------------------
  // Genre trends
  // ---------------------------------------------------------------------

  /** The genres of the books, each once, in order of first appearance. */
  function Genres(books: seq<Book>): (r: seq<string>)
    ensures Seqs.NoDuplicates(r)
    ensures forall g :: g in r <==> exists i :: 0 <= i < |books| && books[i].genre == g
  {
    var all := seq(|books|, i requires 0 <= i < |books| => books[i].genre);
    assert forall i :: 0 <= i < |books| ==> all[i] in all;
    var r := Seqs.Distinct(all);
    forall g
      ensures g in r <==> exists i :: 0 <= i < |books| && books[i].genre == g
    {
      if g in r {
        var i :| 0 <= i < |all| && all[i] == g;
      }
      if exists i :: 0 <= i < |books| && books[i].genre == g {
        var i :| 0 <= i < |books| && books[i].genre == g;
        assert all[i] in all;
      }
    }
    r
  }

  /** `groupingBy(Book::getGenre)`: the books of one genre, in table order. */
  function BooksOf(books: seq<Book>, genre: string): (r: seq<Book>)
    ensures forall b :: b in r ==> b in books && b.genre == genre
  {
    Seqs.Filter(books, (b: Book) => b.genre == genre)
  }

  /**
   * `calculateGenrePopularityScore`: throws (`None`) when some book of the
   * genre has no recent rating; otherwise the mean popularity score of the
   * genre's books, 0 for none.
   */
  function GenrePopularity(books: seq<Book>, all: seq<Lending>, recentRating: int -> Option<real>, start: Timestamp)
    : (s: Option<real>)
    ensures s.None? <==> !Rated(books, recentRating)
    ensures |books| == 0 ==> s == Some(0.0)
    ensures s.Some? && (forall b :: b in books ==> 0.0 <= recentRating(b.id).value <= 5.0) ==> 0.0 <= s.value <= 1.0
  {
    if !Rated(books, recentRating) then None
    else
      var scores := seq(|books|, i requires 0 <= i < |books| =>
        PopularityScore(CountSince(all, books[i].id, start), recentRating(books[i].id).value));
      var m := Seqs.MeanOr(scores, 0.0);
      assert (forall b :: b in books ==> 0.0 <= recentRating(b.id).value <= 5.0) ==> 0.0 <= m <= 1.0 by {
        if forall b :: b in books ==> 0.0 <= recentRating(b.id).value <= 5.0 {
          assert forall i :: 0 <= i < |books| ==> books[i] in books;
          Seqs.MeanOrBetween(scores, 0.0, 0.0, 1.0);
        }
      }
      Some(m)
  }

  /** `calculateGenreTrend` on the mean change: more than 15 percent either way. */
  function GenreDirection(averageChange: real): (t: string)
    ensures t == "RISING" <==> averageChange > 15.0
    ensures t == "FALLING" <==> averageChange < -15.0
    ensures t == "STABLE" <==> -15.0 <= averageChange <= 15.0
  {
    if averageChange > 15.0 then "RISING" else if averageChange < -15.0 then "FALLING" else "STABLE"
  }

  function GenreTrend(books: seq<Book>, all: seq<Lending>, start: Timestamp): string
  {
    var changes := seq(|books|, i requires 0 <= i < |books| =>
      Change(CountBetween(all, books[i].id, Calendar.MinusDays(start, 30), start), CountSince(all, books[i].id, start)));
    GenreDirection(Seqs.MeanOr(changes, 0.0))
  }

  /** The genre threshold (15) is lower than the book threshold (20): a one-book genre growing from 5 to 6 lendings is RISING while its book is STABLE. */
  lemma GenreThresholdIsLower()
    ensures BookTrend(5, 6) == "STABLE"
    ensures GenreDirection(Change(5, 6)) == "RISING"
  {
    assert Change(5, 6) == 20.0;
  }

  /** `calculateRecommendationStrength`. */
  function Strength(popularity: real, trend: string): (s: string)
    ensures s == "STRONG" <==> popularity > 0.7 && trend == "RISING"
    ensures s == "MODERATE" <==> !(popularity > 0.7 && trend == "RISING") && (popularity > 0.5 || trend == "RISING")
    ensures s == "WEAK" <==> popularity <= 0.5 && trend != "RISING"
  {
    if popularity > 0.7 && trend == "RISING" then "STRONG"
    else if popularity > 0.5 || trend == "RISING" then "MODERATE"
    else "WEAK"
  }

  /** Every rising genre is recommended at least moderately. */
  lemma RisingIsNeverWeak(popularity: real)
    ensures Strength(popularity, "RISING") != "WEAK"
  {
  }

  datatype GenreRow = GenreRow(genre: string, popularityScore: real, trend: string, recommendationStrength: string)

  /** The row of one genre, for books that all have a recent rating. */
  function GenreRowFor(books: seq<Book>, genre: string, all: seq<Lending>, recentRating: int -> Option<real>, now: Timestamp)
    : (row: GenreRow)
    requires Rated(books, recentRating)
    ensures row.genre == genre
    ensures var start := Calendar.MinusDays(now, 30); var group := BooksOf(books, genre);
      Some(row.popularityScore) == GenrePopularity(group, all, recentRating, start)
      && row.trend == GenreTrend(group, all, start)
      && row.recommendationStrength == Strength(row.popularityScore, row.trend)
  {
    var start := Calendar.MinusDays(now, 30);
    var group := BooksOf(books, genre);
    var score := GenrePopularity(group, all, recentRating, start).value;
    var trend := GenreTrend(group, all, start);
    GenreRow(genre, score, trend, Strength(score, trend))
  }

  function DescendingScore(row: GenreRow): real
  {
    -row.popularityScore
  }

  /** One row per genre, in order of first appearance. */
  function GenreRows(books: seq<Book>, all: seq<Lending>, recentRating: int -> Option<real>, now: Timestamp)
    : (rows: seq<GenreRow>)
    requires Rated(books, recentRating)
    ensures |rows| == |Genres(books)|
    ensures forall i :: 0 <= i < |rows| ==> rows[i] == GenreRowFor(books, Genres(books)[i], all, recentRating, now)
  {
    var genres := Genres(books);
    seq(|genres|, i requires 0 <= i < |genres| => GenreRowFor(books, genres[i], all, recentRating, now))
  }

  /**
   * `analyzeGenreTrends`: every genre's score is computed, so it throws when
   * any book has no recent rating; otherwise one row per genre, stably
   * sorted by descending popularity score.
   */
  function GenreTrends(books: seq<Book>, all: seq<Lending>, recentRating: int -> Option<real>, now: Timestamp)
    : (r: Result<seq<GenreRow>, string>)
    ensures r.Err? <==> !Rated(books, recentRating)
    ensures r.Err? ==> r.error == UnboxingNull
    ensures r.Ok? ==> |r.value| == |Genres(books)|
    ensures r.Ok? ==> forall g :: g in Genres(books) ==> GenreRowFor(books, g, all, recentRating, now) in r.value
    ensures r.Ok? ==> forall row :: row in r.value ==>
      row.genre in Genres(books) && row == GenreRowFor(books, row.genre, all, recentRating, now)
    ensures r.Ok? ==> forall i, j :: 0 <= i < j < |r.value| ==> r.value[i].popularityScore >= r.value[j].popularityScore
  {
    if !Rated(books, recentRating) then Err(UnboxingNull)
    else
      var rows := GenreRows(books, all, recentRating, now);
      var r := Seqs.SortByKey(rows, DescendingScore);
      GenreRowsSorted(rows, r, books, all, recentRating, now);
      Ok(r)
  }

  lemma GenreRowsSorted(rows: seq<GenreRow>, r: seq<GenreRow>, books: seq<Book>, all: seq<Lending>,
                        recentRating: int -> Option<real>, now: Timestamp)
    requires Rated(books, recentRating) && rows == GenreRows(books, all, recentRating, now)
    requires multiset(r) == multiset(rows) && Seqs.SortedBy(r, DescendingScore)
    ensures forall g :: g in Genres(books) ==> GenreRowFor(books, g, all, recentRating, now) in r
    ensures forall row :: row in r ==> row.genre in Genres(books) && row == GenreRowFor(books, row.genre, all, recentRating, now)
    ensures forall i, j :: 0 <= i < j < |r| ==> r[i].popularityScore >= r[j].popularityScore
  {
    var genres := Genres(books);
    forall g | g in genres
      ensures GenreRowFor(books, g, all, recentRating, now) in r
    {
      var i :| 0 <= i < |genres| && genres[i] == g;
      assert rows[i] in multiset(rows);
    }
    forall row | row in r
      ensures row.genre in genres && row == GenreRowFor(books, row.genre, all, recentRating, now)
    {
      assert row in multiset(rows);
      var i :| 0 <= i < |rows| && rows[i] == row;
    }
    forall i, j | 0 <= i < j < |r|
      ensures r[i].popularityScore >= r[j].popularityScore
    {
      assert DescendingScore(r[i]) <= DescendingScore(r[j]);
    }
  }
}
