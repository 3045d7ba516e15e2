/**
 * The inventory analysis of the server: per book, how much of the stock is
 * out, how worn the copies are, how demand develops, how many copies to buy
 * and what to repair. Every book's lendings are the rows of the lending
 * table that refer to it (`findByBookId`); the clock is the parameter `now`.
 */
module InventoryPrediction {
  import opened Library
  import Seqs
  import Calendar
  import Numerics
  import JsValues

  /** `calculateUtilization`: the share of the copies that is out, 0 for a book without copies. */
  function Utilization(book: Book, lendings: seq<Lending>): (u: real)
    ensures book.totalCopies == 0 ==> u == 0.0
    ensures book.totalCopies > 0 ==> u >= 0.0
    ensures book.totalCopies > 0 && Seqs.Count(lendings, Unreturned) <= book.totalCopies ==> u <= 1.0
  {
    if book.totalCopies == 0 then 0.0
    else
      var u := Seqs.Count(lendings, Unreturned) as real / book.totalCopies as real;
      assert book.totalCopies > 0 ==> u >= 0.0 by {
        if book.totalCopies > 0 {
          Numerics.QuotientNonNegative(Seqs.Count(lendings, Unreturned) as real, book.totalCopies as real, u);
        }
      }
      assert book.totalCopies > 0 && Seqs.Count(lendings, Unreturned) <= book.totalCopies ==> u <= 1.0 by {
        if book.totalCopies > 0 && Seqs.Count(lendings, Unreturned) <= book.totalCopies {
          Numerics.QuotientAtMostOne(Seqs.Count(lendings, Unreturned) as real, book.totalCopies as real, u);
        }
      }
      u
  }

  /** Utilization is the number of copies out per copy owned. */
  lemma UtilizationIsShareOut(book: Book, lendings: seq<Lending>)
    requires book.totalCopies != 0
    ensures Utilization(book, lendings) * (book.totalCopies as real) == Seqs.Count(lendings, Unreturned) as real
  {
    var n := Seqs.Count(lendings, Unreturned) as real;
    assert Utilization(book, lendings) == n / book.totalCopies as real;
    Numerics.QuotientTimes(Utilization(book, lendings), n, book.totalCopies as real);
  }

  /** `calculateTurnoverRate`: lendings of the last 30 days per day. */
  function TurnoverRate(lendings: seq<Lending>, now: Timestamp): (r: real)
    ensures r * 30.0 == CountAfter(lendings, Calendar.MinusDays(now, 30)) as real
    ensures 0.0 <= r <= |lendings| as real / 30.0
  {
    CountAfter(lendings, Calendar.MinusDays(now, 30)) as real / 30.0
  }

  /** `calculateCurrentDemand`: lendings of the last 7 days per day. */
  function CurrentDemand(lendings: seq<Lending>, now: Timestamp): (r: real)
    ensures r * 7.0 == CountAfter(lendings, Calendar.MinusDays(now, 7)) as real
    ensures 0.0 <= r
  {
    CountAfter(lendings, Calendar.MinusDays(now, 7)) as real / 7.0
  }

  // ---------------------------------------------------------------------
  // The wear tables
  // ---------------------------------------------------------------------

  /** `assessBookCondition` on the number of lendings. */
  function Condition(n: nat): (c: string)
    ensures c in {"NEEDS_REPLACEMENT", "WORN", "MODERATE", "GOOD"}
  {
    if n > 100 then "NEEDS_REPLACEMENT"
    else if n > 50 then "WORN"
    else if n > 20 then "MODERATE"
    else "GOOD"
  }

  /** `determineMaintenanceType` on the number of lendings. */
  function MaintenanceType(n: nat): (t: string)
    ensures t in {"REPLACEMENT", "MAJOR_REPAIR", "MINOR_REPAIR", "NONE"}
  {
    if n > 100 then "REPLACEMENT"
    else if n > 50 then "MAJOR_REPAIR"
    else if n > 20 then "MINOR_REPAIR"
    else "NONE"
  }

  /** `estimateMaintenanceCost`: the price of a kind of maintenance, 0 for anything else. */
  function MaintenanceCost(kind: string): (c: real)
    ensures c in {50.0, 25.0, 10.0, 0.0}
    ensures c > 0.0 <==> kind in {"REPLACEMENT", "MAJOR_REPAIR", "MINOR_REPAIR"}
  {
    match kind
    case "REPLACEMENT" => 50.0
    case "MAJOR_REPAIR" => 25.0
    case "MINOR_REPAIR" => 10.0
    case _ => 0.0
  }

  /** The three tables agree tier for tier: each band of lending counts gets one condition, one kind of work and one price. */
  lemma TiersAgree(n: nat)
    ensures n > 100 <==> Condition(n) == "NEEDS_REPLACEMENT"
    ensures Condition(n) == "NEEDS_REPLACEMENT" <==> MaintenanceType(n) == "REPLACEMENT"
    ensures MaintenanceType(n) == "REPLACEMENT" <==> MaintenanceCost(MaintenanceType(n)) == 50.0
    ensures 50 < n <= 100 <==> Condition(n) == "WORN"
    ensures Condition(n) == "WORN" <==> MaintenanceType(n) == "MAJOR_REPAIR"
    ensures MaintenanceType(n) == "MAJOR_REPAIR" <==> MaintenanceCost(MaintenanceType(n)) == 25.0
    ensures 20 < n <= 50 <==> Condition(n) == "MODERATE"
    ensures Condition(n) == "MODERATE" <==> MaintenanceType(n) == "MINOR_REPAIR"
    ensures MaintenanceType(n) == "MINOR_REPAIR" <==> MaintenanceCost(MaintenanceType(n)) == 10.0
    ensures n <= 20 <==> Condition(n) == "GOOD"
    ensures Condition(n) == "GOOD" <==> MaintenanceType(n) == "NONE"
    ensures MaintenanceType(n) == "NONE" <==> MaintenanceCost(MaintenanceType(n)) == 0.0
  {
  }

  /** More lendings never mean a better condition or cheaper upkeep. */
  lemma CostGrowsWithUse(m: nat, n: nat)
    requires m <= n
    ensures MaintenanceCost(MaintenanceType(m)) <= MaintenanceCost(MaintenanceType(n))
  {
  }

  // ---------------------------------------------------------------------
  // Seasonality
  // ---------------------------------------------------------------------

  /** The month (1 to 12) of every borrow date, in table order. */
  function MonthsOf(lendings: seq<Lending>): (r: seq<int>)
    ensures |r| == |lendings|
    ensures forall i :: 0 <= i < |r| ==> r[i] == Calendar.MonthValue(lendings[i].borrowDate)
  {
    seq(|lendings|, i requires 0 <= i < |lendings| => Calendar.MonthValue(lendings[i].borrowDate))
  }

  /** The average group size over the months that occur, `orElse(1.0)` when none does. */
  function AverageGroup(months: seq<int>): (a: real)
    ensures |months| == 0 ==> a == 1.0
    ensures a >= 1.0
  {
    var keys := Seqs.Distinct(months);
    if |keys| == 0 then
      1.0
    else
      var sizes := Seqs.GroupSizes(months, keys);
      Seqs.GroupSizesAtLeastOne(months, keys);
      Seqs.SumAtLeast(sizes, 1.0);
      Numerics.AtLeastOne(Seqs.Sum(sizes), |keys| as real);
      Seqs.Sum(sizes) / |keys| as real
  }

  /** The average is the number of lendings per month in which some lending was made. */
  lemma AverageIsLendingsPerMonth(months: seq<int>)
    requires |months| > 0
    ensures AverageGroup(months) == |months| as real / |Seqs.Distinct(months)| as real
  {
    var keys := Seqs.Distinct(months);
    assert months[0] in keys;
    Seqs.GroupSizesSum(months, keys);
    Seqs.GroupCountsSumToLength(months);
    var a := AverageGroup(months);
    var n := |months| as real;
    var k := |keys| as real;
    assert Seqs.Sum(Seqs.GroupSizes(months, keys)) == n;
  }

  /**
   * `calculateSeasonalFactor` on the borrow months: the count of month m over
   * the average; a month without lendings counts as the average truncated to
   * a whole number (`(long) averageLendings`).
   */
  function MonthFactor(months: seq<int>, m: int): (f: real)
    ensures f >= 0.0
    ensures |months| == 0 ==> f == 1.0
    ensures m !in months ==> f <= 1.0
  {
    var average := AverageGroup(months);
    var count := if m in months then Seqs.CountOf(months, m) as real else Numerics.Floor(average) as real;
    Numerics.QuotientNonNegative(count, average, count / average);
    assert m !in months ==> count / average <= 1.0 by {
      if m !in months {
        Numerics.QuotientAtMostOne(count, average, count / average);
      }
    }
    count / average
  }

  /** A month with lendings has a factor above, at or below 1 exactly when its count is above, at or below the average. */
  lemma MonthFactorComparesToAverage(months: seq<int>, m: int)
    requires m in months
    ensures MonthFactor(months, m) > 1.0 <==> Seqs.CountOf(months, m) as real > AverageGroup(months)
    ensures MonthFactor(months, m) == 1.0 <==> Seqs.CountOf(months, m) as real == AverageGroup(months)
  {
    var f := MonthFactor(months, m);
    var a := AverageGroup(months);
    var c := Seqs.CountOf(months, m) as real;
    assert f == c / a;
    Numerics.RatioAgainstOne(f, c, a);
  }

  /** The seasonal factor of the current month for one book's lendings. */
  function SeasonalFactor(lendings: seq<Lending>, now: Timestamp): (f: real)
    ensures f >= 0.0
    ensures |lendings| == 0 ==> f == 1.0
    ensures Calendar.MonthValue(now) !in MonthsOf(lendings) ==> f <= 1.0
  {
    MonthFactor(MonthsOf(lendings), Calendar.MonthValue(now))
  }

  /** `getMonth().toString()`: the enum constant name of the month. */
  function MonthName(t: Timestamp): (s: string)
    ensures s == Calendar.MonthConstants[Calendar.MonthValue(t) - 1]
  {
    Calendar.MonthConstants[Calendar.MonthValue(t) - 1]
  }

  /** The month name of every borrow date, in table order. */
  function MonthNamesOf(lendings: seq<Lending>): (r: seq<string>)
    ensures |r| == |lendings|
    ensures forall i :: 0 <= i < |r| ==> r[i] == MonthName(lendings[i].borrowDate)
  {
    seq(|lendings|, i requires 0 <= i < |lendings| => MonthName(lendings[i].borrowDate))
  }

  /** `analyzeSeasonality`: the number of lendings per month name (`JANUARY` ...), for the months that occur. */
  function Seasonality(lendings: seq<Lending>): (r: map<string, nat>)
    ensures forall k :: k in r <==> k in MonthNamesOf(lendings)
    ensures forall k :: k in r ==> r[k] > 0 && r[k] == Seqs.CountOf(MonthNamesOf(lendings), k)
  {
    Seqs.Occurrences(MonthNamesOf(lendings))
  }

  /** Every lending is counted in exactly one month of the seasonality map. */
  lemma SeasonalityCountsEveryLending(lendings: seq<Lending>)
    ensures var names := MonthNamesOf(lendings);
      Seqs.CountsOver(Seqs.Distinct(names), names) == |lendings|
      && forall k :: k in Seqs.Distinct(names) <==> k in Seasonality(lendings)
  {
    Seqs.GroupCountsSumToLength(MonthNamesOf(lendings));
  }

  // ---------------------------------------------------------------------
  // Demand
  // ---------------------------------------------------------------------

  /** Lendings per day over the last `days` days. */
  function Rate(lendings: seq<Lending>, now: Timestamp, days: int): (r: real)
    requires days > 0
    ensures r >= 0.0
    ensures CountAfter(lendings, Calendar.MinusDays(now, days)) == 0 ==> r == 0.0
  {
    var n := CountAfter(lendings, Calendar.MinusDays(now, days)) as real;
    Numerics.QuotientNonNegative(n, days as real, n / days as real);
    n / days as real
  }

  /** A rate scaled by a seasonal factor. */
  function Scaled(rate: real, factor: real): (p: real)
    requires rate >= 0.0 && factor >= 0.0
    ensures p >= 0.0
    ensures factor == 1.0 ==> p == rate
    ensures rate == 0.0 || factor == 0.0 ==> p == 0.0
  {
    Numerics.ProductNonNegative(rate, factor, rate * factor);
    rate * factor
  }

  /** `calculateProjection`: lendings per day over the last `days` days, scaled by the seasonal factor. */
  function Projection(lendings: seq<Lending>, now: Timestamp, days: int): (p: real)
    requires days > 0
    ensures p >= 0.0
    ensures p == Scaled(Rate(lendings, now, days), SeasonalFactor(lendings, now))
  {
    Scaled(Rate(lendings, now, days), SeasonalFactor(lendings, now))
  }

  /** The 7- and 30-day projections are the current demand and the turnover rate, each scaled by the season. */
  lemma ProjectionsScaleRates(lendings: seq<Lending>, now: Timestamp)
    ensures Projection(lendings, now, 7) == Scaled(CurrentDemand(lendings, now), SeasonalFactor(lendings, now))
    ensures Projection(lendings, now, 30) == Scaled(TurnoverRate(lendings, now), SeasonalFactor(lendings, now))
  {
    assert Rate(lendings, now, 7) == CurrentDemand(lendings, now);
    assert Rate(lendings, now, 30) == TurnoverRate(lendings, now);
  }

  /** `projectDemand`: the short-, medium- and long-term projections (7, 30 and 90 days). */
  datatype Projections = Projections(shortTerm: real, mediumTerm: real, longTerm: real)

  function ProjectDemand(lendings: seq<Lending>, now: Timestamp): (r: Projections)
    ensures r.shortTerm == Projection(lendings, now, 7)
    ensures r.mediumTerm == Projection(lendings, now, 30)
    ensures r.longTerm == Projection(lendings, now, 90)
  {
    Projections(Projection(lendings, now, 7), Projection(lendings, now, 30), Projection(lendings, now, 90))
  }

  /** Borrowed in the last 30 days (strictly after now - 30 days). */
  predicate InRecentWindow(l: Lending, now: Timestamp)
  {
    l.borrowDate > Calendar.MinusDays(now, 30)
  }

  /** Borrowed between 60 and 30 days ago, both bounds strict. */
  predicate InPreviousWindow(l: Lending, now: Timestamp)
  {
    l.borrowDate > Calendar.MinusDays(now, 60) && l.borrowDate < Calendar.MinusDays(now, 30)
  }

  /** `calculateDemandTrend`: recent over previous lendings, 1.0 when the previous window is empty. */
  function DemandTrend(lendings: seq<Lending>, now: Timestamp): (t: real)
    ensures var previous := Seqs.Count(lendings, (l: Lending) => InPreviousWindow(l, now));
      previous == 0 ==> t == 1.0
    ensures var recent := Seqs.Count(lendings, (l: Lending) => InRecentWindow(l, now));
      recent == 0 && Seqs.Count(lendings, (l: Lending) => InPreviousWindow(l, now)) > 0 ==> t == 0.0
    ensures t >= 0.0
  {
    var recent := Seqs.Count(lendings, (l: Lending) => InRecentWindow(l, now));
    var previous := Seqs.Count(lendings, (l: Lending) => InPreviousWindow(l, now));
    if previous == 0 then 1.0
    else
      Numerics.QuotientNonNegative(recent as real, previous as real, recent as real / previous as real);
      recent as real / previous as real
  }

  /** With lendings in the previous window, the trend is the ratio of the two windows' counts. */
  lemma DemandTrendIsRatio(lendings: seq<Lending>, now: Timestamp)
    requires Seqs.Count(lendings, (l: Lending) => InPreviousWindow(l, now)) > 0
    ensures DemandTrend(lendings, now) * Seqs.Count(lendings, (l: Lending) => InPreviousWindow(l, now)) as real
      == Seqs.Count(lendings, (l: Lending) => InRecentWindow(l, now)) as real
  {
    var recent := Seqs.Count(lendings, (l: Lending) => InRecentWindow(l, now)) as real;
    var previous := Seqs.Count(lendings, (l: Lending) => InPreviousWindow(l, now)) as real;
    assert DemandTrend(lendings, now) == recent / previous;
    Numerics.QuotientTimes(DemandTrend(lendings, now), recent, previous);
  }

  /** A lending made exactly 30 days ago falls in neither window: it counts neither as recent nor as previous. */
  lemma BoundaryInNeitherWindow(l: Lending, now: Timestamp)
    requires l.borrowDate == Calendar.MinusDays(now, 30)
    ensures !InRecentWindow(l, now) && !InPreviousWindow(l, now)
  {
  }

  /**
   * The two windows split the last 60 days except for the instant exactly 30
   * days ago: recent plus previous plus the lendings at that instant is the
   * number of lendings of the last 60 days.
   */
  lemma WindowsSplitSixtyDays(lendings: seq<Lending>, now: Timestamp)
    ensures Seqs.Count(lendings, (l: Lending) => InRecentWindow(l, now))
      + Seqs.Count(lendings, (l: Lending) => InPreviousWindow(l, now))
      + Seqs.Count(lendings, (l: Lending) => l.borrowDate == Calendar.MinusDays(now, 30))
      == CountAfter(lendings, Calendar.MinusDays(now, 60))
  {
    CountSplit3(lendings, (l: Lending) => l.borrowDate > Calendar.MinusDays(now, 60),
      (l: Lending) => InRecentWindow(l, now), (l: Lending) => InPreviousWindow(l, now),
      (l: Lending) => l.borrowDate == Calendar.MinusDays(now, 30));
  }

  /** A count over a predicate that is the disjoint union of three others is the sum of their counts. */
  lemma {:induction false} CountSplit3<T>(s: seq<T>, p: T -> bool, a: T -> bool, b: T -> bool, c: T -> bool)
    requires forall x :: p(x) <==> a(x) || b(x) || c(x)
    requires forall x :: !(a(x) && b(x)) && !(a(x) && c(x)) && !(b(x) && c(x))
    ensures Seqs.Count(s, p) == Seqs.Count(s, a) + Seqs.Count(s, b) + Seqs.Count(s, c)
    decreases |s|
  {
    if |s| > 0 {
      CountSplit3(s[..|s| - 1], p, a, b, c);
    }
  }

  // ---------------------------------------------------------------------
  // Acquisitions
  // ---------------------------------------------------------------------

  /** `calculateRecommendedCopies`: copies short of 1.5 times the 30-day projection, never negative. */
  function RecommendedCopies(book: Book, lendings: seq<Lending>, now: Timestamp): (n: int)
    ensures n >= 0
    ensures n > 0 <==> Numerics.Ceil(Projection(lendings, now, 30) * 1.5) > book.totalCopies
    ensures n > 0 ==> n == Numerics.Ceil(Projection(lendings, now, 30) * 1.5) - book.totalCopies
  {
    var wanted := Numerics.Ceil(Projection(lendings, now, 30) * 1.5);
    if wanted - book.totalCopies > 0 then wanted - book.totalCopies else 0
  }

  /** `calculateAcquisitionPriority`. */
  function AcquisitionPriority(utilization: real, trend: real): (p: string)
    ensures p == "HIGH" <==> utilization > 0.9 && trend > 1.5
    ensures p == "MEDIUM" <==> !(utilization > 0.9 && trend > 1.5) && (utilization > 0.7 || trend > 1.2)
    ensures p == "LOW" <==> utilization <= 0.7 && trend <= 1.2
  {
    if utilization > 0.9 && trend > 1.5 then "HIGH"
    else if utilization > 0.7 || trend > 1.2 then "MEDIUM"
    else "LOW"
  }

  /** `determineAcquisitionReason`: replacement first, then utilization, then rising demand. */
  function AcquisitionReason(condition: string, utilization: real, trend: real): (r: string)
    ensures r == "REPLACEMENT_NEEDED" <==> condition == "NEEDS_REPLACEMENT"
    ensures r == "HIGH_UTILIZATION" <==> condition != "NEEDS_REPLACEMENT" && utilization > 0.9
    ensures r == "INCREASING_DEMAND" <==> condition != "NEEDS_REPLACEMENT" && utilization <= 0.9 && trend > 1.5
    ensures r == "NORMAL_REPLENISHMENT" <==> condition != "NEEDS_REPLACEMENT" && utilization <= 0.9 && trend <= 1.5
  {
    if condition == "NEEDS_REPLACEMENT" then "REPLACEMENT_NEEDED"
    else if utilization > 0.9 then "HIGH_UTILIZATION"
    else if trend > 1.5 then "INCREASING_DEMAND"
    else "NORMAL_REPLENISHMENT"
  }

  /** A HIGH-priority acquisition is always explained by replacement or by high utilization, never by demand alone. */
  lemma HighPriorityReason(condition: string, utilization: real, trend: real)
    requires AcquisitionPriority(utilization, trend) == "HIGH"
    ensures AcquisitionReason(condition, utilization, trend) in {"REPLACEMENT_NEEDED", "HIGH_UTILIZATION"}
  {
  }

  /** One row of `recommendAcquisitions`. */
  datatype Acquisition = Acquisition(bookId: int, title: string, recommendedCopies: int, priority: string, reason: string)

  function AcquisitionFor(book: Book, all: seq<Lending>, now: Timestamp): (a: Acquisition)
    ensures a.bookId == book.id && a.title == book.title
    ensures var lendings := LendingsOf(all, book.id);
      a.recommendedCopies == RecommendedCopies(book, lendings, now)
      && a.priority == AcquisitionPriority(Utilization(book, lendings), DemandTrend(lendings, now))
      && a.reason == AcquisitionReason(Condition(|lendings|), Utilization(book, lendings), DemandTrend(lendings, now))
  {
    var lendings := LendingsOf(all, book.id);
    var u := Utilization(book, lendings);
    var t := DemandTrend(lendings, now);
    Acquisition(book.id, book.title, RecommendedCopies(book, lendings, now), AcquisitionPriority(u, t),
                AcquisitionReason(Condition(|lendings|), u, t))
  }

  /** The place of an acquisition priority in descending `compareTo` order: MEDIUM, LOW, HIGH. */
  function AcquisitionRank(a: Acquisition): real
  {
    match a.priority
    case "MEDIUM" => 0.0
    case "LOW" => 1.0
    case _ => 2.0
  }

  /** Ranks of acquisition priorities follow Java's descending `compareTo` on the priority strings. */
  lemma AcquisitionRankIsDescendingText(a: Acquisition, b: Acquisition)
    requires a.priority in {"HIGH", "MEDIUM", "LOW"} && b.priority in {"HIGH", "MEDIUM", "LOW"}
    ensures AcquisitionRank(a) <= AcquisitionRank(b) <==> !JsValues.StringLess(a.priority, b.priority)
  {
    JsValues.StringLessIrreflexive(a.priority);
  }

  /** The rows of `books.stream().map(...)`, one per book. */
  function AcquisitionRows(books: seq<Book>, all: seq<Lending>, now: Timestamp): (r: seq<Acquisition>)
    ensures |r| == |books| && forall i :: 0 <= i < |books| ==> r[i] == AcquisitionFor(books[i], all, now)
    ensures forall a :: a in r ==> a.priority in {"HIGH", "MEDIUM", "LOW"}
  {
    seq(|books|, i requires 0 <= i < |books| => AcquisitionFor(books[i], all, now))
  }

  function NeedsCopies(a: Acquisition): bool
  {
    a.recommendedCopies > 0
  }

  /**
   * `recommendAcquisitions`: the books that need copies, sorted by their
   * priority text in descending order (stable), so MEDIUM comes first and
   * HIGH last.
   */
  function RecommendAcquisitions(books: seq<Book>, all: seq<Lending>, now: Timestamp): (r: seq<Acquisition>)
    ensures forall a :: a in r ==> a in AcquisitionRows(books, all, now) && a.recommendedCopies > 0
    ensures |r| == Seqs.Count(books, (b: Book) => RecommendedCopies(b, LendingsOf(all, b.id), now) > 0)
    ensures forall i, j :: 0 <= i < j < |r| ==> !JsValues.StringLess(r[i].priority, r[j].priority)
  {
    var rows := AcquisitionRows(books, all, now);
    var r := Seqs.FilterSorted(rows, NeedsCopies, AcquisitionRank);
    CountRows(books, all, now);
    forall i, j | 0 <= i < j < |r|
      ensures !JsValues.StringLess(r[i].priority, r[j].priority)
    {
      assert r[i] in r && r[j] in r;
      AcquisitionRankIsDescendingText(r[i], r[j]);
    }
    r
  }

  lemma CountRows(books: seq<Book>, all: seq<Lending>, now: Timestamp)
    ensures Seqs.Count(AcquisitionRows(books, all, now), NeedsCopies)
      == Seqs.Count(books, (b: Book) => RecommendedCopies(b, LendingsOf(all, b.id), now) > 0)
  {
    var short := (b: Book) => RecommendedCopies(b, LendingsOf(all, b.id), now) > 0;
    var rows := AcquisitionRows(books, all, now);
    forall i | 0 <= i < |rows|
      ensures NeedsCopies(rows[i]) == short(books[i])
    {
      assert rows[i] == AcquisitionFor(books[i], all, now);
    }
    Seqs.CountPointwise(rows, books, NeedsCopies, short);
  }

  /** Every book that needs copies is recommended, with its own row. */
  lemma EveryShortBookIsRecommended(books: seq<Book>, all: seq<Lending>, now: Timestamp, b: Book)
    requires b in books && RecommendedCopies(b, LendingsOf(all, b.id), now) > 0
    ensures AcquisitionFor(b, all, now) in RecommendAcquisitions(books, all, now)
  {
    var k :| 0 <= k < |books| && books[k] == b;
    assert AcquisitionRows(books, all, now)[k] == AcquisitionFor(b, all, now);
  }

  /** Sorting by text puts HIGH last: once a HIGH row appears, every later row is HIGH as well. */
  lemma HighPriorityComesLast(books: seq<Book>, all: seq<Lending>, now: Timestamp, i: int, j: int)
    requires var r := RecommendAcquisitions(books, all, now); 0 <= i < j < |r| && r[i].priority == "HIGH"
    ensures RecommendAcquisitions(books, all, now)[j].priority == "HIGH"
  {
    var r := RecommendAcquisitions(books, all, now);
    assert r[i] in r && r[j] in r;
    AcquisitionRankIsDescendingText(r[i], r[j]);
  }

  // ---------------------------------------------------------------------
  // Maintenance
  // ---------------------------------------------------------------------

  /** `calculateMaintenancePriority`. */
  function MaintenancePriority(n: nat, utilization: real): (p: string)
    ensures p == "URGENT" <==> Condition(n) == "NEEDS_REPLACEMENT" && utilization > 0.7
    ensures p == "HIGH" <==> Condition(n) == "WORN" && utilization > 0.5
    ensures p == "MEDIUM" <==> Condition(n) == "MODERATE" && utilization > 0.7
    ensures p in {"URGENT", "HIGH", "MEDIUM", "LOW"}
  {
    var condition := Condition(n);
    if condition == "NEEDS_REPLACEMENT" && utilization > 0.7 then "URGENT"
    else if condition == "WORN" && utilization > 0.5 then "HIGH"
    else if condition == "MODERATE" && utilization > 0.7 then "MEDIUM"
    else "LOW"
  }

  /** A book with 20 or fewer lendings is never more than LOW, however busy. */
  lemma LightlyUsedIsLow(n: nat, utilization: real)
    requires n <= 20
    ensures MaintenancePriority(n, utilization) == "LOW" && MaintenanceType(n) == "NONE"
  {
  }

  /** One row of `analyzeMaintenanceNeeds`. */
  datatype Maintenance = Maintenance(
    bookId: int, title: string, condition: string, maintenanceType: string, priority: string, estimatedCost: real)

  function MaintenanceFor(book: Book, all: seq<Lending>): (m: Maintenance)
    ensures var n := |LendingsOf(all, book.id)|;
      m == Maintenance(book.id, book.title, Condition(n), MaintenanceType(n),
                       MaintenancePriority(n, Utilization(book, LendingsOf(all, book.id))),
                       MaintenanceCost(MaintenanceType(n)))
  {
    var lendings := LendingsOf(all, book.id);
    var n := |lendings|;
    Maintenance(book.id, book.title, Condition(n), MaintenanceType(n), MaintenancePriority(n, Utilization(book, lendings)),
                MaintenanceCost(MaintenanceType(n)))
  }

  /** The place of a maintenance priority in descending `compareTo` order: URGENT, MEDIUM, LOW, HIGH. */
  function MaintenanceRank(m: Maintenance): real
  {
    match m.priority
    case "URGENT" => 0.0
    case "MEDIUM" => 1.0
    case "LOW" => 2.0
    case _ => 3.0
  }

  lemma MaintenanceRankIsDescendingText(a: Maintenance, b: Maintenance)
    requires a.priority in {"URGENT", "HIGH", "MEDIUM", "LOW"} && b.priority in {"URGENT", "HIGH", "MEDIUM", "LOW"}
    ensures MaintenanceRank(a) <= MaintenanceRank(b) <==> !JsValues.StringLess(a.priority, b.priority)
  {
    JsValues.StringLessIrreflexive(a.priority);
  }

  /** The rows of `books.stream().map(...)`, one per book. */
  function MaintenanceRows(books: seq<Book>, all: seq<Lending>): (r: seq<Maintenance>)
    ensures |r| == |books| && forall i :: 0 <= i < |books| ==> r[i] == MaintenanceFor(books[i], all)
    ensures forall m :: m in r ==> m.priority in {"URGENT", "HIGH", "MEDIUM", "LOW"}
    ensures forall m :: m in r ==> (m.maintenanceType != "NONE" <==> m.estimatedCost > 0.0)
  {
    seq(|books|, i requires 0 <= i < |books| => MaintenanceFor(books[i], all))
  }

  function NeedsWork(m: Maintenance): bool
  {
    m.maintenanceType != "NONE"
  }

  /**
   * `analyzeMaintenanceNeeds`: the books that need some work, sorted by their
   * priority text in descending order (stable): URGENT, MEDIUM, LOW, HIGH.
   */
  function MaintenanceNeeds(books: seq<Book>, all: seq<Lending>): (r: seq<Maintenance>)
    ensures forall m :: m in r ==> m in MaintenanceRows(books, all) && m.maintenanceType != "NONE"
    ensures forall m :: m in r ==> m.estimatedCost > 0.0
    ensures forall i, j :: 0 <= i < j < |r| ==> !JsValues.StringLess(r[i].priority, r[j].priority)
  {
    var rows := MaintenanceRows(books, all);
    var r := Seqs.FilterSorted(rows, NeedsWork, MaintenanceRank);
    forall i, j | 0 <= i < j < |r|
      ensures !JsValues.StringLess(r[i].priority, r[j].priority)
    {
      assert r[i] in r && r[j] in r;
      MaintenanceRankIsDescendingText(r[i], r[j]);
    }
    r
  }

  /** Exactly the books with more than 20 lendings need work. */
  lemma WornBooksNeedWork(books: seq<Book>, all: seq<Lending>, b: Book)
    requires b in books
    ensures MaintenanceFor(b, all) in MaintenanceNeeds(books, all) <==> |LendingsOf(all, b.id)| > 20
  {
    var k :| 0 <= k < |books| && books[k] == b;
    assert MaintenanceRows(books, all)[k] == MaintenanceFor(b, all);
  }

  // ---------------------------------------------------------------------
  // Health and demand rows
  // ---------------------------------------------------------------------

  /** One row of `analyzeInventoryHealth`. */
  datatype Metrics = Metrics(
    bookId: int, title: string, totalCopies: int, availableCopies: int,
    utilization: real, turnoverRate: real, condition: string)

  /** `analyzeInventoryHealth`: one row per book, in table order. */
  function InventoryHealth(books: seq<Book>, all: seq<Lending>, now: Timestamp): (r: seq<Metrics>)
    ensures |r| == |books|
    ensures forall i :: 0 <= i < |books| ==> var lendings := LendingsOf(all, books[i].id);
      r[i] == Metrics(books[i].id, books[i].title, books[i].totalCopies, books[i].availableCopies,
                      Utilization(books[i], lendings), TurnoverRate(lendings, now), Condition(|lendings|))
  {
    seq(|books|, i requires 0 <= i < |books| =>
      var lendings := LendingsOf(all, books[i].id);
      Metrics(books[i].id, books[i].title, books[i].totalCopies, books[i].availableCopies,
              Utilization(books[i], lendings), TurnoverRate(lendings, now), Condition(|lendings|)))
  }

  /** One row of `predictDemand`. */
  datatype Demand = Demand(
    bookId: int, title: string, currentDemand: real, projectedDemand: Projections, seasonalFactors: map<string, nat>)

  /** `predictDemand`: one row per book, in table order. */
  function PredictDemand(books: seq<Book>, all: seq<Lending>, now: Timestamp): (r: seq<Demand>)
    ensures |r| == |books|
    ensures forall i :: 0 <= i < |books| ==> var lendings := LendingsOf(all, books[i].id);
      r[i] == Demand(books[i].id, books[i].title, CurrentDemand(lendings, now), ProjectDemand(lendings, now),
                     Seasonality(lendings))
  {
    seq(|books|, i requires 0 <= i < |books| =>
      var lendings := LendingsOf(all, books[i].id);
      Demand(books[i].id, books[i].title, CurrentDemand(lendings, now), ProjectDemand(lendings, now),
             Seasonality(lendings)))
  }

  /** A book that was never lent has a seasonal factor of 1, and so every projection of it is 0. */
  lemma NeverLentProjectsNothing(book: Book, all: seq<Lending>, now: Timestamp)
    requires forall l :: l in all ==> l.book.id != book.id
    ensures SeasonalFactor(LendingsOf(all, book.id), now) == 1.0
    ensures ProjectDemand(LendingsOf(all, book.id), now) == Projections(0.0, 0.0, 0.0)
    ensures RecommendedCopies(book, LendingsOf(all, book.id), now) == if book.totalCopies < 0 then -book.totalCopies else 0
  {
    Seqs.NoneCounted(all, (l: Lending) => l.book.id == book.id);
  }
}
