/**
 * The user-behaviour analysis of the server: a segment and metrics per
 * user, the busiest borrowing hours and the three most borrowed genres,
 * up to five unread books per user from the genres they read, and a
 * retention score with a risk level and risk factors per user.
 *
 * The clock is the parameter `now`; the repositories are the tables of `Db`.
 */
module UserBehavior {
  import opened Wrappers
  import opened Library
  import Seqs
  import Calendar
  import Numerics
  import JavaHashMap

  // ---------------------------------------------------------------------
  // Segments
  // ---------------------------------------------------------------------

  datatype UserMetrics = UserMetrics(
    totalBooksRead: nat, activeBookCount: nat, overdueCount: nat, averageRating: real, reviewCount: nat)

  function Ratings(reviews: seq<Review>): (r: seq<real>)
    ensures |r| == |reviews| && forall i :: 0 <= i < |r| ==> r[i] == reviews[i].rating as real
  {
    seq(|reviews|, i requires 0 <= i < |reviews| => reviews[i].rating as real)
  }

  /** `calculateAverageRating`: the mean rating, 0 for a user without reviews. */
  function AverageRating(reviews: seq<Review>): (a: real)
    ensures |reviews| == 0 ==> a == 0.0
  {
    Seqs.MeanOr(Ratings(reviews), 0.0)
  }

  /** With ratings from 1 to 5 the average of a reviewer stays within 1 and 5. */
  lemma AverageRatingInScale(reviews: seq<Review>)
    requires |reviews| > 0
    requires forall x :: x in reviews ==> 1 <= x.rating <= 5
    ensures 1.0 <= AverageRating(reviews) <= 5.0
  {
    var ratings := Ratings(reviews);
    assert forall i :: 0 <= i < |ratings| ==> 1.0 <= ratings[i] <= 5.0 by {
      forall i | 0 <= i < |ratings|
        ensures 1.0 <= ratings[i] <= 5.0
      {
        assert reviews[i] in reviews;
      }
    }
    Seqs.MeanOrAtLeastOne(ratings, 1.0);
    Seqs.SumAtMost(ratings, 5.0);
    var total := Seqs.Sum(ratings);
    var n := |ratings| as real;
    assert AverageRating(reviews) == total / n;
    Numerics.AtMost(total, n, 5.0);
  }

  /** `calculateUserMetrics`: counts over the user's lendings (open ones, and open ones past due) and reviews. */
  function MetricsFor(db: Db, user: User, now: Timestamp): (m: UserMetrics)
    ensures var mine := LendingsByUser(db.lendings, user.id);
      m.totalBooksRead == |mine|
      && m.activeBookCount == Seqs.Count(mine, Unreturned)
      && m.overdueCount == Seqs.Count(mine, (l: Lending) => Overdue(l, now))
    ensures var written := ReviewsByUser(db.reviews, user.id);
      m.reviewCount == |written| && m.averageRating == AverageRating(written)
  {
    var mine := LendingsByUser(db.lendings, user.id);
    var written := ReviewsByUser(db.reviews, user.id);
    UserMetrics(|mine|, Seqs.Count(mine, Unreturned), Seqs.Count(mine, (l: Lending) => Overdue(l, now)),
                AverageRating(written), |written|)
  }

  /** Every overdue lending is an open one, and every open one is one of the user's. */
  lemma MetricsNest(db: Db, user: User, now: Timestamp)
    ensures var m := MetricsFor(db, user, now);
      m.overdueCount <= m.activeBookCount <= m.totalBooksRead
  {
    var mine := LendingsByUser(db.lendings, user.id);
    Seqs.CountMonotone(mine, (l: Lending) => Overdue(l, now), Unreturned);
  }

  /** `determineUserSegment`: the first rule that matches wins. */
  function Segment(m: UserMetrics): (s: string)
    ensures s == "POWER_USER" <==> m.totalBooksRead >= 20 && m.averageRating >= 4.0
    ensures s == "REGULAR" <==> !(m.totalBooksRead >= 20 && m.averageRating >= 4.0) && m.totalBooksRead >= 10
    ensures s == "AT_RISK" <==> m.totalBooksRead < 10 && m.overdueCount > 2
    ensures s == "NEW_USER" <==> m.totalBooksRead < 10 && m.overdueCount <= 2
  {
    if m.totalBooksRead >= 20 && m.averageRating >= 4.0 then "POWER_USER"
    else if m.totalBooksRead >= 10 then "REGULAR"
    else if m.overdueCount > 2 then "AT_RISK"
    else "NEW_USER"
  }

  /** A user flagged AT_RISK holds at least three books right now. */
  lemma AtRiskHoldsThreeBooks(db: Db, user: User, now: Timestamp)
    requires Segment(MetricsFor(db, user, now)) == "AT_RISK"
    ensures MetricsFor(db, user, now).activeBookCount >= 3
  {
    MetricsNest(db, user, now);
  }

  datatype SegmentRow = SegmentRow(userId: int, username: string, segment: string, metrics: UserMetrics)

  /** `analyzeUserSegments`: one row per user, in table order. */
  function Segments(db: Db, now: Timestamp): (r: seq<SegmentRow>)
    ensures |r| == |db.users|
    ensures forall i :: 0 <= i < |r| ==>
      r[i].userId == db.users[i].id && r[i].username == db.users[i].username
      && r[i].metrics == MetricsFor(db, db.users[i], now) && r[i].segment == Segment(r[i].metrics)
  {
    seq(|db.users|, i requires 0 <= i < |db.users| =>
      SegmentRow(db.users[i].id, db.users[i].username, Segment(MetricsFor(db, db.users[i], now)), MetricsFor(db, db.users[i], now)))
  }

  // ---------------------------------------------------------------------
  // Reading patterns
  // ---------------------------------------------------------------------

  function Hours(lendings: seq<Lending>): (r: seq<int>)
    ensures |r| == |lendings|
    ensures forall i :: 0 <= i < |r| ==> r[i] == Calendar.Hour(lendings[i].borrowDate) && 0 <= r[i] < 24
  {
    seq(|lendings|, i requires 0 <= i < |lendings| => Calendar.Hour(lendings[i].borrowDate))
  }

  /** The largest count among the hours below n. */
  function BusiestCount(hours: seq<int>, n: nat): (m: nat)
    ensures forall h :: 0 <= h < n ==> Seqs.CountOf(hours, h) <= m
    ensures n > 0 ==> exists h :: 0 <= h < n && Seqs.CountOf(hours, h) == m
  {
    if n == 0 then 0
    else
      var rest := BusiestCount(hours, n - 1);
      if Seqs.CountOf(hours, n - 1) > rest then Seqs.CountOf(hours, n - 1) else rest
  }

  /**
   * `findPeakHours` over the distribution `analyzeReadingPatterns` groups
   * from the lendings' hours: the hours whose count equals the largest one,
   * each once, in the distribution's `HashMap` iteration order.
   * `Collections.max` of an empty distribution throws.
   */
  function PeakHours(hours: seq<int>): (r: Result<seq<int>, string>)
    requires JavaHashMap.SmallKeys(hours)
    ensures r.Err? <==> |hours| == 0
    ensures r.Ok? ==> |r.value| > 0 && forall h :: h in r.value <==> IsPeak(hours, h)
    ensures r.Ok? ==> Seqs.NoDuplicates(r.value)
    ensures r.Ok? ==> forall i, j :: 0 <= i < j < |r.value| ==>
      JavaHashMap.Precedes(Seqs.Distinct(hours), JavaHashMap.Capacity(hours), r.value[i], r.value[j])
  {
    if |hours| == 0 then Err("NoSuchElementException")
    else
      var top := BusiestCount(hours, 24);
      var atTop := h => Seqs.CountOf(hours, h) == top;
      var order := JavaHashMap.IterationOrder(hours);
      PeaksInOrder(hours, top, atTop, order);
      Ok(Seqs.Filter(order, atTop))
  }

  /** An hour with lendings whose count no other hour exceeds. */
  predicate IsPeak(hours: seq<int>, h: int)
  {
    0 <= h < 24 && Seqs.CountOf(hours, h) > 0 && forall k :: 0 <= k < 24 ==> Seqs.CountOf(hours, k) <= Seqs.CountOf(hours, h)
  }

  /** Filtering the iteration order down to the largest count keeps exactly the peaks, once each, in order. */
  lemma PeaksInOrder(hours: seq<int>, top: nat, atTop: int -> bool, order: seq<int>)
    requires JavaHashMap.SmallKeys(hours) && |hours| > 0
    requires top == BusiestCount(hours, 24) && forall h :: atTop(h) == (Seqs.CountOf(hours, h) == top)
    requires order == JavaHashMap.IterationOrder(hours)
    ensures |Seqs.Filter(order, atTop)| > 0
    ensures forall h :: h in Seqs.Filter(order, atTop) <==> IsPeak(hours, h)
    ensures Seqs.NoDuplicates(Seqs.Filter(order, atTop))
    ensures forall i, j :: 0 <= i < j < |Seqs.Filter(order, atTop)| ==>
      JavaHashMap.Precedes(Seqs.Distinct(hours), JavaHashMap.Capacity(hours),
        Seqs.Filter(order, atTop)[i], Seqs.Filter(order, atTop)[j])
  {
    var d, cap := Seqs.Distinct(hours), JavaHashMap.Capacity(hours);
    Seqs.FilterNoDuplicates(order, atTop);
    Seqs.FilterKeepsOrder(order, atTop, (a, b) => JavaHashMap.Precedes(d, cap, a, b));
    PeakMembers(hours, top, atTop, order);
  }

  /** The hours of the iteration order at the largest count are the peaks, and there is one. */
  lemma PeakMembers(hours: seq<int>, top: nat, atTop: int -> bool, order: seq<int>)
    requires JavaHashMap.SmallKeys(hours) && |hours| > 0
    requires top == BusiestCount(hours, 24) && forall h :: atTop(h) == (Seqs.CountOf(hours, h) == top)
    requires forall k :: k in order <==> k in hours
    ensures |Seqs.Filter(order, atTop)| > 0
    ensures forall h :: h in Seqs.Filter(order, atTop) <==> IsPeak(hours, h)
  {
    var r := Seqs.Filter(order, atTop);
    var w :| 0 <= w < 24 && Seqs.CountOf(hours, w) == top;
    assert top > 0 by {
      Seqs.CountOfZero(hours, hours[0]);
      assert 0 <= hours[0] < 24;
    }
    forall h
      ensures h in r <==> IsPeak(hours, h)
    {
      Seqs.CountOfZero(hours, h);
      if h in r {
        var m :| 0 <= m < |hours| && hours[m] == h;
      } else if IsPeak(hours, h) {
        assert Seqs.CountOf(hours, w) <= Seqs.CountOf(hours, h);
        Seqs.FilterKeeps(order, atTop, h);
      }
    }
    Seqs.CountOfZero(hours, w);
    Seqs.FilterKeeps(order, atTop, w);
  }

  /** Once the table has grown to 32 buckets, the peak hours come out ascending. */
  lemma PeakHoursAscendingAfterResize(hours: seq<int>)
    requires JavaHashMap.SmallKeys(hours) && |hours| > 0
    requires JavaHashMap.Capacity(hours) == 2 * JavaHashMap.InitialCapacity
    ensures forall i, j :: 0 <= i < j < |PeakHours(hours).value| ==> PeakHours(hours).value[i] < PeakHours(hours).value[j]
  {
    var r := PeakHours(hours).value;
    forall k | k in r
      ensures k in hours
    {
      Seqs.CountOfZero(hours, k);
    }
    JavaHashMap.AscendingAfterResize(hours, r);
  }

  /**
   * Hours 3 and 17, tied, come out as 17 then 3: in the 16-bucket table 17
   * lands in bucket 1 and 3 in bucket 3.
   */
  lemma TiedPeaksInBucketOrder()
    ensures PeakHours([3, 17]) == Ok([17, 3])
  {
    PairOrder([3, 17], 3, 17);
    assert !JavaHashMap.Precedes([3, 17], 16, 3, 17);
  }

  /**
   * Hours 17 and 1, tied, share bucket 1, whose chain starts with the hour
   * grouped last: they come out as 1 then 17.
   */
  lemma SameBucketLatestFirst()
    ensures PeakHours([17, 1]) == Ok([1, 17])
  {
    PairOrder([17, 1], 17, 1);
    assert Seqs.IndexOf([17, 1], 1) == 1;
    assert !JavaHashMap.Precedes([17, 1], 16, 17, 1);
  }

  /** Two different hours, one lending each, come out in the order the 16-bucket table gives them. */
  lemma PairOrder(hours: seq<int>, a: int, b: int)
    requires hours == [a, b] && a != b && 0 <= a < 24 && 0 <= b < 24
    ensures PeakHours(hours).Ok?
    ensures !JavaHashMap.Precedes([a, b], 16, a, b) ==> PeakHours(hours).value == [b, a]
  {
    PeakPair(hours, a, b);
    PairTable(hours, a, b);
  }

  /** Grouping two different hours inserts them in that order into the 16-bucket table. */
  lemma PairTable(hours: seq<int>, a: int, b: int)
    requires hours == [a, b] && a != b
    ensures Seqs.Distinct(hours) == [a, b]
    ensures JavaHashMap.Capacity(hours) == 16
  {
    assert hours[..1] == [a];
    assert hours[..1][..0] == [];
  }

  /** Two different hours, one lending each: both are peaks, so the result lists the two in one order or the other. */
  lemma PeakPair(hours: seq<int>, a: int, b: int)
    requires hours == [a, b] && a != b && 0 <= a < 24 && 0 <= b < 24
    ensures PeakHours(hours).Ok?
    ensures PeakHours(hours).value == [a, b] || PeakHours(hours).value == [b, a]
  {
    var r := PeakHours(hours).value;
    assert forall x :: x in r <==> x == a || x == b by {
      PairCounts(hours, a, b);
      assert IsPeak(hours, a) && IsPeak(hours, b);
    }
    TwoMembers(r, a, b);
  }

  /** In [a, b] with a != b, both occur once and nothing occurs more often. */
  lemma PairCounts(hours: seq<int>, a: int, b: int)
    requires hours == [a, b] && a != b
    ensures Seqs.CountOf(hours, a) == 1 && Seqs.CountOf(hours, b) == 1
    ensures forall k :: Seqs.CountOf(hours, k) <= 1
    ensures forall k :: Seqs.CountOf(hours, k) > 0 ==> k == a || k == b
  {
    assert hours[..1] == [a];
    assert hours[..1][..0] == [];
  }

  /** A sequence without repetitions whose members are exactly a and b. */
  lemma TwoMembers(r: seq<int>, a: int, b: int)
    requires Seqs.NoDuplicates(r) && a != b
    requires forall x :: x in r <==> x == a || x == b
    ensures r == [a, b] || r == [b, a]
  {
    assert a in r && b in r;
    AtMostTwo(r, a, b);
  }

  /** A sequence without repetitions drawn from two values has at most two elements. */
  lemma AtMostTwo(r: seq<int>, a: int, b: int)
    requires Seqs.NoDuplicates(r) && a != b
    requires forall x :: x in r <==> x == a || x == b
    ensures |r| == 2
  {
    Seqs.NoDuplicatesOnce(r, a);
    Seqs.NoDuplicatesOnce(r, b);
    forall x
      ensures multiset(r)[x] == multiset{a, b}[x]
    {
      if x == a || x == b {
        assert x in r;
        assert x in multiset(r);
      } else {
        assert x !in r;
        assert x !in multiset(r);
      }
    }
    assert multiset(r) == multiset{a, b};
  }

  /** The genre of every lending's book, in table order. */
  function GenresLent(lendings: seq<Lending>): (r: seq<string>)
    ensures |r| == |lendings| && forall i :: 0 <= i < |r| ==> r[i] == lendings[i].book.genre
  {
    seq(|lendings|, i requires 0 <= i < |lendings| => lendings[i].book.genre)
  }

  /**
   * `findTopGenres`: the genres by descending lending count, at most three.
   * Ties keep the order in which the genres first occur, where the source
   * follows the `HashMap` order of the genres' string hash codes.
   */
  function TopGenres(lendings: seq<Lending>): (r: seq<string>)
    ensures Seqs.NoDuplicates(r)
    ensures |r| == if |Seqs.Distinct(GenresLent(lendings))| < 3 then |Seqs.Distinct(GenresLent(lendings))| else 3
    ensures forall g :: g in r ==> g in GenresLent(lendings)
    ensures forall i, j :: 0 <= i < j < |r| ==>
      Seqs.CountOf(GenresLent(lendings), r[i]) >= Seqs.CountOf(GenresLent(lendings), r[j])
    ensures forall g, i :: g in GenresLent(lendings) && g !in r && 0 <= i < |r| ==>
      Seqs.CountOf(GenresLent(lendings), g) <= Seqs.CountOf(GenresLent(lendings), r[i])
  {
    MostFrequent(GenresLent(lendings), 3)
  }

  /** The n most frequent names, most frequent first, ties in order of first occurrence. */
  function MostFrequent(names: seq<string>, n: nat): (r: seq<string>)
    ensures Seqs.NoDuplicates(r)
    ensures |r| == if |Seqs.Distinct(names)| < n then |Seqs.Distinct(names)| else n
    ensures forall g :: g in r ==> g in names
    ensures forall i, j :: 0 <= i < j < |r| ==> Seqs.CountOf(names, r[i]) >= Seqs.CountOf(names, r[j])
    ensures forall g, i :: g in names && g !in r && 0 <= i < |r| ==> Seqs.CountOf(names, g) <= Seqs.CountOf(names, r[i])
  {
    var keys := Seqs.Distinct(names);
    var key := (g: string) => -(Seqs.CountOf(names, g) as real);
    var r := Seqs.Lowest(keys, key, n);
    MostFrequentFirst(names, keys, key, r);
    r
  }

  lemma MostFrequentFirst(names: seq<string>, keys: seq<string>, key: string -> real, r: seq<string>)
    requires forall g :: key(g) == -(Seqs.CountOf(names, g) as real)
    requires forall g :: g in keys <==> g in names
    requires forall g :: g in r ==> g in keys
    requires forall i, j :: 0 <= i < j < |r| ==> key(r[i]) <= key(r[j])
    requires forall g, i :: g in keys && g !in r && 0 <= i < |r| ==> key(r[i]) <= key(g)
    ensures forall g :: g in r ==> g in names
    ensures forall i, j :: 0 <= i < j < |r| ==> Seqs.CountOf(names, r[i]) >= Seqs.CountOf(names, r[j])
    ensures forall g, i :: g in names && g !in r && 0 <= i < |r| ==> Seqs.CountOf(names, g) <= Seqs.CountOf(names, r[i])
  {
    forall i, j | 0 <= i < j < |r|
      ensures Seqs.CountOf(names, r[i]) >= Seqs.CountOf(names, r[j])
    {
      assert key(r[i]) <= key(r[j]);
    }
    forall g, i | g in names && g !in r && 0 <= i < |r|
      ensures Seqs.CountOf(names, g) <= Seqs.CountOf(names, r[i])
    {
      assert key(r[i]) <= key(g);
    }
  }

  datatype ReadingPatterns = ReadingPatterns(peakHours: seq<int>, popularGenres: seq<string>)

  /** `analyzeReadingPatterns`: throws, through `findPeakHours`, when there is no lending at all. */
  function Patterns(db: Db): (r: Result<ReadingPatterns, string>)
    ensures r.Err? <==> |db.lendings| == 0
    ensures r.Ok? ==> r.value.peakHours == PeakHours(Hours(db.lendings)).value && r.value.popularGenres == TopGenres(db.lendings)
  {
    match PeakHours(Hours(db.lendings))
    case Err(e) => Err(e)
    case Ok(hours) => Ok(ReadingPatterns(hours, TopGenres(db.lendings)))
  }

  // ---------------------------------------------------------------------
  // Recommendations
  // ---------------------------------------------------------------------

  /** `hasUserBorrowed`: some lending of the user is of this book (compared by id). */
  predicate HasBorrowed(mine: seq<Lending>, book: Book)
  {
    exists l :: l in mine && l.book.id == book.id
  }

  function GenresRead(mine: seq<Lending>): set<string>
  {
    set l | l in mine :: l.book.genre
  }

  /** A book of a genre the user reads that the user has never borrowed. */
  predicate Unread(mine: seq<Lending>, book: Book)
  {
    book.genre in GenresRead(mine) && !HasBorrowed(mine, book)
  }

  function UnreadBy(mine: seq<Lending>): Book -> bool
  {
    (b: Book) => Unread(mine, b)
  }

  /**
   * `recommendBooksForUser`: the first five unread books of the user's
   * genres, in table order. The book at position j is returned when it is
   * unread and fewer than five unread books come before it.
   */
  predicate EarlyUnread(books: seq<Book>, mine: seq<Lending>, j: int)
    requires 0 <= j < |books|
  {
    Unread(mine, books[j]) && Seqs.Count(books[..j], UnreadBy(mine)) < 5
  }

  function RecommendBooks(db: Db, userId: int): (r: seq<Book>)
    ensures var eligible := Seqs.Count(db.books, UnreadBy(LendingsByUser(db.lendings, userId)));
      |r| == if eligible < 5 then eligible else 5
    ensures forall b :: b in r ==> b in db.books && Unread(LendingsByUser(db.lendings, userId), b)
    ensures |r| < 5 ==> forall b :: b in db.books && Unread(LendingsByUser(db.lendings, userId), b) ==> b in r
    ensures Seqs.Subsequence(r, db.books)
    ensures forall j :: 0 <= j < |db.books| && EarlyUnread(db.books, LendingsByUser(db.lendings, userId), j) ==> db.books[j] in r
  {
    var mine := LendingsByUser(db.lendings, userId);
    var p := UnreadBy(mine);
    var candidates := Seqs.Filter(db.books, p);
    var r := Seqs.Take(candidates, 5);
    Seqs.FirstPassing(db.books, p, 5);
    forall b | b in r
      ensures b in db.books && Unread(mine, b)
    {
      var i :| 0 <= i < |r| && r[i] == b;
      assert candidates[i] in candidates;
    }
    forall b | |r| < 5 && b in db.books && Unread(mine, b)
      ensures b in r
    {
      Seqs.FilterKeeps(db.books, p, b);
    }
    r
  }

  /** A user who never borrowed anything gets no recommendation. */
  lemma NoHistoryNoRecommendation(db: Db, userId: int)
    requires |LendingsByUser(db.lendings, userId)| == 0
    ensures RecommendBooks(db, userId) == []
  {
    var mine := LendingsByUser(db.lendings, userId);
    assert GenresRead(mine) == {};
    Seqs.NoneCounted(db.books, UnreadBy(mine));
  }

  datatype RecommendationRow = RecommendationRow(userId: int, username: string, recommendations: seq<string>)

  function Titles(books: seq<Book>): (r: seq<string>)
    ensures |r| == |books| && forall i :: 0 <= i < |r| ==> r[i] == books[i].title
  {
    seq(|books|, i requires 0 <= i < |books| => books[i].title)
  }

  /** `generateUserRecommendations`: the recommended titles of every user, in table order. */
  function UserRecommendations(db: Db): (r: seq<RecommendationRow>)
    ensures |r| == |db.users|
    ensures forall i :: 0 <= i < |r| ==>
      r[i].userId == db.users[i].id && r[i].username == db.users[i].username
      && r[i].recommendations == Titles(RecommendBooks(db, db.users[i].id)) && |r[i].recommendations| <= 5
  {
    seq(|db.users|, i requires 0 <= i < |db.users| =>
      RecommendationRow(db.users[i].id, db.users[i].username, Titles(RecommendBooks(db, db.users[i].id))))
  }

  // ---------------------------------------------------------------------
  // Retention risk
  // ---------------------------------------------------------------------

  /** Returned after the due date (a book still out does not count). */
  predicate ReturnedLate(l: Lending)
  {
    l.returnDate.Some? && l.returnDate.value > l.dueDate
  }

  /** `calculateOverdueRatio`: the share of lendings returned late, 0 for none. */
  function LateRatio(mine: seq<Lending>): (r: real)
    ensures 0.0 <= r <= 1.0
    ensures |mine| == 0 ==> r == 0.0
  {
    if |mine| == 0 then 0.0
    else
      var late := Seqs.Count(mine, ReturnedLate) as real;
      var n := |mine| as real;
      Numerics.QuotientNonNegative(late, n, late / n);
      Numerics.QuotientAtMostOne(late, n, late / n);
      late / n
  }

  /** The ratio is zero exactly when no lending came back late, and one exactly when all did. */
  lemma LateRatioExtremes(mine: seq<Lending>)
    requires |mine| > 0
    ensures LateRatio(mine) == 0.0 <==> Seqs.Count(mine, ReturnedLate) == 0
    ensures LateRatio(mine) == 1.0 <==> Seqs.Count(mine, ReturnedLate) == |mine|
  {
    var late := Seqs.Count(mine, ReturnedLate) as real;
    var n := |mine| as real;
    var r := LateRatio(mine);
    assert r == late / n;
    Numerics.RatioAgainstOne(r, late, n);
    Numerics.QuotientTimes(r, late, n);
  }

  /** The latest borrow date of a non-empty history. */
  function LastActivity(mine: seq<Lending>): (t: Timestamp)
    requires |mine| > 0
    ensures exists l :: l in mine && l.borrowDate == t
    ensures forall l :: l in mine ==> l.borrowDate <= t
  {
    if |mine| == 1 then mine[0].borrowDate
    else
      var rest := LastActivity(mine[1..]);
      assert forall l :: l in mine[1..] ==> l in mine;
      assert forall l :: l in mine ==> l == mine[0] || l in mine[1..];
      if mine[0].borrowDate > rest then mine[0].borrowDate else rest
  }

  /** `ChronoUnit.DAYS.between(lastActivity, now)`: whole days, truncated toward zero. */
  function DaysSince(last: Timestamp, now: Timestamp): int
  {
    Numerics.TruncDiv(now - last, Calendar.SecondsPerDay)
  }

  /** 1 for activity today, falling linearly to 0 at 90 days. */
  function ActivityScore(days: int): (a: real)
    ensures a >= 0.0
    ensures days >= 0 ==> a <= 1.0
    ensures days >= 90 ==> a == 0.0
  {
    Numerics.MaxR(0.0, 1.0 - days as real / 90.0)
  }

  /** The score from the days since the last lending and the late ratio: 0.7 of the activity score plus 0.3 of one minus half the ratio. */
  function Retention(days: int, lateRatio: real): (s: real)
    requires 0.0 <= lateRatio <= 1.0
    ensures days >= 0 ==> 0.15 <= s <= 1.0
    ensures days >= 90 ==> s <= 0.3
    ensures days == 0 && lateRatio == 0.0 ==> s == 1.0
  {
    ActivityScore(days) * 0.7 + (1.0 - lateRatio * 0.5) * 0.3
  }

  /** `calculateRetentionScore`: 0 without lendings; otherwise the score from the last borrow date and the late ratio. */
  function RetentionScore(mine: seq<Lending>, now: Timestamp): (s: real)
    ensures |mine| == 0 ==> s == 0.0
    ensures |mine| > 0 ==> s == Retention(DaysSince(LastActivity(mine), now), LateRatio(mine))
    ensures |mine| > 0 && LastActivity(mine) <= now ==> 0.15 <= s <= 1.0
  {
    if |mine| == 0 then 0.0 else Retention(DaysSince(LastActivity(mine), now), LateRatio(mine))
  }

  /** `determineRiskLevel`. */
  function RiskLevel(score: real): (level: string)
    ensures level == "LOW" <==> score >= 0.8
    ensures level == "MEDIUM" <==> 0.5 <= score < 0.8
    ensures level == "HIGH" <==> score < 0.5
  {
    if score >= 0.8 then "LOW" else if score >= 0.5 then "MEDIUM" else "HIGH"
  }

  /** Someone who has not borrowed for 90 days or more is at HIGH risk, however punctual. */
  lemma LongInactiveIsHighRisk(mine: seq<Lending>, now: Timestamp)
    requires |mine| > 0 && DaysSince(LastActivity(mine), now) >= 90
    ensures RetentionScore(mine, now) <= 0.3
    ensures RiskLevel(RetentionScore(mine, now)) == "HIGH"
  {
    var score := RetentionScore(mine, now);
    assert score == Retention(DaysSince(LastActivity(mine), now), LateRatio(mine));
  }

  /** Someone who borrowed today and never returned late scores 1 and is at LOW risk. */
  lemma ActivePunctualIsLowRisk(mine: seq<Lending>, now: Timestamp)
    requires |mine| > 0 && DaysSince(LastActivity(mine), now) == 0
    requires forall l :: l in mine ==> !ReturnedLate(l)
    ensures RetentionScore(mine, now) == 1.0
    ensures RiskLevel(RetentionScore(mine, now)) == "LOW"
  {
    NoneLate(mine);
    LateRatioExtremes(mine);
    var score := RetentionScore(mine, now);
    assert score == Retention(DaysSince(LastActivity(mine), now), LateRatio(mine));
  }

  lemma {:induction false} NoneLate(mine: seq<Lending>)
    requires forall l :: l in mine ==> !ReturnedLate(l)
    ensures Seqs.Count(mine, ReturnedLate) == 0
    decreases |mine|
  {
    if |mine| > 0 {
      assert mine[|mine| - 1] in mine;
      NoneLate(mine[..|mine| - 1]);
    }
  }

  /** The user's lendings borrowed strictly after three months before `now`. */
  function RecentLendings(mine: seq<Lending>, now: Timestamp): (n: nat)
    ensures n <= |mine|
  {
    CountAfter(mine, Calendar.MinusMonths(now, 3))
  }

  /**
   * Adding a lending to the history raises the recent count by one exactly
   * when it was borrowed after the three-month mark, and leaves it alone otherwise.
   */
  lemma RecentLendingsStep(mine: seq<Lending>, l: Lending, now: Timestamp)
    ensures l.borrowDate > Calendar.MinusMonths(now, 3) ==> RecentLendings(mine + [l], now) == RecentLendings(mine, now) + 1
    ensures l.borrowDate <= Calendar.MinusMonths(now, 3) ==> RecentLendings(mine + [l], now) == RecentLendings(mine, now)
  {
    var since := Calendar.MinusMonths(now, 3);
    var p := (x: Lending) => x.borrowDate > since;
    Seqs.CountAppend(mine, [l], p);
    assert Seqs.Count([l], p) == (if p(l) then 1 else 0) by {
      assert [l][..0] == [];
    }
  }

  /** The risk factors, in the order the analysis checks them. */
  datatype RiskFactor = NoActivity | Inactive | HighOverdueRate | LowRecentActivity
  {
    function Name(): string
    {
      match this
      case NoActivity => "NO_ACTIVITY"
      case Inactive => "INACTIVE"
      case HighOverdueRate => "HIGH_OVERDUE_RATE"
      case LowRecentActivity => "LOW_RECENT_ACTIVITY"
    }

    /** The order in which `identifyRiskFactors` adds the factors of a user with lendings. */
    function Rank(): nat
    {
      match this
      case NoActivity => 0
      case Inactive => 1
      case HighOverdueRate => 2
      case LowRecentActivity => 3
    }
  }

  /**
   * `identifyRiskFactors`: NO_ACTIVITY alone for a user without lendings;
   * otherwise INACTIVE after more than 60 days, HIGH_OVERDUE_RATE above 30
   * percent late returns and LOW_RECENT_ACTIVITY below two lendings in
   * three months, in that order (`Factors`).
   */
  function RiskFactors(mine: seq<Lending>, now: Timestamp): (r: seq<RiskFactor>)
    ensures |mine| == 0 <==> r == [NoActivity]
    ensures |mine| > 0 ==> r == Factors(DaysSince(LastActivity(mine), now), LateRatio(mine), RecentLendings(mine, now))
  {
    if |mine| == 0 then [NoActivity]
    else Factors(DaysSince(LastActivity(mine), now), LateRatio(mine), RecentLendings(mine, now))
  }

  /** The factors of a user with lendings, from the days since the last one, the late ratio and the recent count. */
  function Factors(days: int, lateRatio: real, recent: nat): (r: seq<RiskFactor>)
    ensures Inactive in r <==> days > 60
    ensures HighOverdueRate in r <==> lateRatio > 0.3
    ensures LowRecentActivity in r <==> recent < 2
    ensures NoActivity !in r
    ensures Seqs.NoDuplicates(r)
    ensures forall i, j :: 0 <= i < j < |r| ==> r[i].Rank() < r[j].Rank()
  {
    (if days > 60 then [Inactive] else []) + (if lateRatio > 0.3 then [HighOverdueRate] else [])
    + (if recent < 2 then [LowRecentActivity] else [])
  }

  function FactorNames(factors: seq<RiskFactor>): (r: seq<string>)
    ensures |r| == |factors| && forall i :: 0 <= i < |r| ==> r[i] == factors[i].Name()
  {
    seq(|factors|, i requires 0 <= i < |factors| => factors[i].Name())
  }

  datatype RiskRow = RiskRow(userId: int, username: string, retentionScore: real, riskLevel: string, riskFactors: seq<string>)

  function RiskFor(db: Db, user: User, now: Timestamp): (row: RiskRow)
    ensures var mine := LendingsByUser(db.lendings, user.id);
      row.userId == user.id && row.username == user.username
      && row.retentionScore == RetentionScore(mine, now)
      && row.riskLevel == RiskLevel(row.retentionScore)
      && row.riskFactors == FactorNames(RiskFactors(mine, now))
  {
    var mine := LendingsByUser(db.lendings, user.id);
    var score := RetentionScore(mine, now);
    RiskRow(user.id, user.username, score, RiskLevel(score), FactorNames(RiskFactors(mine, now)))
  }

  /** A user who never borrowed is at HIGH risk, with NO_ACTIVITY as the only factor. */
  lemma NoHistoryIsHighRisk(db: Db, user: User, now: Timestamp)
    requires |LendingsByUser(db.lendings, user.id)| == 0
    ensures RiskFor(db, user, now).riskLevel == "HIGH"
    ensures RiskFor(db, user, now).riskFactors == ["NO_ACTIVITY"]
  {
  }

  /** `analyzeRetentionRisk`: one row per user, in table order. */
  function RetentionRisk(db: Db, now: Timestamp): (r: seq<RiskRow>)
    ensures |r| == |db.users|
    ensures forall i :: 0 <= i < |r| ==> r[i] == RiskFor(db, db.users[i], now)
  {
    seq(|db.users|, i requires 0 <= i < |db.users| => RiskFor(db, db.users[i], now))
  }

  // ---------------------------------------------------------------------
  // The whole analysis
  // ---------------------------------------------------------------------

  datatype BehaviorReport = BehaviorReport(
    userSegments: seq<SegmentRow>,
    readingPatterns: ReadingPatterns,
    userRecommendations: seq<RecommendationRow>,
    retentionRisk: seq<RiskRow>)

  /** `analyzeUserBehavior`: the four parts; the whole call fails when there is no lending at all. */
  function AnalyzeUserBehavior(db: Db, now: Timestamp): (r: Result<BehaviorReport, string>)
    ensures r.Err? <==> |db.lendings| == 0
    ensures r.Ok? ==>
      r.value.userSegments == Segments(db, now) && Patterns(db) == Ok(r.value.readingPatterns)
      && r.value.userRecommendations == UserRecommendations(db) && r.value.retentionRisk == RetentionRisk(db, now)
  {
    match Patterns(db)
    case Err(e) => Err(e)
    case Ok(p) => Ok(BehaviorReport(Segments(db, now), p, UserRecommendations(db), RetentionRisk(db, now)))
  }
}
