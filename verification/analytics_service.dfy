/**
 * `AnalyticsService.getLibraryStats`: the library-wide figures of the
 * analytics dashboard.
 *
 * The three top-ten lists come from repository queries whose text the
 * repositories do not declare (`findMostBorrowedBooks`,
 * `findMostActiveMembers`, `findTopRatedBooks`); their rows are a parameter
 * here, and the service only keeps the first ten in the order given. The
 * table sizes of the user and author repositories are parameters too, since
 * the model has no table of their own besides the user and author rows.
 */
module AnalyticsService {
  import opened Wrappers
  import opened Library
  import Seqs
  import Calendar
  import UserBehavior

  /** `TopItemDTO`: an id, a name, and either a count or a rating. */
  datatype TopItem = TopItem(id: int, name: string, count: Option<int>, rating: Option<real>)

  /** A row of `findMostBorrowedBooks` or `findMostActiveMembers`. */
  datatype CountRow = CountRow(id: int, name: string, borrowCount: int)

  /** A row of `findTopRatedBooks`. */
  datatype RatingRow = RatingRow(bookId: int, bookTitle: string, averageRating: real)

  /** The rows the three undeclared ranking queries return, in their order. */
  datatype Rankings = Rankings(mostBorrowed: seq<CountRow>, mostActive: seq<CountRow>, topRated: seq<RatingRow>)

  datatype LibraryStats = LibraryStats(
    totalBooks: nat,
    totalMembers: nat,
    totalAuthors: nat,
    activeLendings: nat,
    overdueBooks: nat,
    averageRating: real,
    mostBorrowedBooks: seq<TopItem>,
    mostActiveMembers: seq<TopItem>,
    highestRatedBooks: seq<TopItem>,
    booksByGenre: map<string, nat>,
    lendingsByMonth: map<string, nat>)

  // ---------------------------------------------------------------------
  // Counts
  // ---------------------------------------------------------------------

  /** `countByReturnDateIsNull`: the lendings not yet returned. */
  function ActiveLendings(lendings: seq<Lending>): (n: nat)
    ensures n <= |lendings|
  {
    Seqs.Count(lendings, Unreturned)
  }

  /** `findOverdueBooks(now).size()`: unreturned lendings due before now. */
  function OverdueLendings(lendings: seq<Lending>, now: Timestamp): (n: nat)
    ensures n <= |lendings|
  {
    Seqs.Count(lendings, (l: Lending) => Overdue(l, now))
  }

  /** Every overdue lending is an active one, so the dashboard never shows more overdue books than active lendings. */
  lemma OverdueAreActive(lendings: seq<Lending>, now: Timestamp)
    ensures OverdueLendings(lendings, now) <= ActiveLendings(lendings)
  {
    Seqs.CountMonotone(lendings, (l: Lending) => Overdue(l, now), Unreturned);
  }

  // ---------------------------------------------------------------------
  // Average rating
  // ---------------------------------------------------------------------

  /** The approved reviews, in table order. */
  function Approved(reviews: seq<Review>): (r: seq<Review>)
    ensures forall x :: x in r ==> x in reviews && x.approved
    ensures |r| == Seqs.Count(reviews, (x: Review) => x.approved)
  {
    Seqs.Filter(reviews, (x: Review) => x.approved)
  }

  /** The mean rating of the approved reviews of every book, 0.0 when there is none. */
  function AverageApprovedRating(reviews: seq<Review>): (a: real)
    ensures Seqs.Count(reviews, (x: Review) => x.approved) == 0 ==> a == 0.0
  {
    UserBehavior.AverageRating(Approved(reviews))
  }

  /** With ratings from 1 to 5, an average over at least one approved review lies between 1 and 5. */
  lemma AverageApprovedRatingInScale(reviews: seq<Review>)
    requires forall x :: x in reviews ==> 1 <= x.rating <= 5
    requires exists x :: x in reviews && x.approved
    ensures 1.0 <= AverageApprovedRating(reviews) <= 5.0
  {
    var x :| x in reviews && x.approved;
    Seqs.FilterKeeps(reviews, (x: Review) => x.approved, x);
    UserBehavior.AverageRatingInScale(Approved(reviews));
  }

  /** Reviews awaiting approval do not move the average. */
  lemma PendingReviewsIgnored(reviews: seq<Review>, pending: Review)
    requires !pending.approved
    ensures AverageApprovedRating(reviews + [pending]) == AverageApprovedRating(reviews)
  {
    var s := reviews + [pending];
    assert s[..|s| - 1] == reviews;
    assert Approved(s) == Approved(reviews);
  }

  // ---------------------------------------------------------------------
  // Top ten lists
  // ---------------------------------------------------------------------

  function CountItem(row: CountRow): TopItem
  {
    TopItem(row.id, row.name, Some(row.borrowCount), None)
  }

  function RatingItem(row: RatingRow): TopItem
  {
    TopItem(row.bookId, row.bookTitle, None, Some(row.averageRating))
  }

  /** `stream().limit(10).map(... new TopItemDTO(id, name, count))`. */
  function TopCounts(rows: seq<CountRow>): (r: seq<TopItem>)
    ensures |r| == if |rows| < 10 then |rows| else 10
    ensures forall i :: 0 <= i < |r| ==>
      r[i].id == rows[i].id && r[i].name == rows[i].name
      && r[i].count == Some(rows[i].borrowCount) && r[i].rating.None?
  {
    var kept := Seqs.Take(rows, 10);
    seq(|kept|, i requires 0 <= i < |kept| => CountItem(kept[i]))
  }

  /** `stream().limit(10).map(... new TopItemDTO(id, name, rating))`. */
  function TopRatings(rows: seq<RatingRow>): (r: seq<TopItem>)
    ensures |r| == if |rows| < 10 then |rows| else 10
    ensures forall i :: 0 <= i < |r| ==>
      r[i].id == rows[i].bookId && r[i].name == rows[i].bookTitle
      && r[i].rating == Some(rows[i].averageRating) && r[i].count.None?
  {
    var kept := Seqs.Take(rows, 10);
    seq(|kept|, i requires 0 <= i < |kept| => RatingItem(kept[i]))
  }

  /** A top list only depends on the first ten rows: rows past the tenth never show. */
  lemma TopCountsIgnoreTail(rows: seq<CountRow>, more: seq<CountRow>)
    requires |rows| >= 10
    ensures TopCounts(rows + more) == TopCounts(rows)
  {
    var a, b := TopCounts(rows + more), TopCounts(rows);
    assert |a| == |b| == 10;
    forall i | 0 <= i < 10
      ensures a[i] == b[i]
    {
      assert (rows + more)[i] == rows[i];
    }
  }

  // ---------------------------------------------------------------------
  // Groupings
  // ---------------------------------------------------------------------

  function GenresOf(books: seq<Book>): (r: seq<string>)
    ensures |r| == |books| && forall i :: 0 <= i < |r| ==> r[i] == books[i].genre
  {
    seq(|books|, i requires 0 <= i < |books| => books[i].genre)
  }

  /** `groupingBy(Book::getGenre, counting())`: every genre that occurs, with its number of books. */
  function BooksByGenre(books: seq<Book>): (r: map<string, nat>)
    ensures forall g :: g in r <==> exists b :: b in books && b.genre == g
    ensures forall g :: g in r ==> r[g] == Seqs.Count(books, (b: Book) => b.genre == g)
  {
    var genres := GenresOf(books);
    forall g
      ensures g in genres <==> exists b :: b in books && b.genre == g
    {
      if g in genres {
        var i :| 0 <= i < |genres| && genres[i] == g;
        assert books[i] in books;
      }
      if exists b :: b in books && b.genre == g {
        var b :| b in books && b.genre == g;
        var i :| 0 <= i < |books| && books[i] == b;
        assert genres[i] == g;
      }
    }
    forall g | g in genres
      ensures Seqs.CountOf(genres, g) == Seqs.Count(books, (b: Book) => b.genre == g)
    {
      CountOfGenres(books, g);
    }
    map g | g in genres :: Seqs.CountOf(genres, g)
  }

  /** Counting a genre among the genres is counting the books of that genre. */
  lemma {:induction false} CountOfGenres(books: seq<Book>, g: string)
    ensures Seqs.CountOf(GenresOf(books), g) == Seqs.Count(books, (b: Book) => b.genre == g)
    decreases |books|
  {
    if |books| > 0 {
      var init := books[..|books| - 1];
      var last := books[|books| - 1];
      CountOfGenres(init, g);
      assert books == init + [last];
      assert GenresOf(books) == GenresOf(init) + [last.genre];
      Seqs.CountOfAppend(GenresOf(init), [last.genre], g);
      Seqs.CountAppend(init, [last], (b: Book) => b.genre == g);
    }
  }

  /** Every book is counted in exactly one genre: the counts over the genres add up to the number of books. */
  lemma GenreCountsCoverBooks(books: seq<Book>)
    ensures var genres := GenresOf(books);
      Seqs.CountsOver(Seqs.Distinct(genres), genres) == |books|
      && forall g :: g in Seqs.Distinct(genres) <==> g in BooksByGenre(books)
  {
    Seqs.GroupCountsSumToLength(GenresOf(books));
  }

  /** The lendings borrowed strictly after twelve months before now (`isAfter`). */
  function LastYear(lendings: seq<Lending>, now: Timestamp): (r: seq<Lending>)
    ensures forall l :: l in r <==> l in lendings && l.borrowDate > Calendar.MinusMonths(now, 12)
    ensures |r| == CountAfter(lendings, Calendar.MinusMonths(now, 12))
  {
    var since := Calendar.MinusMonths(now, 12);
    var p := (l: Lending) => l.borrowDate > since;
    forall l | l in lendings && p(l)
      ensures l in Seqs.Filter(lendings, p)
    {
      Seqs.FilterKeeps(lendings, p, l);
    }
    Seqs.Filter(lendings, p)
  }

  /** The `yyyy-MM` key of every borrow date, in table order. */
  function MonthKeys(lendings: seq<Lending>): (r: seq<string>)
    ensures |r| == |lendings|
    ensures forall i :: 0 <= i < |r| ==> r[i] == Calendar.FormatYearMonth(lendings[i].borrowDate)
  {
    seq(|lendings|, i requires 0 <= i < |lendings| => Calendar.FormatYearMonth(lendings[i].borrowDate))
  }

  /** `groupingBy(yyyy-MM of the borrow date, counting())`: every month in which a lending was made, with its count. */
  function MonthCounts(lendings: seq<Lending>): (r: map<string, nat>)
    ensures forall k :: k in r <==> exists l :: l in lendings && Calendar.FormatYearMonth(l.borrowDate) == k
    ensures forall k :: k in r ==> r[k] > 0 && r[k] == Seqs.CountOf(MonthKeys(lendings), k)
  {
    MonthKeysOccur(lendings);
    Seqs.Occurrences(MonthKeys(lendings))
  }

  /** `lendingsByMonth`: the lendings borrowed after twelve months before now, counted per `yyyy-MM` month. */
  function LendingsByMonth(lendings: seq<Lending>, now: Timestamp): (r: map<string, nat>)
    ensures forall k :: k in r <==>
      (exists l :: l in lendings && l.borrowDate > Calendar.MinusMonths(now, 12) && Calendar.FormatYearMonth(l.borrowDate) == k)
    ensures forall k :: k in r ==> r[k] > 0 && r[k] == Seqs.CountOf(MonthKeys(LastYear(lendings, now)), k)
  {
    var recent := LastYear(lendings, now);
    var r := MonthCounts(recent);
    forall k
      ensures k in r <==>
        (exists l :: l in lendings && l.borrowDate > Calendar.MinusMonths(now, 12) && Calendar.FormatYearMonth(l.borrowDate) == k)
    {
      if k in r {
        var l :| l in recent && Calendar.FormatYearMonth(l.borrowDate) == k;
        assert l in lendings;
      }
    }
    r
  }

  /** A key is listed exactly when some lending was borrowed in that month. */
  lemma MonthKeysOccur(lendings: seq<Lending>)
    ensures forall k :: k in MonthKeys(lendings) <==>
      exists l :: l in lendings && Calendar.FormatYearMonth(l.borrowDate) == k
  {
    var keys := MonthKeys(lendings);
    forall k
      ensures k in keys <==> exists l :: l in lendings && Calendar.FormatYearMonth(l.borrowDate) == k
    {
      if k in keys {
        var i :| 0 <= i < |keys| && keys[i] == k;
        assert lendings[i] in lendings;
      }
      if exists l :: l in lendings && Calendar.FormatYearMonth(l.borrowDate) == k {
        var l :| l in lendings && Calendar.FormatYearMonth(l.borrowDate) == k;
        var i :| 0 <= i < |lendings| && lendings[i] == l;
        assert keys[i] == k;
      }
    }
  }

  /** Every lending of the last twelve months is counted in exactly one month, and older ones in none. */
  lemma MonthCountsCoverLastYear(lendings: seq<Lending>, now: Timestamp)
    ensures var keys := MonthKeys(LastYear(lendings, now));
      Seqs.CountsOver(Seqs.Distinct(keys), keys) == CountAfter(lendings, Calendar.MinusMonths(now, 12))
      && forall k :: k in Seqs.Distinct(keys) <==> k in LendingsByMonth(lendings, now)
  {
    Seqs.GroupCountsSumToLength(MonthKeys(LastYear(lendings, now)));
  }

  // ---------------------------------------------------------------------
  // The statistics
  // ---------------------------------------------------------------------

  /** `getLibraryStats`, with the clock, the two table sizes it only counts, and the ranking rows as parameters. */
  function LibraryStatsOf(db: Db, memberCount: nat, authorCount: nat, rankings: Rankings, now: Timestamp)
    : (s: LibraryStats)
    ensures s.totalBooks == |db.books| && s.totalMembers == memberCount && s.totalAuthors == authorCount
    ensures s.overdueBooks <= s.activeLendings <= |db.lendings|
    ensures s.averageRating == AverageApprovedRating(db.reviews)
    ensures |s.mostBorrowedBooks| <= 10 && |s.mostActiveMembers| <= 10 && |s.highestRatedBooks| <= 10
    ensures forall g :: g in s.booksByGenre <==> exists b :: b in db.books && b.genre == g
    ensures forall k :: k in s.lendingsByMonth ==> s.lendingsByMonth[k] > 0
  {
    OverdueAreActive(db.lendings, now);
    LibraryStats(
      |db.books|,
      memberCount,
      authorCount,
      ActiveLendings(db.lendings),
      OverdueLendings(db.lendings, now),
      AverageApprovedRating(db.reviews),
      TopCounts(rankings.mostBorrowed),
      TopCounts(rankings.mostActive),
      TopRatings(rankings.topRated),
      BooksByGenre(db.books),
      LendingsByMonth(db.lendings, now))
  }
}
