/**
 * The book recommendations of the server: personalised ones from the
 * genres a member borrows and rates highly, and books similar to a given
 * one.
 *
 * Both operations sort their candidates by ascending score before keeping
 * the first few, so they return the lowest-scored candidates; the `...AsWritten`
 * members model that, the others the evidently intended highest-scored
 * selection that the rest of the model uses.
 */
module Recommendation {
  import opened Wrappers
  import opened Library
  import Seqs
  import Numerics
  import ReviewController

  // ---------------------------------------------------------------------
  // Genre preferences
  // ---------------------------------------------------------------------

  function Get(m: map<string, nat>, g: string): nat
  {
    if g in m then m[g] else 0
  }

  /** `genrePreferences.merge(genre, w, Integer::sum)` for every genre, in order. */
  function Tally(m: map<string, nat>, genres: seq<string>, w: nat): (r: map<string, nat>)
  {
    if |genres| == 0 then m
    else
      var before := Tally(m, genres[..|genres| - 1], w);
      var g := genres[|genres| - 1];
      before[g := Get(before, g) + w]
  }

  /** After the merges a genre holds its old weight plus w for every occurrence. */
  lemma {:induction false} TallyCounts(m: map<string, nat>, genres: seq<string>, w: nat, g: string)
    ensures g in Tally(m, genres, w) <==> g in m || g in genres
    ensures Get(Tally(m, genres, w), g) == Get(m, g) + w * Seqs.CountOf(genres, g)
    decreases |genres|
  {
    if |genres| > 0 {
      var init := genres[..|genres| - 1];
      var last := genres[|genres| - 1];
      TallyCounts(m, init, w, g);
      assert genres == init + [last];
      assert g in genres <==> g in init || g == last;
      Seqs.CountOfAppend(init, [last], g);
      var c := Seqs.CountOf(init, g);
      if g == last {
        assert Seqs.CountOf(genres, g) == c + 1;
        Numerics.Distribute(w, c);
      } else {
        assert Seqs.CountOf(genres, g) == c;
      }
    }
  }

  /** The genre of each book the user borrowed. */
  function GenresBorrowed(mine: seq<Lending>): (r: seq<string>)
    ensures |r| == |mine| && forall i :: 0 <= i < |r| ==> r[i] == mine[i].book.genre
  {
    seq(|mine|, i requires 0 <= i < |mine| => mine[i].book.genre)
  }

  /** The genre of each book the user rated 4 or more. */
  function GenresRatedHigh(written: seq<Review>): (r: seq<string>)
    ensures forall g :: g in r <==> exists x :: x in written && x.rating >= 4 && x.book.genre == g
  {
    var high := Seqs.Filter(written, (x: Review) => x.rating >= 4);
    forall x | x in written && x.rating >= 4
      ensures x in high
    {
      Seqs.FilterKeeps(written, (x: Review) => x.rating >= 4, x);
    }
    var r := seq(|high|, i requires 0 <= i < |high| => high[i].book.genre);
    forall g | g in r
      ensures exists x :: x in written && x.rating >= 4 && x.book.genre == g
    {
      var i :| 0 <= i < |r| && r[i] == g;
      assert high[i] in high;
    }
    forall x | x in written && x.rating >= 4
      ensures x.book.genre in r
    {
      var i :| 0 <= i < |high| && high[i] == x;
      assert r[i] == x.book.genre;
    }
    r
  }

  /** The weights: 1 per lending of the genre, then 2 per review of 4 or more. */
  function Preferences(mine: seq<Lending>, written: seq<Review>): map<string, nat>
  {
    Tally(Tally(map[], GenresBorrowed(mine), 1), GenresRatedHigh(written), 2)
  }

  /** A genre's weight is its lending count plus twice its count of high ratings, and every genre with either has a weight. */
  lemma PreferenceWeights(mine: seq<Lending>, written: seq<Review>, g: string)
    ensures g in Preferences(mine, written) <==> g in GenresBorrowed(mine) || g in GenresRatedHigh(written)
    ensures Get(Preferences(mine, written), g)
      == Seqs.CountOf(GenresBorrowed(mine), g) + 2 * Seqs.CountOf(GenresRatedHigh(written), g)
  {
    TallyCounts(map[], GenresBorrowed(mine), 1, g);
    TallyCounts(Tally(map[], GenresBorrowed(mine), 1), GenresRatedHigh(written), 2, g);
  }

  function WeightKey(prefs: map<string, nat>): string -> real
  {
    (g: string) => Get(prefs, g) as real
  }

  /** The genres with a weight are exactly those borrowed or rated highly. */
  lemma PreferenceKeys(mine: seq<Lending>, written: seq<Review>)
    ensures forall g :: g in Seqs.Distinct(GenresBorrowed(mine) + GenresRatedHigh(written)) <==> g in Preferences(mine, written)
  {
    forall g
      ensures g in GenresBorrowed(mine) + GenresRatedHigh(written) <==> g in Preferences(mine, written)
    {
      PreferenceWeights(mine, written, g);
    }
  }

  /** The n heaviest of distinct keys, heaviest first, ties in key order. */
  function Heaviest(keys: seq<string>, prefs: map<string, nat>, n: nat): (r: seq<string>)
    requires Seqs.NoDuplicates(keys)
    ensures |r| <= n && Seqs.NoDuplicates(r)
    ensures forall g :: g in r ==> g in keys
    ensures forall i, j :: 0 <= i < j < |r| ==> Get(prefs, r[i]) >= Get(prefs, r[j])
    ensures forall g, i :: g in keys && g !in r && 0 <= i < |r| ==> Get(prefs, r[i]) >= Get(prefs, g)
  {
    var key := WeightKey(prefs);
    var r := Seqs.Highest(keys, key, n);
    forall i, j | 0 <= i < j < |r|
      ensures Get(prefs, r[i]) >= Get(prefs, r[j])
    {
      assert key(r[i]) >= key(r[j]);
    }
    forall g, i | g in keys && g !in r && 0 <= i < |r|
      ensures Get(prefs, r[i]) >= Get(prefs, g)
    {
      assert key(r[i]) >= key(g);
    }
    r
  }

  /**
   * The three heaviest genres. The source streams a `HashMap` keyed by
   * genre, whose order follows the genres' string hash codes; the model
   * keeps the genres in order of first appearance instead, and the stable
   * sort keeps that order among equal weights.
   */
  function PreferredGenres(mine: seq<Lending>, written: seq<Review>): (r: seq<string>)
    ensures |r| <= 3 && Seqs.NoDuplicates(r)
    ensures forall g :: g in r ==> g in Preferences(mine, written)
    ensures forall i, j :: 0 <= i < j < |r| ==> Get(Preferences(mine, written), r[i]) >= Get(Preferences(mine, written), r[j])
    ensures forall g, i :: g in Preferences(mine, written) && g !in r && 0 <= i < |r| ==>
      Get(Preferences(mine, written), r[i]) >= Get(Preferences(mine, written), g)
  {
    PreferenceKeys(mine, written);
    Heaviest(Seqs.Distinct(GenresBorrowed(mine) + GenresRatedHigh(written)), Preferences(mine, written), 3)
  }

  // ---------------------------------------------------------------------
  // Personalised recommendations
  // ---------------------------------------------------------------------

  /** `getAverageRatingForBook`: the mean approved rating, `null` (None) when there is none. */
  function ApprovedAverage(reviews: seq<Review>, bookId: int): (a: Option<real>)
    ensures a.None? <==> |ReviewController.ApprovedRatings(reviews, bookId)| == 0
  {
    var ratings := ReviewController.ApprovedRatings(reviews, bookId);
    if |ratings| == 0 then None else Some(Seqs.Sum(ratings) / |ratings| as real)
  }

  /** The query agrees with the average the review endpoint reports, which shows 0 where the query gives `null`. */
  lemma ApprovedAverageMatchesEndpoint(db: Db, bookId: int)
    ensures ApprovedAverage(db.reviews, bookId).GetOr(0.0) == ReviewController.AverageRating(db, bookId)
  {
  }

  /** `calculateBookScore`: 0.4 per step of genre preference, 0.3 of the average rating when there is one, 0.3 of the lending count up to 10. */
  function BookScore(genrePreference: int, rating: Option<real>, lendings: nat): (s: real)
    ensures 0 <= genrePreference <= 2 && (rating.Some? ==> 0.0 <= rating.value <= 5.0) ==> 0.4 <= s <= 3.0
  {
    (3 - genrePreference) as real * 0.4
    + (if rating.Some? then rating.value * 0.3 else 0.0)
    + Numerics.MinR(lendings as real / 10.0, 1.0) * 0.3
  }

  /** Between two books that differ only in genre rank, the more preferred genre scores higher. */
  lemma PreferredGenreScoresHigher(p: int, q: int, rating: Option<real>, lendings: nat)
    requires p < q
    ensures BookScore(p, rating, lendings) > BookScore(q, rating, lendings)
  {
  }

  /** `lendingRepository.countByBookId` (a derived query the repository does not declare). */
  function LendingCount(all: seq<Lending>, bookId: int): (n: nat)
    ensures n <= |all|
  {
    Seqs.Count(all, (l: Lending) => l.book.id == bookId)
  }

  function Score(db: Db, preferred: seq<string>, book: Book): real
  {
    BookScore(Seqs.IndexOf(preferred, book.genre), ApprovedAverage(db.reviews, book.id), LendingCount(db.lendings, book.id))
  }

  function ScoreKey(db: Db, preferred: seq<string>): Book -> real
  {
    (b: Book) => Score(db, preferred, b)
  }

  /** The ids of the books the user borrowed. */
  function ReadIds(mine: seq<Lending>): set<int>
  {
    set l | l in mine :: l.book.id
  }

  /** The unread books of the preferred genres, in table order. */
  function Candidates(db: Db, user: User): (r: seq<Book>)
    ensures var mine := LendingsByUser(db.lendings, user.id);
      var preferred := PreferredGenres(mine, ReviewsByUser(db.reviews, user.id));
      forall b :: b in r <==> b in db.books && b.id !in ReadIds(mine) && b.genre in preferred
  {
    var mine := LendingsByUser(db.lendings, user.id);
    var preferred := PreferredGenres(mine, ReviewsByUser(db.reviews, user.id));
    var p := (b: Book) => b.id !in ReadIds(mine) && b.genre in preferred;
    forall b | b in db.books && p(b)
      ensures b in Seqs.Filter(db.books, p)
    {
      Seqs.FilterKeeps(db.books, p, b);
    }
    Seqs.Filter(db.books, p)
  }

  function PreferredOf(db: Db, user: User): seq<string>
  {
    PreferredGenres(LendingsByUser(db.lendings, user.id), ReviewsByUser(db.reviews, user.id))
  }

  /**
   * r holds n of the books of s (all of them when s has no more), drawn
   * without repetition, highest key first, and none left out is keyed above
   * one listed.
   */
  predicate TopRanked(s: seq<Book>, key: Book -> real, n: nat, r: seq<Book>)
  {
    |r| == (if n < |s| then n else |s|)
    && multiset(r) <= multiset(s)
    && (|s| <= n ==> multiset(r) == multiset(s))
    && (forall i, j :: 0 <= i < j < |r| ==> key(r[i]) >= key(r[j]))
    && forall b, i :: b in s && b !in r && 0 <= i < |r| ==> key(r[i]) >= key(b)
  }

  /**
   * r holds n of the books of s (all of them when s has no more), drawn
   * without repetition, lowest key first, and none left out is keyed below
   * one listed.
   */
  predicate BottomRanked(s: seq<Book>, key: Book -> real, n: nat, r: seq<Book>)
  {
    |r| == (if n < |s| then n else |s|)
    && multiset(r) <= multiset(s)
    && (|s| <= n ==> multiset(r) == multiset(s))
    && (forall i, j :: 0 <= i < j < |r| ==> key(r[i]) <= key(r[j]))
    && forall b, i :: b in s && b !in r && 0 <= i < |r| ==> key(r[i]) <= key(b)
  }

  /** Sorting by descending key and keeping the first n. */
  function Best(s: seq<Book>, key: Book -> real, n: nat): (r: seq<Book>)
    ensures TopRanked(s, key, n, r)
  {
    Seqs.Highest(s, key, n)
  }

  /** Sorting by ascending key and keeping the first n. */
  function Worst(s: seq<Book>, key: Book -> real, n: nat): (r: seq<Book>)
    ensures BottomRanked(s, key, n, r)
  {
    Seqs.Lowest(s, key, n)
  }

  /** `getPersonalizedRecommendations` as written: the ten LOWEST-scored candidates, lowest first. */
  function PersonalizedAsWritten(db: Db, user: User): (r: seq<Book>)
    ensures BottomRanked(Candidates(db, user), ScoreKey(db, PreferredOf(db, user)), 10, r)
  {
    Worst(Candidates(db, user), ScoreKey(db, PreferredOf(db, user)), 10)
  }

  /** The intended recommendation: the ten highest-scored candidates, best first. */
  function Personalized(db: Db, user: User): (r: seq<Book>)
    ensures TopRanked(Candidates(db, user), ScoreKey(db, PreferredOf(db, user)), 10, r)
  {
    Best(Candidates(db, user), ScoreKey(db, PreferredOf(db, user)), 10)
  }

  /**
   * With more than ten candidates, the candidate that scores strictly best
   * is never recommended as written, and comes first in the intended list.
   */
  lemma BestCandidateDropped(db: Db, user: User, best: Book)
    requires UniqueBookIds(db.books)
    requires |Candidates(db, user)| > 10 && best in Candidates(db, user)
    requires forall c :: c in Candidates(db, user) && c != best ==>
      Score(db, PreferredOf(db, user), c) < Score(db, PreferredOf(db, user), best)
    ensures best !in PersonalizedAsWritten(db, user)
    ensures Personalized(db, user)[0] == best
  {
    var cands := Candidates(db, user);
    var key := ScoreKey(db, PreferredOf(db, user));
    CandidatesNoDuplicates(db, user);
    Seqs.LowestDropsMaximum(cands, key, 10, best);
    Seqs.HighestKeepsMaximum(cands, key, 10, best);
    assert PersonalizedAsWritten(db, user) == Worst(cands, key, 10) == Seqs.Lowest(cands, key, 10);
    assert Personalized(db, user) == Best(cands, key, 10) == Seqs.Highest(cands, key, 10);
  }

  lemma CandidatesNoDuplicates(db: Db, user: User)
    requires UniqueBookIds(db.books)
    ensures Seqs.NoDuplicates(Candidates(db, user))
  {
    var mine := LendingsByUser(db.lendings, user.id);
    var preferred := PreferredGenres(mine, ReviewsByUser(db.reviews, user.id));
    var p := (b: Book) => b.id !in ReadIds(mine) && b.genre in preferred;
    UniqueBooks(db.books);
    Seqs.FilterNoDuplicates(db.books, p);
  }

  // ---------------------------------------------------------------------
  // Similar books
  // ---------------------------------------------------------------------

  predicate ShareAuthor(a: Book, b: Book)
  {
    exists x :: x in a.authors && x in b.authors
  }

  /** `calculateSimilarity`: 0.4 for the same genre, up to 0.3 for close ratings when both exist, 0.3 for a common author. */
  function Similarity(a: Book, b: Book, ra: Option<real>, rb: Option<real>): (s: real)
    ensures (ra.Some? ==> 0.0 <= ra.value <= 5.0) && (rb.Some? ==> 0.0 <= rb.value <= 5.0) ==> 0.0 <= s <= 1.0
    ensures ((ra.Some? ==> 0.0 <= ra.value <= 5.0) && (rb.Some? ==> 0.0 <= rb.value <= 5.0)
      && a.genre == b.genre && ShareAuthor(a, b)) ==> s >= 0.7
  {
    (if a.genre == b.genre then 0.4 else 0.0)
    + (if ra.Some? && rb.Some? then (1.0 - Numerics.Abs(ra.value - rb.value) / 5.0) * 0.3 else 0.0)
    + (if ShareAuthor(a, b) then 0.3 else 0.0)
  }

  /** Similarity does not depend on which book is the source. */
  lemma SimilarityIsSymmetric(a: Book, b: Book, ra: Option<real>, rb: Option<real>)
    ensures Similarity(a, b, ra, rb) == Similarity(b, a, rb, ra)
  {
    if ra.Some? && rb.Some? {
      assert Numerics.Abs(ra.value - rb.value) == Numerics.Abs(rb.value - ra.value);
    }
    assert ShareAuthor(a, b) == ShareAuthor(b, a);
  }

  function SimilarityKey(db: Db, source: Book): Book -> real
  {
    (b: Book) => Similarity(source, b, ApprovedAverage(db.reviews, source.id), ApprovedAverage(db.reviews, b.id))
  }

  /** The other books of the source's genre, in table order. */
  function SameGenre(db: Db, source: Book, bookId: int): (r: seq<Book>)
    ensures forall b :: b in r <==> b in db.books && b.id != bookId && b.genre == source.genre
    ensures Seqs.NoDuplicates(db.books) ==> Seqs.NoDuplicates(r)
  {
    var p := (b: Book) => b.id != bookId && b.genre == source.genre;
    assert Seqs.NoDuplicates(db.books) ==> Seqs.NoDuplicates(Seqs.Filter(db.books, p)) by {
      if Seqs.NoDuplicates(db.books) {
        Seqs.FilterNoDuplicates(db.books, p);
      }
    }
    forall b | b in db.books && p(b)
      ensures b in Seqs.Filter(db.books, p)
    {
      Seqs.FilterKeeps(db.books, p, b);
    }
    Seqs.Filter(db.books, p)
  }

  /** `getSimilarBooks` as written: an unknown book throws; otherwise the five LEAST similar books of its genre. */
  function SimilarAsWritten(db: Db, bookId: int): (r: Reply<seq<Book>>)
    ensures BookIndex(db.books, bookId) < 0 <==> r == Thrown("Book not found")
    ensures r.Success? ==> var source := db.books[BookIndex(db.books, bookId)];
      BottomRanked(SameGenre(db, source, bookId), SimilarityKey(db, source), 5, r.body)
  {
    var i := BookIndex(db.books, bookId);
    if i < 0 then Thrown("Book not found")
    else
      var source := db.books[i];
      Success(Worst(SameGenre(db, source, bookId), SimilarityKey(db, source), 5))
  }

  /** The intended similar books: the five MOST similar of the genre, the source itself excluded, most similar first. */
  function SimilarBooks(db: Db, bookId: int): (r: Reply<seq<Book>>)
    ensures BookIndex(db.books, bookId) < 0 <==> r == Thrown("Book not found")
    ensures r.Success? ==> var source := db.books[BookIndex(db.books, bookId)];
      TopRanked(SameGenre(db, source, bookId), SimilarityKey(db, source), 5, r.body)
  {
    var i := BookIndex(db.books, bookId);
    if i < 0 then Thrown("Book not found")
    else
      var source := db.books[i];
      Success(Best(SameGenre(db, source, bookId), SimilarityKey(db, source), 5))
  }

  /**
   * With more than five books in the genre, the one strictly most similar to
   * the source is never returned as written, and comes first in the
   * intended list.
   */
  lemma MostSimilarDropped(db: Db, bookId: int, best: Book)
    requires UniqueBookIds(db.books) && BookIndex(db.books, bookId) >= 0
    requires var source := db.books[BookIndex(db.books, bookId)];
      |SameGenre(db, source, bookId)| > 5 && best in SameGenre(db, source, bookId)
      && forall c :: c in SameGenre(db, source, bookId) && c != best ==>
        SimilarityKey(db, source)(c) < SimilarityKey(db, source)(best)
    ensures best !in SimilarAsWritten(db, bookId).body
    ensures SimilarBooks(db, bookId).body[0] == best
  {
    var source := db.books[BookIndex(db.books, bookId)];
    var others := SameGenre(db, source, bookId);
    var key := SimilarityKey(db, source);
    UniqueBooks(db.books);
    MostSimilarNotKept(others, key, best);
    MostSimilarFirst(others, key, best);
    assert SimilarAsWritten(db, bookId).body == Worst(others, key, 5) == Seqs.Lowest(others, key, 5);
    assert SimilarBooks(db, bookId).body == Best(others, key, 5) == Seqs.Highest(others, key, 5);
  }

  lemma MostSimilarNotKept(others: seq<Book>, key: Book -> real, best: Book)
    requires |others| > 5 && Seqs.NoDuplicates(others) && best in others
    requires forall c :: c in others && c != best ==> key(c) < key(best)
    ensures best !in Seqs.Lowest(others, key, 5)
  {
    Seqs.LowestDropsMaximum(others, key, 5, best);
  }

  lemma MostSimilarFirst(others: seq<Book>, key: Book -> real, best: Book)
    requires |others| > 5 && best in others
    requires forall c :: c in others && c != best ==> key(c) < key(best)
    ensures Seqs.Highest(others, key, 5)[0] == best
  {
    Seqs.HighestKeepsMaximum(others, key, 5, best);
  }
}
