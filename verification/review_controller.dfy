/**
 * The review endpoints of the server: members write reviews that wait for a
 * librarian's approval, only approved reviews are listed and averaged, and
 * librarians approve or delete them.
 */
module ReviewController {
  import opened Wrappers
  import opened Library
  import Seqs

  datatype ReviewDto = ReviewDto(
    id: int,
    bookId: int,
    userId: int,
    username: string,
    rating: int,
    comment: string,
    createdAt: Timestamp,
    approved: bool)

  /** `convertToDTO`: the book shrinks to its id, the user to its id and name. */
  function ToDto(x: Review): (d: ReviewDto)
    ensures d.id == x.id && d.bookId == x.book.id && d.userId == x.user.id && d.username == x.user.username
    ensures d.rating == x.rating && d.comment == x.comment && d.createdAt == x.createdAt && d.approved == x.approved
  {
    ReviewDto(x.id, x.book.id, x.user.id, x.user.username, x.rating, x.comment, x.createdAt, x.approved)
  }

  function ToDtos(s: seq<Review>): (r: seq<ReviewDto>)
    ensures |r| == |s| && forall i :: 0 <= i < |s| ==> r[i] == ToDto(s[i])
  {
    seq(|s|, i requires 0 <= i < |s| => ToDto(s[i]))
  }

  /** The DTOs of the reviews satisfying p: every such review is listed, and every listed DTO comes from one. */
  function Listing(s: seq<Review>, p: Review -> bool): (r: seq<ReviewDto>)
    ensures forall x :: x in s && p(x) ==> ToDto(x) in r
    ensures forall d :: d in r ==> exists x :: x in s && p(x) && d == ToDto(x)
  {
    var kept := Seqs.Filter(s, p);
    forall x | x in s && p(x)
      ensures ToDto(x) in ToDtos(kept)
    {
      Seqs.FilterKeeps(s, p, x);
      var k :| 0 <= k < |kept| && kept[k] == x;
      assert ToDtos(kept)[k] == ToDto(x);
    }
    forall d | d in ToDtos(kept)
      ensures exists x :: x in s && p(x) && d == ToDto(x)
    {
      var k :| 0 <= k < |kept| && ToDtos(kept)[k] == d;
      assert kept[k] in kept;
    }
    ToDtos(kept)
  }

  /** `getBookReviews`: the approved reviews of the book. */
  function BookReviews(db: Db, bookId: int): (r: seq<ReviewDto>)
    ensures forall d :: d in r ==> d.bookId == bookId && d.approved
    ensures forall x :: x in db.reviews && x.book.id == bookId && x.approved ==> ToDto(x) in r
    ensures forall d :: d in r ==> exists x :: x in db.reviews && x.book.id == bookId && x.approved && d == ToDto(x)
  {
    Listing(db.reviews, (x: Review) => x.book.id == bookId && x.approved)
  }

  /** `getMyReviews`: the signed-in user's approved reviews (an unknown user throws). */
  function MyReviews(db: Db, username: string): (r: Reply<seq<ReviewDto>>)
    ensures UserNamed(db.users, username).None? <==> r == Thrown("User not found")
    ensures r.Success? ==> forall d :: d in r.body ==> d.userId == UserNamed(db.users, username).value.id && d.approved
    ensures r.Success? ==> var u := UserNamed(db.users, username).value;
      forall x :: x in db.reviews && x.user.id == u.id && x.approved ==> ToDto(x) in r.body
    ensures r.Success? ==> var u := UserNamed(db.users, username).value;
      forall d :: d in r.body ==> exists x :: x in db.reviews && x.user.id == u.id && x.approved && d == ToDto(x)
  {
    match UserNamed(db.users, username)
    case None => Thrown("User not found")
    case Some(u) => Success(Listing(db.reviews, (x: Review) => x.user.id == u.id && x.approved))
  }

  /** `getPendingReviews`: the reviews still waiting for approval. */
  function Pending(db: Db): (r: seq<ReviewDto>)
    ensures forall d :: d in r ==> !d.approved
    ensures forall x :: x in db.reviews && !x.approved ==> ToDto(x) in r
    ensures forall d :: d in r ==> exists x :: x in db.reviews && !x.approved && d == ToDto(x)
  {
    Listing(db.reviews, (x: Review) => !x.approved)
  }

  /** The ratings of the approved reviews of a book, in table order. */
  function ApprovedRatings(reviews: seq<Review>, bookId: int): (r: seq<real>)
    ensures |r| == Seqs.Count(reviews, (x: Review) => x.book.id == bookId && x.approved)
  {
    var kept := Seqs.Filter(reviews, (x: Review) => x.book.id == bookId && x.approved);
    seq(|kept|, i requires 0 <= i < |kept| => kept[i].rating as real)
  }

  /** `getBookAverageRating`: the mean of the approved ratings, 0.0 when there is none (the query's `null`). */
  function AverageRating(db: Db, bookId: int): (a: real)
    ensures |ApprovedRatings(db.reviews, bookId)| == 0 ==> a == 0.0
    ensures |ApprovedRatings(db.reviews, bookId)| > 0
      ==> a * (|ApprovedRatings(db.reviews, bookId)| as real) == Seqs.Sum(ApprovedRatings(db.reviews, bookId))
  {
    var ratings := ApprovedRatings(db.reviews, bookId);
    if |ratings| == 0 then 0.0 else Seqs.Sum(ratings) / (|ratings| as real)
  }

  /**
   * `createReview`: an unknown book or user throws; otherwise a review with
   * the given rating and comment, written now and NOT approved, is added.
   */
  function Create(db: Db, bookId: int, username: string, rating: int, comment: string, now: Timestamp, newId: int)
    : (r: (Db, Reply<ReviewDto>))
    ensures BookIndex(db.books, bookId) < 0 ==> r == (db, Thrown("Book not found"))
    ensures BookIndex(db.books, bookId) >= 0 && UserNamed(db.users, username).None? ==> r == (db, Thrown("User not found"))
    ensures r.1.Success? <==> BookIndex(db.books, bookId) >= 0 && UserNamed(db.users, username).Some?
    ensures r.1.Success? ==> |r.0.reviews| == |db.reviews| + 1
    ensures r.1.Success? ==> r.0.reviews[..|db.reviews|] == db.reviews && r.0 == db.(reviews := r.0.reviews)
    ensures r.1.Success? ==> var x := r.0.reviews[|db.reviews|];
      x.id == newId && x.book == db.books[BookIndex(db.books, bookId)] && Some(x.user) == UserNamed(db.users, username)
      && x.rating == rating && x.comment == comment && x.createdAt == now && !x.approved
      && r.1.body == ToDto(x)
  {
    var i := BookIndex(db.books, bookId);
    if i < 0 then (db, Thrown("Book not found"))
    else
      match UserNamed(db.users, username)
      case None => (db, Thrown("User not found"))
      case Some(u) =>
        var x := Review(newId, db.books[i], u, rating, comment, now, false);
        (db.(reviews := db.reviews + [x]), Success(ToDto(x)))
  }

  /** `approveReview`: an unknown review throws; otherwise its flag is set and nothing else changes. */
  function Approve(db: Db, reviewId: int): (r: (Db, Reply<ReviewDto>))
    ensures ReviewIndex(db.reviews, reviewId) < 0 ==> r == (db, Thrown("Review not found"))
    ensures ReviewIndex(db.reviews, reviewId) >= 0 ==> var i := ReviewIndex(db.reviews, reviewId);
      |r.0.reviews| == |db.reviews| && r.0 == db.(reviews := r.0.reviews)
      && r.0.reviews[i] == db.reviews[i].(approved := true)
      && (forall j :: 0 <= j < |db.reviews| && j != i ==> r.0.reviews[j] == db.reviews[j])
      && r.1 == Success(ToDto(r.0.reviews[i]))
  {
    var i := ReviewIndex(db.reviews, reviewId);
    if i < 0 then (db, Thrown("Review not found"))
    else
      var x := db.reviews[i].(approved := true);
      (db.(reviews := db.reviews[i := x]), Success(ToDto(x)))
  }

  /** `deleteReview`: 404 for an unknown id, leaving the table alone; otherwise exactly that row goes. */
  function Delete(db: Db, reviewId: int): (r: (Db, Reply<()>))
    ensures ReviewIndex(db.reviews, reviewId) < 0 ==> r == (db, NotFound)
    ensures ReviewIndex(db.reviews, reviewId) >= 0 ==> var i := ReviewIndex(db.reviews, reviewId);
      r.1 == Success(()) && r.0 == db.(reviews := r.0.reviews)
      && multiset(r.0.reviews) + multiset{db.reviews[i]} == multiset(db.reviews)
      && r.0.reviews == db.reviews[..i] + db.reviews[i + 1..]
  {
    var i := ReviewIndex(db.reviews, reviewId);
    if i < 0 then (db, NotFound)
    else
      assert db.reviews == db.reviews[..i] + [db.reviews[i]] + db.reviews[i + 1..];
      (db.(reviews := db.reviews[..i] + db.reviews[i + 1..]), Success(()))
  }

  /** Approving twice leaves the same tables as approving once. */
  lemma ApproveIsIdempotent(db: Db, reviewId: int)
    ensures Approve(Approve(db, reviewId).0, reviewId).0 == Approve(db, reviewId).0
  {
    var once := Approve(db, reviewId).0;
    var i := ReviewIndex(db.reviews, reviewId);
    if i >= 0 {
      ReviewIndexSameIds(once.reviews, db.reviews, reviewId);
      assert once.reviews[i := once.reviews[i].(approved := true)] == once.reviews;
    }
  }

  lemma {:induction false} ReviewIndexSameIds(a: seq<Review>, b: seq<Review>, id: int)
    requires |a| == |b| && forall j :: 0 <= j < |a| ==> a[j].id == b[j].id
    ensures ReviewIndex(a, id) == ReviewIndex(b, id)
    decreases |a|
  {
    if |a| > 0 && a[0].id != id {
      ReviewIndexSameIds(a[1..], b[1..], id);
    }
  }

  /**
   * A new review waits: it is listed as pending, it is not among the book's
   * reviews, and no book's average rating moves until it is approved.
   */
  lemma NewReviewWaitsForApproval(db: Db, bookId: int, username: string, rating: int, comment: string,
                                  now: Timestamp, newId: int, anyBook: int)
    requires Create(db, bookId, username, rating, comment, now, newId).1.Success?
    ensures var (after, reply) := Create(db, bookId, username, rating, comment, now, newId);
      reply.body in Pending(after) && reply.body !in BookReviews(after, bookId)
      && AverageRating(after, anyBook) == AverageRating(db, anyBook)
  {
    var after := Create(db, bookId, username, rating, comment, now, newId).0;
    var x := after.reviews[|db.reviews|];
    assert after.reviews == db.reviews + [x];
    assert x in after.reviews;
    var p := (y: Review) => y.book.id == anyBook && y.approved;
    Seqs.FilterAppend(db.reviews, [x], p);
    assert Seqs.Filter([x], p) == [] by {
      assert [x][..0] == [];
    }
    assert Seqs.Filter(after.reviews, p) == Seqs.Filter(db.reviews, p);
  }

  /** After approval the review is among its book's reviews and no longer pending. */
  lemma ApprovedReviewIsListed(db: Db, reviewId: int)
    requires ReviewIndex(db.reviews, reviewId) >= 0
    ensures var (after, reply) := Approve(db, reviewId);
      reply.body in BookReviews(after, reply.body.bookId) && reply.body !in Pending(after)
  {
    var i := ReviewIndex(db.reviews, reviewId);
    var after := Approve(db, reviewId).0;
    assert after.reviews[i] in after.reviews;
  }

  /** Deleting a missing review, however often, changes nothing. */
  lemma DeleteMissingChangesNothing(db: Db, reviewId: int)
    requires ReviewIndex(db.reviews, reviewId) < 0
    ensures Delete(Delete(db, reviewId).0, reviewId) == (db, NotFound)
  {
  }
}
