/**
 * The server's entities as the controllers and services read them, the
 * tables they live in, and the replies a controller sends.
 *
 * A repository is a sequence in `findAll` order whose rows have distinct
 * ids; `findById` is the position of the row with that id. A lending or a
 * review refers to its book and its user; the reference is kept as the
 * whole row, and only its id is used to find the current row in a table.
 */
module Library {
  import opened Wrappers
  import Calendar
  import Seqs

  type Timestamp = Calendar.Timestamp

  datatype Author = Author(id: int, name: string)

  datatype Book = Book(
    id: int,
    title: string,
    isbn: string,
    summary: string,
    publicationDate: Option<Timestamp>,
    genre: string,
    coverImageUrl: string,
    totalCopies: int,
    availableCopies: int,
    authors: set<Author>)

  datatype User = User(id: int, username: string, email: string)

  /** `BookLending`: `returnDate` is `null` (`None`) until the book comes back. */
  datatype Lending = Lending(
    id: int,
    book: Book,
    user: User,
    borrowDate: Timestamp,
    dueDate: Timestamp,
    returnDate: Option<Timestamp>,
    status: string)

  datatype Review = Review(
    id: int,
    book: Book,
    user: User,
    rating: int,
    comment: string,
    createdAt: Timestamp,
    approved: bool)

  /** The tables the controllers read and write. */
  datatype Db = Db(
    books: seq<Book>,
    authors: seq<Author>,
    users: seq<User>,
    lendings: seq<Lending>,
    reviews: seq<Review>)

  /**
   * A controller's answer: a 200 with a body, a 400 with a message, a 404
   * without a body, or an uncaught `RuntimeException` with its message (the
   * request fails and nothing it changed is kept).
   */
  datatype Reply<T> = Success(body: T) | BadRequest(message: string) | NotFound | Thrown(message: string)

  const Borrowed: string := "BORROWED"
  const Returned: string := "RETURNED"

  /** The lending has no return date yet. */
  predicate Unreturned(l: Lending)
  {
    l.returnDate.None?
  }

  /** The overdue query: not returned and due strictly before `now`. */
  predicate Overdue(l: Lending, now: Timestamp)
  {
    l.returnDate.None? && l.dueDate < now
  }

  /** No two books share an id, as the primary key guarantees. */
  predicate UniqueBookIds(books: seq<Book>)
  {
    forall i, j :: 0 <= i < j < |books| ==> books[i].id != books[j].id
  }

  /** Distinct ids make distinct rows. */
  lemma UniqueBooks(books: seq<Book>)
    requires UniqueBookIds(books)
    ensures Seqs.NoDuplicates(books)
  {
  }

  /** Position of the book with this id, or -1 (`findById`). */
  function BookIndex(books: seq<Book>, id: int): (i: int)
    ensures -1 <= i < |books|
    ensures i >= 0 ==> books[i].id == id && forall j :: 0 <= j < i ==> books[j].id != id
    ensures i == -1 <==> forall j :: 0 <= j < |books| ==> books[j].id != id
  {
    if |books| == 0 then -1
    else if books[0].id == id then 0
    else
      var i := BookIndex(books[1..], id);
      if i < 0 then -1 else i + 1
  }

  /** Position of the lending with this id, or -1. */
  function LendingIndex(lendings: seq<Lending>, id: int): (i: int)
    ensures -1 <= i < |lendings|
    ensures i >= 0 ==> lendings[i].id == id && forall j :: 0 <= j < i ==> lendings[j].id != id
    ensures i == -1 <==> forall j :: 0 <= j < |lendings| ==> lendings[j].id != id
  {
    if |lendings| == 0 then -1
    else if lendings[0].id == id then 0
    else
      var i := LendingIndex(lendings[1..], id);
      if i < 0 then -1 else i + 1
  }

  /** Position of the review with this id, or -1. */
  function ReviewIndex(reviews: seq<Review>, id: int): (i: int)
    ensures -1 <= i < |reviews|
    ensures i >= 0 ==> reviews[i].id == id && forall j :: 0 <= j < i ==> reviews[j].id != id
    ensures i == -1 <==> forall j :: 0 <= j < |reviews| ==> reviews[j].id != id
  {
    if |reviews| == 0 then -1
    else if reviews[0].id == id then 0
    else
      var i := ReviewIndex(reviews[1..], id);
      if i < 0 then -1 else i + 1
  }

  /** Position of the author with this id, or -1. */
  function AuthorIndex(authors: seq<Author>, id: int): (i: int)
    ensures -1 <= i < |authors|
    ensures i >= 0 ==> authors[i].id == id
    ensures i == -1 <==> forall j :: 0 <= j < |authors| ==> authors[j].id != id
  {
    if |authors| == 0 then -1
    else if authors[0].id == id then 0
    else
      var i := AuthorIndex(authors[1..], id);
      if i < 0 then -1 else i + 1
  }

  /** `userRepository.findByUsername`: the first user with that name. */
  function UserNamed(users: seq<User>, name: string): (r: Option<User>)
    ensures r.Some? ==> r.value in users && r.value.username == name
    ensures r.None? <==> forall j :: 0 <= j < |users| ==> users[j].username != name
  {
    if |users| == 0 then None
    else if users[0].username == name then Some(users[0])
    else UserNamed(users[1..], name)
  }

  /** `findByBookId`: the lendings of one book, in table order. */
  function LendingsOf(all: seq<Lending>, bookId: int): (r: seq<Lending>)
    ensures forall l :: l in r <==> l in all && l.book.id == bookId
    ensures |r| == Seqs.Count(all, (l: Lending) => l.book.id == bookId)
  {
    var p := (l: Lending) => l.book.id == bookId;
    forall l | l in all && p(l)
      ensures l in Seqs.Filter(all, p)
    {
      Seqs.FilterKeeps(all, p, l);
    }
    Seqs.Filter(all, p)
  }

  /** The lendings borrowed strictly after `since` (`isAfter`). */
  function CountAfter(lendings: seq<Lending>, since: Timestamp): (n: nat)
    ensures n <= |lendings|
  {
    Seqs.Count(lendings, (l: Lending) => l.borrowDate > since)
  }

  /** `findByUserId`: the lendings of one user, in table order. */
  function LendingsByUser(all: seq<Lending>, userId: int): (r: seq<Lending>)
    ensures forall l :: l in r <==> l in all && l.user.id == userId
    ensures |r| == Seqs.Count(all, (l: Lending) => l.user.id == userId)
  {
    var p := (l: Lending) => l.user.id == userId;
    forall l | l in all && p(l)
      ensures l in Seqs.Filter(all, p)
    {
      Seqs.FilterKeeps(all, p, l);
    }
    Seqs.Filter(all, p)
  }

  /** `reviewRepository.findByUserId`: every review the user wrote, approved or not (a derived query the repository does not declare). */
  function ReviewsByUser(reviews: seq<Review>, userId: int): (r: seq<Review>)
    ensures forall x :: x in r ==> x in reviews && x.user.id == userId
    ensures |r| == Seqs.Count(reviews, (x: Review) => x.user.id == userId)
  {
    Seqs.Filter(reviews, (x: Review) => x.user.id == userId)
  }
}
