/**
 * The lending endpoints of the server: borrowing a book for fourteen days,
 * returning it, and the current and overdue listings. The clock is the
 * parameter `now`, the signed-in user is named by `username`, and the id the
 * database issues to a new row is the parameter `newId`.
 */
module LendingController {
  import opened Wrappers
  import opened Library
  import Seqs
  import Calendar

  /** The lending period in days. */
  const LoanDays: int := 14

  datatype LendingDto = LendingDto(
    id: int,
    bookId: int,
    userId: int,
    borrowDate: Timestamp,
    dueDate: Timestamp,
    returnDate: Option<Timestamp>,
    status: string)

  /** `convertToDTO`: the referenced book and user shrink to their ids. */
  function ToDto(l: Lending): (d: LendingDto)
    ensures d.id == l.id && d.bookId == l.book.id && d.userId == l.user.id
    ensures d.borrowDate == l.borrowDate && d.dueDate == l.dueDate && d.returnDate == l.returnDate
    ensures d.status == l.status
  {
    LendingDto(l.id, l.book.id, l.user.id, l.borrowDate, l.dueDate, l.returnDate, l.status)
  }

  /** `stream().map(this::convertToDTO)`. */
  function ToDtos(s: seq<Lending>): (r: seq<LendingDto>)
    ensures |r| == |s| && forall i :: 0 <= i < |s| ==> r[i] == ToDto(s[i])
  {
    seq(|s|, i requires 0 <= i < |s| => ToDto(s[i]))
  }

  /** Two lendings give the same DTO exactly when they differ in nothing but the referenced rows, and those have the same ids. */
  lemma DtoLosesOnlyReferences(a: Lending, b: Lending)
    ensures ToDto(a) == ToDto(b)
      <==> a.book.id == b.book.id && a.user.id == b.user.id && a == b.(book := a.book, user := a.user)
  {
  }

  /** The lending a successful borrow saves. */
  function NewLending(id: int, book: Book, user: User, now: Timestamp): (l: Lending)
    ensures Unreturned(l) && l.status == Borrowed
    ensures l.dueDate - l.borrowDate == LoanDays * Calendar.SecondsPerDay
  {
    Lending(id, book, user, now, Calendar.PlusDays(now, LoanDays), None, Borrowed)
  }

  /** The book table with the copies of row i moved by delta and nothing else changed. */
  function MoveCopies(books: seq<Book>, i: nat, delta: int): (r: seq<Book>)
    requires i < |books|
    ensures |r| == |books| && r[i].availableCopies == books[i].availableCopies + delta
    ensures r[i] == books[i].(availableCopies := r[i].availableCopies)
    ensures forall j :: 0 <= j < |books| && j != i ==> r[j] == books[j]
  {
    books[i := books[i].(availableCopies := books[i].availableCopies + delta)]
  }

  /**
   * `borrowBook`: an unknown book throws; a book without copies is refused
   * with a 400; an unknown user throws; otherwise a BORROWED lending due
   * fourteen days from now is saved and the book loses one copy. Every
   * failure leaves the tables as they were.
   */
  function Borrow(db: Db, bookId: int, username: string, now: Timestamp, newId: int): (r: (Db, Reply<LendingDto>))
    ensures BookIndex(db.books, bookId) < 0 ==> r == (db, Thrown("Book not found"))
    ensures var i := BookIndex(db.books, bookId);
      i >= 0 && db.books[i].availableCopies <= 0 ==> r == (db, BadRequest("No copies available"))
    ensures var i := BookIndex(db.books, bookId);
      i >= 0 && db.books[i].availableCopies > 0 && UserNamed(db.users, username).None?
      ==> r == (db, Thrown("User not found"))
    ensures r.1.Success? <==> (var i := BookIndex(db.books, bookId);
      i >= 0 && db.books[i].availableCopies > 0 && UserNamed(db.users, username).Some?)
    ensures r.1.Success? ==> var i := BookIndex(db.books, bookId);
      r.0 == db.(books := MoveCopies(db.books, i, -1),
                 lendings := db.lendings + [NewLending(newId, db.books[i], UserNamed(db.users, username).value, now)])
    ensures r.1.Success? ==> r.1.body == ToDto(r.0.lendings[|db.lendings|])
  {
    var i := BookIndex(db.books, bookId);
    if i < 0 then (db, Thrown("Book not found"))
    else if db.books[i].availableCopies <= 0 then (db, BadRequest("No copies available"))
    else
      match UserNamed(db.users, username)
      case None => (db, Thrown("User not found"))
      case Some(user) =>
        var lending := NewLending(newId, db.books[i], user, now);
        (db.(books := MoveCopies(db.books, i, -1), lendings := db.lendings + [lending]), Success(ToDto(lending)))
  }

  /**
   * `returnBook`: an unknown lending throws; a lending with a return date is
   * refused with a 400; otherwise it gets today's return date and the status
   * RETURNED, and its book gains one copy.
   */
  function Return(db: Db, lendingId: int, now: Timestamp): (r: (Db, Reply<LendingDto>))
    ensures LendingIndex(db.lendings, lendingId) < 0 ==> r == (db, Thrown("Lending record not found"))
    ensures var i := LendingIndex(db.lendings, lendingId);
      i >= 0 && !Unreturned(db.lendings[i]) ==> r == (db, BadRequest("Book already returned"))
    ensures r.1.Success? <==> (var i := LendingIndex(db.lendings, lendingId); i >= 0 && Unreturned(db.lendings[i]))
    ensures r.1.Success? ==> var i := LendingIndex(db.lendings, lendingId);
      var back := db.lendings[i].(returnDate := Some(now), status := Returned);
      var j := BookIndex(db.books, db.lendings[i].book.id);
      r.0 == db.(lendings := db.lendings[i := back],
                 books := if j < 0 then db.books else MoveCopies(db.books, j, 1))
      && r.1.body == ToDto(back)
  {
    var i := LendingIndex(db.lendings, lendingId);
    if i < 0 then (db, Thrown("Lending record not found"))
    else if !Unreturned(db.lendings[i]) then (db, BadRequest("Book already returned"))
    else
      var back := db.lendings[i].(returnDate := Some(now), status := Returned);
      var j := BookIndex(db.books, db.lendings[i].book.id);
      var books := if j < 0 then db.books else MoveCopies(db.books, j, 1);
      (db.(lendings := db.lendings[i := back], books := books), Success(ToDto(back)))
  }

  /** `getMyLendings`: the signed-in user's lendings without a return date (an unknown user throws). */
  function MyLendings(db: Db, username: string): (r: Reply<seq<LendingDto>>)
    ensures UserNamed(db.users, username).None? <==> r == Thrown("User not found")
    ensures r.Success? ==> var u := UserNamed(db.users, username).value;
      forall l :: l in db.lendings ==> (ToDto(l) in r.body <== l.user.id == u.id && Unreturned(l))
    ensures r.Success? ==> var u := UserNamed(db.users, username).value;
      forall d :: d in r.body ==> d.userId == u.id && d.returnDate.None?
    ensures r.Success? ==> var u := UserNamed(db.users, username).value;
      forall d :: d in r.body ==> exists l :: l in db.lendings && l.user.id == u.id && Unreturned(l) && d == ToDto(l)
  {
    match UserNamed(db.users, username)
    case None => Thrown("User not found")
    case Some(u) =>
      var mine := Seqs.Filter(db.lendings, (l: Lending) => l.user.id == u.id && Unreturned(l));
      forall l | l in db.lendings && l.user.id == u.id && Unreturned(l)
        ensures ToDto(l) in ToDtos(mine)
      {
        Seqs.FilterKeeps(db.lendings, (l: Lending) => l.user.id == u.id && Unreturned(l), l);
        var k :| 0 <= k < |mine| && mine[k] == l;
        assert ToDtos(mine)[k] == ToDto(l);
      }
      forall d | d in ToDtos(mine)
        ensures d.userId == u.id && d.returnDate.None?
        ensures exists l :: l in db.lendings && l.user.id == u.id && Unreturned(l) && d == ToDto(l)
      {
        var k :| 0 <= k < |mine| && ToDtos(mine)[k] == d;
        assert mine[k] in mine;
        assert mine[k] in db.lendings && mine[k].user.id == u.id && Unreturned(mine[k]);
      }
      Success(ToDtos(mine))
  }

  /** `getOverdueBooks`: the DTOs of exactly the unreturned lendings due before now. */
  function OverdueLendings(db: Db, now: Timestamp): (r: seq<LendingDto>)
    ensures forall l :: l in db.lendings && Overdue(l, now) ==> ToDto(l) in r
    ensures forall d :: d in r ==> d.returnDate.None? && d.dueDate < now
    ensures forall d :: d in r ==> exists l :: l in db.lendings && Overdue(l, now) && d == ToDto(l)
  {
    var late := Seqs.Filter(db.lendings, (l: Lending) => Overdue(l, now));
    forall l | l in db.lendings && Overdue(l, now)
      ensures ToDto(l) in ToDtos(late)
    {
      Seqs.FilterKeeps(db.lendings, (l: Lending) => Overdue(l, now), l);
      var k :| 0 <= k < |late| && late[k] == l;
      assert ToDtos(late)[k] == ToDto(l);
    }
    forall d | d in ToDtos(late)
      ensures d.returnDate.None? && d.dueDate < now
      ensures exists l :: l in db.lendings && Overdue(l, now) && d == ToDto(l)
    {
      var k :| 0 <= k < |late| && ToDtos(late)[k] == d;
      assert late[k] in late;
      assert late[k] in db.lendings && Overdue(late[k], now);
    }
    ToDtos(late)
  }

  // ---------------------------------------------------------------------
  // The stock of a book
  // ---------------------------------------------------------------------

  /** The lending holds a copy of the book with this id. */
  predicate OnLoan(l: Lending, bookId: int)
  {
    Unreturned(l) && l.book.id == bookId
  }

  /** The copies of the book on the shelf plus the copies out on unreturned lendings. */
  function Stock(db: Db, bookId: int): int
    requires BookIndex(db.books, bookId) >= 0
  {
    db.books[BookIndex(db.books, bookId)].availableCopies
      + Seqs.Count(db.lendings, (l: Lending) => OnLoan(l, bookId))
  }

  /** Changing copies leaves every id where it was, so every lookup by id finds the same row. */
  lemma {:induction false} SameIdsSameIndex(a: seq<Book>, b: seq<Book>, id: int)
    requires |a| == |b| && forall j :: 0 <= j < |a| ==> a[j].id == b[j].id
    ensures BookIndex(a, id) == BookIndex(b, id)
    decreases |a|
  {
    if |a| > 0 && a[0].id != id {
      SameIdsSameIndex(a[1..], b[1..], id);
    }
  }

  /** A successful borrow moves one copy of the book from the shelf to the new lending: no book's stock changes. */
  lemma BorrowKeepsStock(db: Db, bookId: int, username: string, now: Timestamp, newId: int, id: int)
    requires Borrow(db, bookId, username, now, newId).1.Success?
    requires BookIndex(db.books, id) >= 0
    ensures var after := Borrow(db, bookId, username, now, newId).0;
      BookIndex(after.books, id) >= 0 && Stock(after, id) == Stock(db, id)
  {
    var after := Borrow(db, bookId, username, now, newId).0;
    var i := BookIndex(db.books, bookId);
    var lending := after.lendings[|db.lendings|];
    SameIdsSameIndex(after.books, db.books, id);
    var onLoan := (l: Lending) => OnLoan(l, id);
    assert after.lendings == db.lendings + [lending];
    Seqs.CountAppend(db.lendings, [lending], onLoan);
    assert Seqs.Count([lending], onLoan) == (if onLoan(lending) then 1 else 0) by {
      assert [lending][..0] == [];
    }
    assert lending.book == db.books[i];
  }

  /** A successful return moves one copy from the lending back to the shelf: no book's stock changes. */
  lemma ReturnKeepsStock(db: Db, lendingId: int, now: Timestamp, id: int)
    requires Return(db, lendingId, now).1.Success?
    requires BookIndex(db.books, id) >= 0
    ensures var after := Return(db, lendingId, now).0;
      BookIndex(after.books, id) >= 0 && Stock(after, id) == Stock(db, id)
  {
    var after := Return(db, lendingId, now).0;
    var i := LendingIndex(db.lendings, lendingId);
    var l := db.lendings[i];
    var j := BookIndex(db.books, l.book.id);
    SameIdsSameIndex(after.books, db.books, id);
    var onLoan := (x: Lending) => OnLoan(x, id);
    Seqs.CountUpdate(db.lendings, i, after.lendings[i], onLoan);
    if l.book.id == id {
      assert j == BookIndex(db.books, id);
    } else if j >= 0 {
      assert j != BookIndex(db.books, id);
    }
  }

  /** Once a lending is returned, returning it again is refused and changes nothing. */
  lemma SecondReturnFails(db: Db, lendingId: int, now: Timestamp, later: Timestamp)
    requires Return(db, lendingId, now).1.Success?
    ensures var after := Return(db, lendingId, now).0;
      Return(after, lendingId, later) == (after, BadRequest("Book already returned"))
  {
    var after := Return(db, lendingId, now).0;
    var i := LendingIndex(db.lendings, lendingId);
    assert forall j :: 0 <= j < |db.lendings| ==> after.lendings[j].id == db.lendings[j].id;
    LendingIndexSameIds(after.lendings, db.lendings, lendingId);
  }

  lemma {:induction false} LendingIndexSameIds(a: seq<Lending>, b: seq<Lending>, id: int)
    requires |a| == |b| && forall j :: 0 <= j < |a| ==> a[j].id == b[j].id
    ensures LendingIndex(a, id) == LendingIndex(b, id)
    decreases |a|
  {
    if |a| > 0 && a[0].id != id {
      LendingIndexSameIds(a[1..], b[1..], id);
    }
  }

  /** A refused borrow (no copies) leaves the stock of every book as it was, and borrowing again is refused again. */
  lemma RefusedBorrowChangesNothing(db: Db, bookId: int, username: string, now: Timestamp, newId: int)
    requires var i := BookIndex(db.books, bookId); i >= 0 && db.books[i].availableCopies <= 0
    ensures Borrow(db, bookId, username, now, newId).0 == db
    ensures Borrow(Borrow(db, bookId, username, now, newId).0, bookId, username, now, newId).1
      == BadRequest("No copies available")
  {
  }

  /** The new lending appears among the borrower's current lendings, and becomes overdue exactly when fourteen days have passed. */
  lemma BorrowedBookIsListed(db: Db, bookId: int, username: string, now: Timestamp, newId: int, t: Timestamp)
    requires Borrow(db, bookId, username, now, newId).1.Success?
    ensures var (after, reply) := Borrow(db, bookId, username, now, newId);
      MyLendings(after, username).Success? && reply.body in MyLendings(after, username).body
    ensures var (after, reply) := Borrow(db, bookId, username, now, newId);
      reply.body in OverdueLendings(after, t) <==> t > now + LoanDays * Calendar.SecondsPerDay
  {
    var (after, reply) := Borrow(db, bookId, username, now, newId);
    var l := after.lendings[|db.lendings|];
    assert l in after.lendings;
    assert after.users == db.users;
  }
}
