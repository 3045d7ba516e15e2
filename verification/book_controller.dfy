/**
 * The book endpoints of the server: lookups, the search whose first given
 * parameter wins, and the conversions between the book row and its DTO
 * (authors travel as a set of ids and are looked up again on the way in).
 */
module BookController {
  import opened Wrappers
  import opened Library
  import opened JsValues
  import Seqs

  datatype BookDto = BookDto(
    id: Option<int>,
    title: string,
    isbn: string,
    summary: string,
    publicationDate: Option<Timestamp>,
    genre: string,
    coverImageUrl: string,
    totalCopies: int,
    availableCopies: int,
    authorIds: Option<set<int>>)

  /** The ids of a set of authors. */
  function IdsOf(authors: set<Author>): (ids: set<int>)
    ensures forall a :: a in authors ==> a.id in ids
    ensures forall id :: id in ids ==> exists a :: a in authors && a.id == id
  {
    set a | a in authors :: a.id
  }

  /** `convertToDTO`: every column is copied and the authors become their ids. */
  function ToDto(b: Book): (d: BookDto)
    ensures d.id == Some(b.id) && d.authorIds == Some(IdsOf(b.authors))
    ensures d.title == b.title && d.isbn == b.isbn && d.summary == b.summary && d.publicationDate == b.publicationDate
    ensures d.genre == b.genre && d.coverImageUrl == b.coverImageUrl
    ensures d.totalCopies == b.totalCopies && d.availableCopies == b.availableCopies
  {
    BookDto(Some(b.id), b.title, b.isbn, b.summary, b.publicationDate, b.genre, b.coverImageUrl,
            b.totalCopies, b.availableCopies, Some(IdsOf(b.authors)))
  }

  function ToDtos(s: seq<Book>): (r: seq<BookDto>)
    ensures |r| == |s| && forall i :: 0 <= i < |s| ==> r[i] == ToDto(s[i])
  {
    seq(|s|, i requires 0 <= i < |s| => ToDto(s[i]))
  }

  /** The id has an author row. */
  predicate Known(authors: seq<Author>, id: int)
  {
    AuthorIndex(authors, id) >= 0
  }

  /** The author row an id resolves to. */
  function Resolve(authors: seq<Author>, id: int): (a: Author)
    requires Known(authors, id)
    ensures a in authors && a.id == id
  {
    authors[AuthorIndex(authors, id)]
  }

  /**
   * `convertToEntity` with the row id the caller gives: every column is
   * copied; the author ids are resolved, and an unknown one throws (the
   * error carries the ids that have no row); without author ids the book has
   * no authors.
   */
  function ToEntity(d: BookDto, id: int, authors: seq<Author>): (r: Result<Book, set<int>>)
    ensures r.Err? <==> d.authorIds.Some? && exists x :: x in d.authorIds.value && !Known(authors, x)
    ensures r.Err? ==> r.error != {} && forall x :: x in r.error <==> x in d.authorIds.value && !Known(authors, x)
    ensures r.Ok? ==> r.value.id == id && IdsOf(r.value.authors) == d.authorIds.GetOr({})
    ensures r.Ok? ==> forall a :: a in r.value.authors ==> a in authors
    ensures r.Ok? ==> ToDto(r.value) == d.(id := Some(id), authorIds := Some(d.authorIds.GetOr({})))
  {
    var scalars := Book(id, d.title, d.isbn, d.summary, d.publicationDate, d.genre, d.coverImageUrl,
                        d.totalCopies, d.availableCopies, {});
    match d.authorIds
    case None => Ok(scalars)
    case Some(ids) =>
      if exists x :: x in ids && !Known(authors, x) then
        var missing := set x | x in ids && !Known(authors, x);
        assert missing != {} by {
          var x :| x in ids && !Known(authors, x);
          assert x in missing;
        }
        Err(missing)
      else
        var resolved := set x | x in ids :: Resolve(authors, x);
        assert IdsOf(resolved) == ids by {
          forall x | x in ids
            ensures x in IdsOf(resolved)
          {
            assert Resolve(authors, x) in resolved;
          }
        }
        Ok(scalars.(authors := resolved))
  }

  /** A book whose authors are the rows their ids resolve to survives the trip to its DTO and back unchanged. */
  lemma EntityRoundTrip(b: Book, authors: seq<Author>)
    requires forall a :: a in b.authors ==> Known(authors, a.id) && Resolve(authors, a.id) == a
    ensures ToEntity(ToDto(b), b.id, authors) == Ok(b)
  {
    var d := ToDto(b);
    var ids := IdsOf(b.authors);
    forall x | x in ids
      ensures Known(authors, x)
    {
      var a :| a in b.authors && a.id == x;
    }
    var resolved := set x | x in ids :: Resolve(authors, x);
    assert resolved == b.authors by {
      forall a | a in b.authors
        ensures a in resolved
      {
        assert a == Resolve(authors, a.id);
      }
      forall a | a in resolved
        ensures a in b.authors
      {
        var x :| x in ids && a == Resolve(authors, x);
        var c :| c in b.authors && c.id == x;
      }
    }
  }

  /** A DTO whose author ids all resolve comes back unchanged from the row it makes, apart from the id the row gets. */
  lemma DtoRoundTrip(d: BookDto, id: int, authors: seq<Author>)
    requires d.authorIds.Some? && forall x :: x in d.authorIds.value ==> Known(authors, x)
    ensures ToEntity(d, id, authors).Ok? && ToDto(ToEntity(d, id, authors).value) == d.(id := Some(id))
  {
  }

  /** `getBookById`: the book's DTO, or 404. */
  function GetById(db: Db, id: int): (r: Reply<BookDto>)
    ensures r.NotFound? <==> BookIndex(db.books, id) < 0
    ensures r.Success? ==> r.body == ToDto(db.books[BookIndex(db.books, id)]) && r.body.id == Some(id)
    ensures r.NotFound? || r.Success?
  {
    var i := BookIndex(db.books, id);
    if i < 0 then NotFound else Success(ToDto(db.books[i]))
  }

  /**
   * `createBook`: the DTO becomes a row (an unknown author id throws). JPA's
   * `save` merges a DTO id that names an existing row into that row, and
   * otherwise stores a new row under the id the database issues.
   */
  function Create(db: Db, d: BookDto, newId: int): (r: (Db, Reply<BookDto>))
    ensures ToEntity(d, newId, db.authors).Err? ==> r == (db, Thrown("Author not found"))
    ensures r.1.Success? <==> ToEntity(d, newId, db.authors).Ok?
    ensures r.1.Success? ==> r.0 == db.(books := r.0.books)
    ensures r.1.Success? && (d.id.None? || BookIndex(db.books, d.id.value) < 0)
      ==> r.0.books == db.books + [ToEntity(d, newId, db.authors).value] && r.1.body.id == Some(newId)
    ensures r.1.Success? && d.id.Some? && BookIndex(db.books, d.id.value) >= 0
      ==> r.0.books == db.books[BookIndex(db.books, d.id.value) := ToEntity(d, d.id.value, db.authors).value]
          && r.1.body.id == d.id
  {
    var existing := if d.id.Some? then BookIndex(db.books, d.id.value) else -1;
    if existing >= 0 then
      match ToEntity(d, d.id.value, db.authors)
      case Err(_) => (db, Thrown("Author not found"))
      case Ok(b) => (db.(books := db.books[existing := b]), Success(ToDto(b)))
    else
      match ToEntity(d, newId, db.authors)
      case Err(_) => (db, Thrown("Author not found"))
      case Ok(b) => (db.(books := db.books + [b]), Success(ToDto(b)))
  }

  /**
   * `updateBook`: 404 for an unknown id; otherwise the DTO replaces the row
   * and keeps the path's id whatever id the DTO carries (an unknown author id
   * throws).
   */
  function Update(db: Db, id: int, d: BookDto): (r: (Db, Reply<BookDto>))
    ensures BookIndex(db.books, id) < 0 ==> r == (db, NotFound)
    ensures BookIndex(db.books, id) >= 0 && ToEntity(d, id, db.authors).Err? ==> r == (db, Thrown("Author not found"))
    ensures r.1.Success? <==> BookIndex(db.books, id) >= 0 && ToEntity(d, id, db.authors).Ok?
    ensures r.1.Success? ==> var i := BookIndex(db.books, id);
      r.0 == db.(books := db.books[i := ToEntity(d, id, db.authors).value])
      && r.1.body.id == Some(id) && r.1.body == ToDto(r.0.books[i])
  {
    var i := BookIndex(db.books, id);
    if i < 0 then (db, NotFound)
    else
      match ToEntity(d, id, db.authors)
      case Err(_) => (db, Thrown("Author not found"))
      case Ok(b) => (db.(books := db.books[i := b]), Success(ToDto(b)))
  }

  /** `deleteBook`: 404 for an unknown id; otherwise exactly that row goes. */
  function Delete(db: Db, id: int): (r: (Db, Reply<()>))
    ensures BookIndex(db.books, id) < 0 ==> r == (db, NotFound)
    ensures BookIndex(db.books, id) >= 0 ==> var i := BookIndex(db.books, id);
      r.1 == Success(()) && r.0 == db.(books := db.books[..i] + db.books[i + 1..])
  {
    var i := BookIndex(db.books, id);
    if i < 0 then (db, NotFound) else (db.(books := db.books[..i] + db.books[i + 1..]), Success(()))
  }

  /** After an update, reading the book back gives the updated DTO, under the path's id. */
  lemma UpdateThenGet(db: Db, id: int, d: BookDto)
    requires Update(db, id, d).1.Success?
    ensures GetById(Update(db, id, d).0, id) == Update(db, id, d).1
  {
    var after := Update(db, id, d).0;
    var i := BookIndex(db.books, id);
    assert forall j :: 0 <= j < i ==> after.books[j] == db.books[j];
    BookIndexPrefix(after.books, db.books, i, id);
  }

  /** Lookups agree on tables whose rows before position i are the same and whose row i has the id. */
  lemma {:induction false} BookIndexPrefix(a: seq<Book>, b: seq<Book>, i: nat, id: int)
    requires i < |a| && i < |b| && a[i].id == id && b[i].id == id
    requires forall j :: 0 <= j < i ==> a[j] == b[j]
    requires BookIndex(b, id) == i
    ensures BookIndex(a, id) == i
    decreases i
  {
    if i > 0 {
      BookIndexPrefix(a[1..], b[1..], i - 1, id);
    }
  }

  /** With distinct ids, a deleted book is gone: reading it gives 404 and deleting it again gives 404. */
  lemma DeleteThenNotFound(db: Db, id: int)
    requires UniqueBookIds(db.books) && BookIndex(db.books, id) >= 0
    ensures GetById(Delete(db, id).0, id) == NotFound
    ensures Delete(Delete(db, id).0, id).1 == NotFound
  {
    var i := BookIndex(db.books, id);
    var rest := Delete(db, id).0.books;
    forall j | 0 <= j < |rest|
      ensures rest[j].id != id
    {
      if j < i {
        assert rest[j] == db.books[j];
      } else {
        assert rest[j] == db.books[j + 1];
      }
    }
  }

  /** An unknown author id makes creating and updating throw, and the tables stay as they were. */
  lemma UnknownAuthorThrows(db: Db, id: int, d: BookDto, newId: int, x: int)
    requires d.authorIds.Some? && x in d.authorIds.value && !Known(db.authors, x)
    ensures Create(db, d, newId) == (db, Thrown("Author not found"))
    ensures Update(db, id, d).0 == db && !Update(db, id, d).1.Success?
  {
  }

  // ---------------------------------------------------------------------
  // Search
  // ---------------------------------------------------------------------

  /** A request parameter that is present and not empty. */
  predicate Given(p: Option<string>)
  {
    p.Some? && |p.value| > 0
  }

  /** `findByTitleContainingIgnoreCase`. */
  predicate TitleContains(b: Book, title: string)
  {
    Includes(Lower(b.title), Lower(title))
  }

  /** What Spring Data throws when a single-result query finds more than one row. */
  const NonUniqueResult := "IncorrectResultSizeDataAccessException"

  /** Two different rows carry the ISBN. */
  predicate SharedIsbn(books: seq<Book>, isbn: string)
  {
    exists i, j :: 0 <= i < j < |books| && books[i].isbn == isbn && books[j].isbn == isbn
  }

  /**
   * `Optional<Book> findByIsbn`: no book, the one book with that ISBN, or a
   * throw when two rows carry it.
   */
  function ByIsbn(books: seq<Book>, isbn: string): (r: Reply<Option<Book>>)
    ensures r.Success? || r == Thrown(NonUniqueResult)
    ensures r.Thrown? <==> SharedIsbn(books, isbn)
    ensures r == Success(None) <==> forall b :: b in books ==> b.isbn != isbn
    ensures r.Success? && r.body.Some? ==>
      r.body.value in books && forall b :: b in books && b.isbn == isbn ==> b == r.body.value
    decreases |books|
  {
    if |books| == 0 then Success(None)
    else
      var tail := books[1..];
      var rest := ByIsbn(tail, isbn);
      assert forall b :: b in books ==> b == books[0] || b in tail;
      assert SharedIsbn(tail, isbn) ==> SharedIsbn(books, isbn) by {
        if SharedIsbn(tail, isbn) {
          var i, j :| 0 <= i < j < |tail| && tail[i].isbn == isbn && tail[j].isbn == isbn;
          assert books[i + 1] == tail[i] && books[j + 1] == tail[j];
        }
      }
      assert SharedIsbn(books, isbn) && books[0].isbn != isbn ==> SharedIsbn(tail, isbn) by {
        if SharedIsbn(books, isbn) && books[0].isbn != isbn {
          var i, j :| 0 <= i < j < |books| && books[i].isbn == isbn && books[j].isbn == isbn;
          assert tail[i - 1] == books[i] && tail[j - 1] == books[j];
        }
      }
      if books[0].isbn != isbn then rest
      else if rest.Thrown? then rest
      else if rest.body.None? then
        Success(Some(books[0]))
      else
        var k :| 0 <= k < |tail| && tail[k] == rest.body.value;
        assert books[0].isbn == isbn && books[k + 1].isbn == isbn;
        Thrown(NonUniqueResult)
  }

  /** Searching by an ISBN that two rows carry throws instead of answering. */
  lemma SharedIsbnThrows(db: Db, isbn: string, i: nat, j: nat)
    requires |isbn| > 0 && i < j < |db.books|
    requires db.books[i].isbn == isbn && db.books[j].isbn == isbn
    ensures Search(db, None, None, Some(isbn)) == Thrown(NonUniqueResult)
  {
    assert SharedIsbn(db.books, isbn);
  }

  /** When one row alone carries the ISBN, the search answers with that book. */
  lemma UniqueIsbnFindsTheBook(db: Db, isbn: string, k: nat)
    requires |isbn| > 0 && k < |db.books| && db.books[k].isbn == isbn
    requires forall m :: 0 <= m < |db.books| && m != k ==> db.books[m].isbn != isbn
    ensures Search(db, None, None, Some(isbn)) == Success([ToDto(db.books[k])])
  {
    var books := db.books;
    var r := ByIsbn(books, isbn);
    assert books[k] in books;
    assert r == Success(Some(books[k]));
    assert SearchRows(books, None, None, Some(isbn)) == Success([books[k]]);
    assert ToDtos([books[k]]) == [ToDto(books[k])];
  }

  /** The rows `searchBooks` answers with, before conversion, or the throw of `findByIsbn`. */
  function SearchRows(books: seq<Book>, title: Option<string>, genre: Option<string>, isbn: Option<string>)
    : (r: Reply<seq<Book>>)
    ensures r.Success? || r == Thrown(NonUniqueResult)
    ensures Given(title) ==> r.Success? && forall b :: b in r.body <==> b in books && TitleContains(b, title.value)
    ensures !Given(title) && Given(genre) ==> r.Success? && forall b :: b in r.body <==> b in books && b.genre == genre.value
    ensures !Given(title) && !Given(genre) && Given(isbn) ==>
      (r.Thrown? <==> SharedIsbn(books, isbn.value))
      && (r.Success? ==>
            |r.body| <= 1
            && (|r.body| == 0 <==> forall b :: b in books ==> b.isbn != isbn.value)
            && forall b :: b in r.body ==> b in books && b.isbn == isbn.value)
    ensures !Given(title) && !Given(genre) && !Given(isbn) ==> r == Success(books)
  {
    if Given(title) then
      var p := (b: Book) => TitleContains(b, title.value);
      forall b | b in books && p(b)
        ensures b in Seqs.Filter(books, p)
      {
        Seqs.FilterKeeps(books, p, b);
      }
      Success(Seqs.Filter(books, p))
    else if Given(genre) then
      var p := (b: Book) => b.genre == genre.value;
      forall b | b in books && p(b)
        ensures b in Seqs.Filter(books, p)
      {
        Seqs.FilterKeeps(books, p, b);
      }
      Success(Seqs.Filter(books, p))
    else if Given(isbn) then
      match ByIsbn(books, isbn.value)
      case Success(None) => Success([])
      case Success(Some(b)) => Success([b])
      case _ => Thrown(NonUniqueResult)
    else Success(books)
  }

  /**
   * `searchBooks`: a non-empty title wins, then a non-empty genre, then a
   * non-empty ISBN (at most one result, and a throw when two books share
   * it); with none of them every book.
   */
  function Search(db: Db, title: Option<string>, genre: Option<string>, isbn: Option<string>): (r: Reply<seq<BookDto>>)
    ensures r.Thrown? <==> SearchRows(db.books, title, genre, isbn).Thrown?
    ensures r.Thrown? ==> r == Thrown(NonUniqueResult)
    ensures r.Success? ==> var rows := SearchRows(db.books, title, genre, isbn).body;
      |r.body| == |rows| && forall i :: 0 <= i < |rows| ==> r.body[i] == ToDto(rows[i])
  {
    match SearchRows(db.books, title, genre, isbn)
    case Success(rows) => Success(ToDtos(rows))
    case _ => Thrown(NonUniqueResult)
  }

  /** An empty parameter counts as absent: the search falls through to the next parameter. */
  lemma EmptyParameterIsIgnored(db: Db, genre: Option<string>, isbn: Option<string>)
    ensures Search(db, Some(""), genre, isbn) == Search(db, None, genre, isbn)
    ensures Search(db, None, Some(""), isbn) == Search(db, None, None, isbn)
  {
  }

  /** With a title given, the genre and ISBN parameters make no difference. */
  lemma TitleWins(db: Db, title: string, genre: Option<string>, isbn: Option<string>, genre': Option<string>, isbn': Option<string>)
    requires |title| > 0
    ensures Search(db, Some(title), genre, isbn) == Search(db, Some(title), genre', isbn')
  {
  }

  /** `getAvailableBooks`: the books with at least one copy on the shelf. */
  function Available(db: Db): (r: seq<BookDto>)
    ensures forall d :: d in r ==> d.availableCopies > 0
    ensures forall b :: b in db.books && b.availableCopies > 0 ==> ToDto(b) in r
    ensures forall d :: d in r ==> exists b :: b in db.books && b.availableCopies > 0 && d == ToDto(b)
  {
    var p := (b: Book) => b.availableCopies > 0;
    var kept := Seqs.Filter(db.books, p);
    forall b | b in db.books && p(b)
      ensures ToDto(b) in ToDtos(kept)
    {
      Seqs.FilterKeeps(db.books, p, b);
      var k :| 0 <= k < |kept| && kept[k] == b;
      assert ToDtos(kept)[k] == ToDto(b);
    }
    forall d | d in ToDtos(kept)
      ensures d.availableCopies > 0
      ensures exists b :: b in db.books && b.availableCopies > 0 && d == ToDto(b)
    {
      var k :| 0 <= k < |kept| && ToDtos(kept)[k] == d;
      assert kept[k] in kept;
      assert kept[k] in db.books && p(kept[k]);
    }
    ToDtos(kept)
  }
}
