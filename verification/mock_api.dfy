/**
 * The in-browser mock of the library's REST API: users, books, authors and
 * lendings held in memory, and the operations the pages call on them.  Every
 * record is a plain object; a rejected request carries an optional HTTP
 * status and a message.  The current time and the stored session token are
 * explicit.
 */
module MockApi {
  import opened Wrappers
  import opened JsValues
  import Seqs
  import Calendar

  type Object = map<string, Json>

  /** The claims the session token encodes. */
  datatype Claims = Claims(userId: Json, username: Json, role: Json)

  /** A rejected request: `error.response.status` (absent for the auth calls) and `error.response.data.message`. */
  datatype Failure = Failure(status: Option<int>, message: string)

  /** The mock's memory and the token in local storage (decoded). */
  datatype Store = Store(users: seq<Object>, books: seq<Object>, authors: seq<Object>,
                         lendings: seq<Object>, token: Option<Claims>)

  const NotFound := 404
  const BadRequest := 400
  const Unauthorized := 401

  function JInt(n: int): Json
  {
    Prim(Num(n as real))
  }

  function JStr(s: string): Json
  {
    Prim(Str(s))
  }

  /** `parseInt(id)` as a value: the number read, or NaN. */
  function IdValue(id: string): (r: Json)
    ensures ParseInt(id).Some? ==> r == JInt(ParseInt(id).value)
    ensures ParseInt(id).None? ==> r == Prim(NaN)
  {
    match ParseInt(id)
    case Some(n) => JInt(n)
    case None => Prim(NaN)
  }

  /** The id text "1" denotes the number 1. */
  lemma OneReadsAsOne()
    ensures IdValue("1") == JInt(1)
  {
    assert Calendar.IsDigits("1");
    ParseIntOfDigitText("1");
    assert Calendar.ParseDigits("1") == 1 by {
      assert "1"[..0] == "";
    }
  }

  /** Position of the first record whose `id` is `=== parseInt(id)`, or -1. */
  function IndexById(records: seq<Object>, id: string): (i: int)
    ensures -1 <= i < |records|
    ensures i == -1 <==> forall j :: 0 <= j < |records| ==> !StrictEq(Field(records[j], "id"), IdValue(id))
    ensures 0 <= i ==> StrictEq(Field(records[i], "id"), IdValue(id))
    ensures 0 <= i ==> forall j :: 0 <= j < i ==> !StrictEq(Field(records[j], "id"), IdValue(id))
  {
    Seqs.FindIndex(records, (o: Object) => StrictEq(Field(o, "id"), IdValue(id)))
  }

  // ---------------------------------------------------------------------
  // Authentication
  // ---------------------------------------------------------------------

  const AdminUser: Object := map[
    "id" := JInt(1), "username" := JStr("admin"), "password" := JStr("admin123"),
    "email" := JStr("admin@example.com"), "firstName" := JStr("Admin"), "lastName" := JStr("User"),
    "role" := JStr("ADMIN")]

  predicate HasCredentials(u: Object, username: Json, password: Json)
  {
    StrictEq(Field(u, "username"), username) && StrictEq(Field(u, "password"), password)
  }

  function ClaimsOf(u: Object): Claims
  {
    Claims(Field(u, "id"), Field(u, "username"), Field(u, "role"))
  }

  /** The body of a successful login: the token's claims and the user without a password. */
  datatype Session = Session(token: Claims, user: Object)

  /** Every character fits in one byte, as `btoa` demands. */
  predicate Latin1(s: string)
  {
    forall i :: 0 <= i < |s| ==> s[i] as int <= 0xFF
  }

  /**
   * The text `JSON.stringify` writes for j is Latin-1: every string it
   * prints is. Numbers, literals, punctuation and the escapes it writes are
   * ASCII; an object field holding `undefined` is left out.
   */
  predicate JsonLatin1(j: Json)
    decreases j
  {
    match j
    case Prim(v) => v.Str? ==> Latin1(v.s)
    case Arr(items) => forall i :: 0 <= i < |items| ==> JsonLatin1(items[i])
    case Obj(fields) => forall k :: k in fields && fields[k] != Undef ==> Latin1(k) && JsonLatin1(fields[k])
  }

  /** The claims `btoa(JSON.stringify({ userId, username, role }))` can encode: the keys are ASCII, the values must be Latin-1. */
  predicate Encodable(c: Claims)
  {
    JsonLatin1(c.userId) && JsonLatin1(c.username) && JsonLatin1(c.role)
  }

  /**
   * The `InvalidCharacterError` `btoa` throws synchronously for a character
   * above U+00FF. It carries no response; its name stands for it here.
   */
  const InvalidCharacter := Failure(None, "InvalidCharacterError")

  /**
   * `auth.login`: the first user with both the username and the password
   * signs in; the token holds the user's id, name and role, and the user is
   * returned with its password set to `undefined`. Encoding the token
   * throws when those claims hold a character above U+00FF.
   */
  function Login(st: Store, username: Json, password: Json): (r: Result<(Store, Session), Failure>)
    ensures r.Ok? <==> exists i :: 0 <= i < |st.users| && HasCredentials(st.users[i], username, password) &&
                                   Encodable(ClaimsOf(st.users[i])) &&
                                   forall j :: 0 <= j < i ==> !HasCredentials(st.users[j], username, password)
    ensures (forall i :: 0 <= i < |st.users| ==> !HasCredentials(st.users[i], username, password)) <==>
      r == Err(Failure(None, "Invalid credentials"))
    ensures r.Err? && r.error != Failure(None, "Invalid credentials") ==> r.error == InvalidCharacter
    ensures r.Ok? ==> exists i :: (0 <= i < |st.users| && HasCredentials(st.users[i], username, password)
      && r.value.1 == Session(ClaimsOf(st.users[i]), st.users[i]["password" := Undef]))
    ensures r.Ok? ==> r.value.0 == st.(token := Some(r.value.1.token))
  {
    var i := Seqs.FindIndex(st.users, (u: Object) => HasCredentials(u, username, password));
    if i < 0 then Err(Failure(None, "Invalid credentials"))
    else
      var user := st.users[i];
      var claims := ClaimsOf(user);
      if !Encodable(claims) then Err(InvalidCharacter)
      else Ok((st.(token := Some(claims)), Session(claims, user["password" := Undef])))
  }

  /** A user whose name holds a character above U+00FF is found but cannot sign in: encoding the token throws. */
  lemma WideUsernameThrows(st: Store, password: Json)
    requires |st.users| > 0
    requires HasCredentials(st.users[0], JStr("\U{5F20}"), password)
    ensures Login(st, JStr("\U{5F20}"), password) == Err(InvalidCharacter)
  {
    assert "\U{5F20}"[0] as int > 0xFF;
    assert !JsonLatin1(Field(st.users[0], "username"));
  }

  /** `auth.logout`. */
  function Logout(st: Store): (r: Store)
    ensures r.token.None? && r.users == st.users && r.books == st.books && r.lendings == st.lendings
  {
    st.(token := None)
  }

  /** `auth.getCurrentUser`: the claims of the stored token, if any. */
  function CurrentUser(st: Store): (r: Option<Claims>)
    ensures r.Some? <==> st.token.Some?
  {
    st.token
  }

  /** `{ id: users.length + 1, ...userData, role: 'USER' }`. */
  function NewUser(count: nat, data: Object): (u: Object)
    ensures u.Keys == data.Keys + {"id", "role"}
    ensures Field(u, "role") == JStr("USER")
    ensures "id" !in data ==> Field(u, "id") == JInt(count + 1)
    ensures forall k :: k in data && k != "role" ==> u[k] == data[k]
  {
    map["id" := JInt(count + 1)] + data + map["role" := JStr("USER")]
  }

  predicate UsernameTaken(users: seq<Object>, data: Object)
  {
    exists i :: 0 <= i < |users| && StrictEq(Field(users[i], "username"), Field(data, "username"))
  }

  predicate EmailTaken(users: seq<Object>, data: Object)
  {
    exists i :: 0 <= i < |users| && StrictEq(Field(users[i], "email"), Field(data, "email"))
  }

  /**
   * `auth.register`: a taken username is reported before a taken email;
   * otherwise one user is appended, always with the role USER.
   */
  function Register(st: Store, data: Object): (r: Result<Store, Failure>)
    ensures r.Err? <==> UsernameTaken(st.users, data) || EmailTaken(st.users, data)
    ensures UsernameTaken(st.users, data) ==> r == Err(Failure(None, "Username already exists"))
    ensures !UsernameTaken(st.users, data) && EmailTaken(st.users, data) ==> r == Err(Failure(None, "Email already exists"))
    ensures r.Ok? ==> r.value == st.(users := st.users + [NewUser(|st.users|, data)])
  {
    if UsernameTaken(st.users, data) then Err(Failure(None, "Username already exists"))
    else if EmailTaken(st.users, data) then Err(Failure(None, "Email already exists"))
    else Ok(st.(users := st.users + [NewUser(|st.users|, data)]))
  }

  /**
   * A newly registered user can sign in with the same credentials, gets the
   * USER role, and the token names them, provided the token can encode
   * their id and name.
   */
  lemma RegisterThenLogin(st: Store, data: Object)
    requires Register(st, data).Ok?
    requires "role" !in data
    requires Field(data, "username") != Prim(NaN) && Field(data, "password") != Prim(NaN)
    requires JsonLatin1(Field(data, "id")) && JsonLatin1(Field(data, "username"))
    ensures var st' := Register(st, data).value;
      var r := Login(st', Field(data, "username"), Field(data, "password"));
      r.Ok? && r.value.1.token.role == JStr("USER") && r.value.1.token.username == Field(data, "username")
  {
    var st' := Register(st, data).value;
    var u := NewUser(|st.users|, data);
    var p := (x: Object) => HasCredentials(x, Field(data, "username"), Field(data, "password"));
    assert st'.users[|st.users|] == u;
    assert Field(u, "username") == Field(data, "username") && Field(u, "password") == Field(data, "password");
    assert p(u);
    assert Encodable(ClaimsOf(u)) by {
      assert Latin1("USER") by {
        forall i | 0 <= i < 4 ensures "USER"[i] as int <= 0xFF {}
      }
    }
    forall j | 0 <= j < |st.users|
      ensures !p(st'.users[j])
    {
      assert st'.users[j] == st.users[j];
    }
    var i := Seqs.FindIndex(st'.users, p);
    assert i == |st.users|;
  }

  /** The administrator of the seeded store signs in with the seeded password. */
  lemma AdminCanSignIn(st: Store)
    requires |st.users| > 0 && st.users[0] == AdminUser
    ensures Login(st, JStr("admin"), JStr("admin123")).Ok?
    ensures Login(st, JStr("admin"), JStr("admin123")).value.1.token.role == JStr("ADMIN")
    ensures Login(st, JStr("admin"), JStr("wrong")).Err? || |st.users| > 1
  {
    assert HasCredentials(st.users[0], JStr("admin"), JStr("admin123"));
    assert Encodable(ClaimsOf(st.users[0])) by {
      assert Latin1("admin") by {
        forall i | 0 <= i < 5 ensures "admin"[i] as int <= 0xFF {}
      }
      assert Latin1("ADMIN") by {
        forall i | 0 <= i < 5 ensures "ADMIN"[i] as int <= 0xFF {}
      }
    }
    if |st.users| == 1 {
      assert !HasCredentials(st.users[0], JStr("admin"), JStr("wrong"));
    }
  }

  // ---------------------------------------------------------------------
  // Books
  // ---------------------------------------------------------------------

  /** `books.getById`. */
  function GetBook(st: Store, id: string): (r: Result<Object, Failure>)
    ensures r.Err? <==> IndexById(st.books, id) == -1
    ensures r.Err? ==> r.error.status == Some(NotFound)
    ensures r.Ok? ==> r.value == st.books[IndexById(st.books, id)]
  {
    var i := IndexById(st.books, id);
    if i < 0 then Err(Failure(Some(NotFound), "Book not found")) else Ok(st.books[i])
  }

  /** `{ id: books.length + 1, ...bookData, rating: 0, reviews: 0, availableCopies: bookData.totalCopies }`. */
  function NewBook(id: Json, data: Object): (b: Object)
    ensures b.Keys == data.Keys + {"id", "rating", "reviews", "availableCopies"}
    ensures Field(b, "rating") == JInt(0) && Field(b, "reviews") == JInt(0)
    ensures Field(b, "availableCopies") == Field(data, "totalCopies")
    ensures "id" !in data ==> Field(b, "id") == id
    ensures forall k :: k in data && k !in {"rating", "reviews", "availableCopies"} ==> b[k] == data[k]
  {
    map["id" := id] + data + map["rating" := JInt(0), "reviews" := JInt(0), "availableCopies" := Field(data, "totalCopies")]
  }

  /** `books.create` as written: the new id is one more than the number of books. */
  function CreateBook(st: Store, data: Object): (r: (Store, Object))
    ensures r.0 == st.(books := st.books + [r.1])
    ensures r.1 == NewBook(JInt(|st.books| + 1), data)
  {
    var b := NewBook(JInt(|st.books| + 1), data);
    (st.(books := st.books + [b]), b)
  }

  /**
   * Ids counted from the length repeat after a delete: with books 1, 2 and 3,
   * deleting book 1 and creating a book gives a second book 3.
   */
  lemma CreateAfterDeleteRepeatsAnId(st: Store, b1: Object, b2: Object, b3: Object)
    requires st.books == [b1, b2, b3] && Field(b1, "id") == JInt(1) && Field(b3, "id") == JInt(3)
    ensures DeleteBook(st, "1").Ok?
    ensures var after := CreateBook(DeleteBook(st, "1").value, map[]).0;
      |after.books| == 3 && Field(after.books[1], "id") == Field(after.books[2], "id") == JInt(3)
  {
    DeleteFirstOfThree(st, b1, b2, b3);
    CreatedThird(st.(books := [b2, b3]), b2, b3);
  }

  /** Creating a book in a table of two gives it id 3, after the two books already there. */
  lemma CreatedThird(rest: Store, b2: Object, b3: Object)
    requires rest.books == [b2, b3]
    ensures var books := CreateBook(rest, map[]).0.books;
      |books| == 3 && books[1] == b3 && Field(books[2], "id") == JInt(3)
  {
    var b := NewBook(JInt(3), map[]);
    assert CreateBook(rest, map[]).0.books == [b2, b3, b];
  }

  /** Deleting id 1 from three books of which the first has id 1 leaves the other two. */
  lemma DeleteFirstOfThree(st: Store, b1: Object, b2: Object, b3: Object)
    requires st.books == [b1, b2, b3] && Field(b1, "id") == JInt(1)
    ensures DeleteBook(st, "1") == Ok(st.(books := [b2, b3]))
  {
    OneReadsAsOne();
    assert StrictEq(Field(st.books[0], "id"), IdValue("1"));
    assert IndexById(st.books, "1") == 0;
    Seqs.RemoveAtSplits(st.books, 0);
    assert st.books[..0] + st.books[1..] == [b2, b3];
    assert Seqs.RemoveAt(st.books, 0) == [b2, b3];
  }

  /** The largest numeric book id, or 0. */
  function MaxId(books: seq<Object>): (m: int)
    ensures m >= 0
    ensures forall i :: 0 <= i < |books| && Field(books[i], "id").Prim? && Field(books[i], "id").v.Num? ==>
      Field(books[i], "id").v.n <= m as real
  {
    if |books| == 0 then 0
    else
      var m := MaxId(books[..|books| - 1]);
      var id := Field(books[|books| - 1], "id");
      assert forall i :: 0 <= i < |books| - 1 ==> books[..|books| - 1][i] == books[i];
      if id.Prim? && id.v.Num? && id.v.n > m as real then -((-id.v.n).Floor) else m
  }

  /** `books.create` as evidently intended: the new id is one more than the largest id in use. */
  function CreateBookFresh(st: Store, data: Object): (r: (Store, Object))
    ensures r.0 == st.(books := st.books + [r.1])
    ensures r.1 == NewBook(JInt(MaxId(st.books) + 1), data)
  {
    var b := NewBook(JInt(MaxId(st.books) + 1), data);
    (st.(books := st.books + [b]), b)
  }

  /** A book created with a fresh id never shares it with an existing book. */
  lemma FreshIdIsUnused(st: Store, data: Object)
    requires "id" !in data
    ensures var b := CreateBookFresh(st, data).1;
      forall i :: 0 <= i < |st.books| ==> !StrictEq(Field(st.books[i], "id"), Field(b, "id"))
  {
  }

  /** `books.update`: the fields of the data merged into the first book with the id. */
  function UpdateBook(st: Store, id: string, data: Object): (r: Result<(Store, Object), Failure>)
    ensures r.Err? <==> IndexById(st.books, id) == -1
    ensures r.Err? ==> r.error.status == Some(NotFound)
    ensures r.Ok? ==> var i := IndexById(st.books, id);
      r.value.0 == st.(books := st.books[i := st.books[i] + data]) && r.value.1 == st.books[i] + data
  {
    var i := IndexById(st.books, id);
    if i < 0 then Err(Failure(Some(NotFound), "Book not found"))
    else
      var b := st.books[i] + data;
      Ok((st.(books := st.books[i := b]), b))
  }

  /** After an update that keeps the id, fetching the book returns the merged record. */
  lemma UpdateThenGet(st: Store, id: string, data: Object)
    requires UpdateBook(st, id, data).Ok? && "id" !in data
    ensures GetBook(UpdateBook(st, id, data).value.0, id) == Ok(UpdateBook(st, id, data).value.1)
  {
    var i := IndexById(st.books, id);
    var books' := UpdateBook(st, id, data).value.0.books;
    var p := (o: Object) => StrictEq(Field(o, "id"), IdValue(id));
    assert forall j :: 0 <= j < |books'| ==> p(books'[j]) == p(st.books[j]);
    Seqs.FindIndexAgrees(books', st.books, p);
  }

  /** `books.delete`: exactly the first book with the id leaves the list. */
  function DeleteBook(st: Store, id: string): (r: Result<Store, Failure>)
    ensures r.Err? <==> IndexById(st.books, id) == -1
    ensures r.Err? ==> r.error.status == Some(NotFound)
    ensures r.Ok? ==> |r.value.books| == |st.books| - 1
    ensures r.Ok? ==> multiset(r.value.books) + multiset{st.books[IndexById(st.books, id)]} == multiset(st.books)
    ensures r.Ok? ==> r.value.books == Seqs.RemoveAt(st.books, IndexById(st.books, id))
  {
    var i := IndexById(st.books, id);
    if i < 0 then Err(Failure(Some(NotFound), "Book not found"))
    else Ok(st.(books := Seqs.RemoveAt(st.books, i)))
  }

  /** `x.toLowerCase().includes(q.toLowerCase())`, a TypeError when x is not a string. */
  predicate TitleMatches(b: Object, key: string, query: string)
    requires Field(b, key).Prim? && Field(b, key).v.Str?
  {
    Includes(Lower(Field(b, key).v.s), Lower(query))
  }

  predicate AllHaveText(records: seq<Object>, key: string)
  {
    forall i :: 0 <= i < |records| ==> Field(records[i], key).Prim? && Field(records[i], key).v.Str?
  }

  function TypeError(): Failure
  {
    Failure(None, "TypeError: toLowerCase is not a function")
  }

  /**
   * `books.search`: an optional case-insensitive title substring, then an
   * optional exact genre; each part applies only when given (truthy).
   */
  function SearchBooks(st: Store, params: Object): (r: Result<seq<Object>, Failure>)
    ensures var q := Field(params, "title");
      r.Err? <==> JsonTruthy(q) && |st.books| > 0 && !(q.Prim? && q.v.Str? && AllHaveText(st.books, "title"))
    ensures r.Ok? ==> forall b :: b in r.value ==> b in st.books && Selected(b, params)
    ensures r.Ok? ==> forall b :: b in st.books && Selected(b, params) ==> b in r.value
  {
    var q := Field(params, "title");
    var g := Field(params, "genre");
    if JsonTruthy(q) && |st.books| > 0 && !(q.Prim? && q.v.Str? && AllHaveText(st.books, "title")) then Err(TypeError())
    else
      var byTitle := if JsonTruthy(q) then Seqs.Filter(st.books, (b: Object) => TitleFilter(b, q)) else st.books;
      var byGenre := if JsonTruthy(g) then Seqs.Filter(byTitle, (b: Object) => StrictEq(Field(b, "genre"), g)) else byTitle;
      forall b | b in st.books && Selected(b, params)
        ensures b in byGenre
      {
        if JsonTruthy(q) {
          Seqs.FilterKeeps(st.books, (b: Object) => TitleFilter(b, q), b);
        }
        if JsonTruthy(g) {
          Seqs.FilterKeeps(byTitle, (b: Object) => StrictEq(Field(b, "genre"), g), b);
        }
      }
      Ok(byGenre)
  }

  /** The title part of a search for one book (false where the search would fail). */
  predicate TitleFilter(b: Object, q: Json)
  {
    q.Prim? && q.v.Str? && Field(b, "title").Prim? && Field(b, "title").v.Str? && TitleMatches(b, "title", q.v.s)
  }

  /** Whether a book satisfies every given search parameter. */
  predicate Selected(b: Object, params: Object)
  {
    (JsonTruthy(Field(params, "title")) ==> TitleFilter(b, Field(params, "title")))
    && (JsonTruthy(Field(params, "genre")) ==> StrictEq(Field(b, "genre"), Field(params, "genre")))
  }

  /** Searching with both parameters is one filter by their conjunction, in catalogue order. */
  lemma SearchIsConjunction(st: Store, params: Object)
    requires SearchBooks(st, params).Ok?
    ensures SearchBooks(st, params).value == Seqs.Filter(st.books, (b: Object) => Selected(b, params))
  {
    var q := Field(params, "title");
    var g := Field(params, "genre");
    var t := (b: Object) => TitleFilter(b, q);
    var e := (b: Object) => StrictEq(Field(b, "genre"), g);
    var sel := (b: Object) => Selected(b, params);
    if JsonTruthy(q) && JsonTruthy(g) {
      Seqs.FilterTwice(st.books, t, e, sel);
    } else if JsonTruthy(q) {
      assert forall b :: t(b) == sel(b);
      Seqs.FilterTwice(st.books, t, (b: Object) => true, sel);
      Seqs.FilterAll(Seqs.Filter(st.books, t), (b: Object) => true);
    } else if JsonTruthy(g) {
      Seqs.FilterTwice(st.books, (b: Object) => true, e, sel);
      Seqs.FilterAll(st.books, (b: Object) => true);
    } else {
      Seqs.FilterAll(st.books, sel);
    }
  }

  /** `books.getAvailable`: the books with `availableCopies > 0`. */
  function AvailableBooks(st: Store): (r: seq<Object>)
    ensures forall b :: b in r <==> b in st.books && JsonLess(JInt(0), Field(b, "availableCopies"))
  {
    var p := (b: Object) => JsonLess(JInt(0), Field(b, "availableCopies"));
    forall b | b in st.books && p(b)
      ensures b in Seqs.Filter(st.books, p)
    {
      Seqs.FilterKeeps(st.books, p, b);
    }
    Seqs.Filter(st.books, p)
  }

  // ---------------------------------------------------------------------
  // Authors
  // ---------------------------------------------------------------------

  /** `authors.create`: `{ id: authors.length + 1, ...authorData, books: [] }`. */
  function CreateAuthor(st: Store, data: Object): (r: (Store, Object))
    ensures r.0 == st.(authors := st.authors + [r.1])
    ensures r.1.Keys == data.Keys + {"id", "books"} && r.1["books"] == Arr([])
    ensures "id" !in data ==> r.1["id"] == JInt(|st.authors| + 1)
    ensures forall k :: k in data && k != "books" ==> r.1[k] == data[k]
  {
    var a := map["id" := JInt(|st.authors| + 1)] + data + map["books" := Arr([])];
    (st.(authors := st.authors + [a]), a)
  }

  /** `authors.search(query)`: the authors whose name contains the query, ignoring case. */
  function SearchAuthors(st: Store, query: Json): (r: Result<seq<Object>, Failure>)
    ensures r.Err? <==> |st.authors| > 0 && !(query.Prim? && query.v.Str? && AllHaveText(st.authors, "name"))
    ensures r.Ok? ==> forall a :: a in r.value <==> a in st.authors && query.Prim? && query.v.Str? && TitleMatches(a, "name", query.v.s)
  {
    if |st.authors| > 0 && !(query.Prim? && query.v.Str? && AllHaveText(st.authors, "name")) then Err(TypeError())
    else if |st.authors| == 0 then Ok([])
    else
      var p := (a: Object) => Field(a, "name").Prim? && Field(a, "name").v.Str? && TitleMatches(a, "name", query.v.s);
      forall a | a in st.authors && TitleMatches(a, "name", query.v.s)
        ensures a in Seqs.Filter(st.authors, p)
      {
        Seqs.FilterKeeps(st.authors, p, a);
      }
      Ok(Seqs.Filter(st.authors, p))
  }

  // ---------------------------------------------------------------------
  // Lendings
  // ---------------------------------------------------------------------

  /** The last w decimal digits of n, zero-padded to exactly w characters. */
  function FixedDigits(n: nat, w: nat): (s: string)
    ensures |s| == w && Calendar.IsDigits(s)
  {
    if w == 0 then "" else FixedDigits(n / 10, w - 1) + [Calendar.DigitChar(n % 10)]
  }

  /** Below `10^w`, the fixed-width digits read back as the number itself. */
  lemma {:induction false} FixedDigitsValue(n: nat, w: nat)
    requires n < Power10(w)
    ensures Calendar.ParseDigits(FixedDigits(n, w)) == n
  {
    if w > 0 {
      var s := FixedDigits(n, w);
      assert s[..|s| - 1] == FixedDigits(n / 10, w - 1);
      TenthBelow(n, Power10(w - 1));
      FixedDigitsValue(n / 10, w - 1);
    }
  }

  lemma TenthBelow(n: nat, p: nat)
    requires n < 10 * p
    ensures n / 10 < p
  {
  }

  /** Fixed-width digits of numbers below `10^w` compare as text exactly as the numbers compare. */
  lemma FixedDigitsOrder(a: nat, b: nat, w: nat)
    requires a < Power10(w) && b < Power10(w)
    ensures StringLess(FixedDigits(a, w), FixedDigits(b, w)) <==> a < b
    ensures FixedDigits(a, w) == FixedDigits(b, w) <==> a == b
  {
    FixedDigitsValue(a, w);
    FixedDigitsValue(b, w);
    DigitStringOrder(FixedDigits(a, w), FixedDigits(b, w));
  }

  /** `yyyy-MM-dd` of a date. */
  function DateText(d: Calendar.Date): string
    requires Calendar.ValidDate(d)
  {
    var year :=
      if 0 <= d.year <= 9999 then FixedDigits(d.year, 4)
      else if d.year < 0 then "-" + FixedDigits(-d.year, 6)
      else "+" + FixedDigits(d.year, 6);
    year + "-" + FixedDigits(d.month, 2) + "-" + FixedDigits(d.day, 2)
  }

  /**
   * `toISOString().split('T')[0]`: the UTC calendar date as `yyyy-MM-dd`,
   * with a signed six-digit year outside 0..9999.
   */
  function IsoDate(t: Calendar.Timestamp): string
  {
    DateText(Calendar.DateOf(t))
  }

  /** Calendar order of dates: by year, then month, then day. */
  predicate DateBefore(a: Calendar.Date, b: Calendar.Date)
  {
    a.year < b.year || (a.year == b.year && (a.month < b.month || (a.month == b.month && a.day < b.day)))
  }

  /** Three fields joined by dashes, each of one width on both sides, compare field by field. */
  lemma DashedOrder(y1: string, m1: string, e1: string, y2: string, m2: string, e2: string)
    requires |y1| == |y2| && |m1| == |m2|
    ensures StringLess(y1 + "-" + m1 + "-" + e1, y2 + "-" + m2 + "-" + e2)
      <==> StringLess(y1, y2) || (y1 == y2 && (StringLess(m1, m2) || (m1 == m2 && StringLess(e1, e2))))
  {
    assert y1 + "-" + m1 + "-" + e1 == y1 + ("-" + (m1 + ("-" + e1)));
    assert y2 + "-" + m2 + "-" + e2 == y2 + ("-" + (m2 + ("-" + e2)));
    StringLessConcat(y1, "-" + (m1 + ("-" + e1)), y2, "-" + (m2 + ("-" + e2)));
    StringLessConcat("-", m1 + ("-" + e1), "-", m2 + ("-" + e2));
    StringLessConcat(m1, "-" + e1, m2, "-" + e2);
    StringLessConcat("-", e1, "-", e2);
    StringLessIrreflexive("-");
  }

  /** Comparing `yyyy-MM-dd` texts as strings is comparing the dates, for years 0 to 9999. */
  lemma DateTextOrder(d1: Calendar.Date, d2: Calendar.Date)
    requires Calendar.ValidDate(d1) && Calendar.ValidDate(d2)
    requires 0 <= d1.year <= 9999 && 0 <= d2.year <= 9999
    ensures StringLess(DateText(d1), DateText(d2)) <==> DateBefore(d1, d2)
  {
    assert Power10(4) == 10000 && Power10(2) == 100;
    assert Calendar.DaysInMonth(d1.year, d1.month) <= 31 && Calendar.DaysInMonth(d2.year, d2.month) <= 31;
    FixedDigitsOrder(d1.year, d2.year, 4);
    FixedDigitsOrder(d1.month, d2.month, 2);
    FixedDigitsOrder(d1.day, d2.day, 2);
    DashedOrder(FixedDigits(d1.year, 4), FixedDigits(d1.month, 2), FixedDigits(d1.day, 2),
                FixedDigits(d2.year, 4), FixedDigits(d2.month, 2), FixedDigits(d2.day, 2));
  }

  /** The same for the dates of two timestamps. */
  lemma IsoDateOrder(t1: Calendar.Timestamp, t2: Calendar.Timestamp)
    requires 0 <= Calendar.DateOf(t1).year <= 9999 && 0 <= Calendar.DateOf(t2).year <= 9999
    ensures StringLess(IsoDate(t1), IsoDate(t2)) <==> DateBefore(Calendar.DateOf(t1), Calendar.DateOf(t2))
  {
    DateTextOrder(Calendar.DateOf(t1), Calendar.DateOf(t2));
  }

  const Active := "ACTIVE"
  const Returned := "RETURNED"

  predicate IsActive(l: Object)
  {
    StrictEq(Field(l, "status"), JStr(Active))
  }

  /** `book.availableCopies--` and `++`: the numeric value moved by one (NaN when it is not a number). */
  function Step(v: Json, delta: int): (r: Json)
    ensures v.Prim? && ToNumber(v.v).Some? ==> r == Prim(Num(ToNumber(v.v).value + delta as real))
  {
    if v.Prim? && ToNumber(v.v).Some? then Prim(Num(ToNumber(v.v).value + delta as real)) else Prim(NaN)
  }

  /** The books with the copy count of book j moved by delta; no other book and no other field changes. */
  function AdjustCopies(books: seq<Object>, j: nat, delta: int): (r: seq<Object>)
    requires j < |books|
    ensures |r| == |books|
    ensures forall k :: 0 <= k < |books| && k != j ==> r[k] == books[k]
    ensures r[j].Keys == books[j].Keys + {"availableCopies"}
    ensures forall f :: f in books[j] && f != "availableCopies" ==> r[j][f] == books[j][f]
    ensures Field(r[j], "availableCopies") == Step(Field(books[j], "availableCopies"), delta)
  {
    books[j := books[j]["availableCopies" := Step(Field(books[j], "availableCopies"), delta)]]
  }

  /** The lending `borrowBook` records. */
  function NewLending(count: nat, bookId: Json, userId: Json, now: Calendar.Timestamp): Object
  {
    map["id" := JInt(count + 1), "bookId" := bookId, "userId" := userId,
        "borrowDate" := JStr(IsoDate(now)),
        "dueDate" := JStr(IsoDate(Calendar.PlusDays(now, 14))),
        "returnDate" := Prim(Null), "status" := JStr(Active)]
  }

  /**
   * `lendings.borrowBook`: 401 without a signed-in user, 404 for an unknown
   * book, 400 when it has no copy left; otherwise an ACTIVE lending due in
   * fourteen days is recorded and the first book with the id loses a copy.
   */
  function Borrow(st: Store, bookId: string, now: Calendar.Timestamp): (r: Result<(Store, Object), Failure>)
    ensures st.token.None? ==> r == Err(Failure(Some(Unauthorized), "Unauthorized"))
    ensures st.token.Some? && IndexById(st.books, bookId) == -1 ==> r == Err(Failure(Some(NotFound), "Book not found"))
    ensures st.token.Some? && IndexById(st.books, bookId) >= 0
      && JsonLessOrEqual(Field(st.books[IndexById(st.books, bookId)], "availableCopies"), JInt(0))
      ==> r == Err(Failure(Some(BadRequest), "Book not available"))
    ensures r.Ok? <==> (st.token.Some? && IndexById(st.books, bookId) >= 0
      && !JsonLessOrEqual(Field(st.books[IndexById(st.books, bookId)], "availableCopies"), JInt(0)))
    ensures r.Ok? ==> var i := IndexById(st.books, bookId);
      r.value.1 == NewLending(|st.lendings|, IdValue(bookId), st.token.value.userId, now)
      && r.value.0 == st.(lendings := st.lendings + [r.value.1], books := AdjustCopies(st.books, i, -1))
  {
    if st.token.None? then Err(Failure(Some(Unauthorized), "Unauthorized"))
    else
      var i := IndexById(st.books, bookId);
      if i < 0 then Err(Failure(Some(NotFound), "Book not found"))
      else
        var book := st.books[i];
        var copies := Field(book, "availableCopies");
        if JsonLessOrEqual(copies, JInt(0)) then Err(Failure(Some(BadRequest), "Book not available"))
        else
          var lending := NewLending(|st.lendings|, IdValue(bookId), st.token.value.userId, now);
          Ok((st.(lendings := st.lendings + [lending], books := AdjustCopies(st.books, i, -1)), lending))
  }

  /**
   * `lendings.returnBook`: 404 for an unknown lending, 400 when it is not
   * ACTIVE; otherwise it becomes RETURNED with today's date and the first
   * book with its book id, if any, gains a copy.
   */
  function Return(st: Store, lendingId: string, now: Calendar.Timestamp): (r: Result<(Store, Object), Failure>)
    ensures IndexById(st.lendings, lendingId) == -1 ==> r == Err(Failure(Some(NotFound), "Lending not found"))
    ensures IndexById(st.lendings, lendingId) >= 0 && !IsActive(st.lendings[IndexById(st.lendings, lendingId)])
      ==> r == Err(Failure(Some(BadRequest), "Book already returned"))
    ensures r.Ok? <==> (IndexById(st.lendings, lendingId) >= 0 && IsActive(st.lendings[IndexById(st.lendings, lendingId)]))
    ensures r.Ok? ==> var l := st.lendings[IndexById(st.lendings, lendingId)];
      r.value.1.Keys == l.Keys + {"returnDate", "status"}
      && Field(r.value.1, "status") == JStr(Returned) && Field(r.value.1, "returnDate") == JStr(IsoDate(now))
      && forall f :: f in l && f !in {"returnDate", "status"} ==> r.value.1[f] == l[f]
    ensures r.Ok? ==> var i := IndexById(st.lendings, lendingId);
      var j := Seqs.FindIndex(st.books, (b: Object) => HasId(b, Field(st.lendings[i], "bookId")));
      r.value.0 == st.(lendings := st.lendings[i := r.value.1],
                       books := if j < 0 then st.books else AdjustCopies(st.books, j, 1))
  {
    var i := IndexById(st.lendings, lendingId);
    if i < 0 then Err(Failure(Some(NotFound), "Lending not found"))
    else
      var lending := st.lendings[i];
      if !IsActive(lending) then Err(Failure(Some(BadRequest), "Book already returned"))
      else
        var j := Seqs.FindIndex(st.books, (b: Object) => HasId(b, Field(lending, "bookId")));
        var books := if j < 0 then st.books else AdjustCopies(st.books, j, 1);
        var returned := lending["returnDate" := JStr(IsoDate(now))]["status" := JStr(Returned)];
        Ok((st.(books := books, lendings := st.lendings[i := returned]), returned))
  }

  /** `lendings.getMyLendings`: 401 without a user, otherwise the lendings of the signed-in user. */
  function MyLendings(st: Store): (r: Result<seq<Object>, Failure>)
    ensures r.Err? <==> st.token.None?
    ensures r.Err? ==> r.error.status == Some(Unauthorized)
    ensures r.Ok? ==> forall l :: l in r.value <==> l in st.lendings && StrictEq(Field(l, "userId"), st.token.value.userId)
  {
    if st.token.None? then Err(Failure(Some(Unauthorized), "Unauthorized"))
    else
      var p := (l: Object) => StrictEq(Field(l, "userId"), st.token.value.userId);
      forall l | l in st.lendings && p(l)
        ensures l in Seqs.Filter(st.lendings, p)
      {
        Seqs.FilterKeeps(st.lendings, p, l);
      }
      Ok(Seqs.Filter(st.lendings, p))
  }

  /** `lendings.getOverdue`: the ACTIVE lendings whose due date text sorts before today's. */
  function Overdue(st: Store, now: Calendar.Timestamp): (r: seq<Object>)
    ensures forall l :: l in r <==> l in st.lendings && IsActive(l) && JsonLess(Field(l, "dueDate"), JStr(IsoDate(now)))
  {
    var p := (l: Object) => IsActive(l) && JsonLess(Field(l, "dueDate"), JStr(IsoDate(now)));
    forall l | l in st.lendings && p(l)
      ensures l in Seqs.Filter(st.lendings, p)
    {
      Seqs.FilterKeeps(st.lendings, p, l);
    }
    Seqs.Filter(st.lendings, p)
  }

  /** A lending borrowed now falls due in fourteen days: overdue from the fifteenth day on, and not before. */
  lemma BorrowedBookFallsDue(now: Calendar.Timestamp, later: Calendar.Timestamp, bookId: Json, userId: Json, count: nat)
    requires 0 <= Calendar.DateOf(Calendar.PlusDays(now, 14)).year <= 9999 && 0 <= Calendar.DateOf(later).year <= 9999
    ensures var l := NewLending(count, bookId, userId, now);
      JsonLess(Field(l, "dueDate"), JStr(IsoDate(later)))
      <==> DateBefore(Calendar.DateOf(Calendar.PlusDays(now, 14)), Calendar.DateOf(later))
  {
    IsoDateOrder(Calendar.PlusDays(now, 14), later);
  }

  // ---------------------------------------------------------------------
  // Stock: copies on the shelf plus copies on loan
  // ---------------------------------------------------------------------

  predicate HasId(b: Object, id: Json)
  {
    StrictEq(Field(b, "id"), id)
  }

  predicate OnLoan(l: Object, id: Json)
  {
    StrictEq(Field(l, "bookId"), id) && IsActive(l)
  }

  /** The first book with the id has a numeric copy count. */
  predicate Stocked(st: Store, id: Json)
  {
    var i := Seqs.FindIndex(st.books, (b: Object) => HasId(b, id));
    i >= 0 && Field(st.books[i], "availableCopies").Prim? && ToNumber(Field(st.books[i], "availableCopies").v).Some?
  }

  /** The copies of a book: those on the shelf plus the ACTIVE lendings of its id. */
  function Stock(st: Store, id: Json): real
    requires Stocked(st, id)
  {
    var i := Seqs.FindIndex(st.books, (b: Object) => HasId(b, id));
    ToNumber(Field(st.books[i], "availableCopies").v).value
      + Seqs.Count(st.lendings, (l: Object) => OnLoan(l, id)) as real
  }

  /** Changing only the copy count of one book keeps every book's id, so the first book with an id stays the same. */
  lemma AdjustKeepsIds(books: seq<Object>, j: nat, delta: int, id: Json)
    requires j < |books|
    ensures Seqs.FindIndex(AdjustCopies(books, j, delta), (b: Object) => HasId(b, id))
         == Seqs.FindIndex(books, (b: Object) => HasId(b, id))
  {
    var books' := AdjustCopies(books, j, delta);
    var p := (b: Object) => HasId(b, id);
    assert Field(books'[j], "id") == Field(books[j], "id");
    assert forall k :: 0 <= k < |books| ==> p(books'[k]) == p(books[k]);
    Seqs.FindIndexAgrees(books', books, p);
  }

  /** Borrowing moves one copy from the shelf to a loan: every book's stock is unchanged. */
  lemma BorrowKeepsStock(st: Store, bookId: string, now: Calendar.Timestamp, id: Json)
    requires Borrow(st, bookId, now).Ok? && Stocked(st, id)
    ensures Stocked(Borrow(st, bookId, now).value.0, id)
    ensures Stock(Borrow(st, bookId, now).value.0, id) == Stock(st, id)
  {
    var r := Borrow(st, bookId, now).value;
    NewLendingOnLoan(|st.lendings|, IdValue(bookId), st.token.value.userId, now, id);
    LendKeepsStock(st, r.0, IndexById(st.books, bookId), IdValue(bookId), r.1, id);
  }

  /** Taking a copy off the first book with id bid and appending a lending of bid keeps every stock. */
  lemma LendKeepsStock(st: Store, st': Store, i: nat, bid: Json, lending: Object, id: Json)
    requires i < |st.books| && StrictEq(Field(st.books[i], "id"), bid)
    requires forall j :: 0 <= j < i ==> !StrictEq(Field(st.books[j], "id"), bid)
    requires st'.lendings == st.lendings + [lending] && st'.books == AdjustCopies(st.books, i, -1)
    requires OnLoan(lending, id) <==> StrictEq(bid, id)
    requires Stocked(st, id)
    ensures Stocked(st', id) && Stock(st', id) == Stock(st, id)
  {
    AdjustKeepsIds(st.books, i, -1, id);
    var k := Seqs.FindIndex(st.books, (b: Object) => HasId(b, id));
    AppendedLoan(st.lendings, lending, id);
    if StrictEq(bid, id) {
      assert k == i;
    } else {
      assert k != i;
    }
  }

  /** An appended lending adds one ACTIVE loan of the id exactly when it is one. */
  lemma AppendedLoan(lendings: seq<Object>, lending: Object, id: Json)
    ensures Seqs.Count(lendings + [lending], (l: Object) => OnLoan(l, id))
      == Seqs.Count(lendings, (l: Object) => OnLoan(l, id)) + (if OnLoan(lending, id) then 1 else 0)
  {
    var onLoan := (l: Object) => OnLoan(l, id);
    Seqs.CountAppend(lendings, [lending], onLoan);
    assert [lending][..0] == [];
  }

  /** A new lending is an ACTIVE loan of exactly the book id it records. */
  lemma NewLendingOnLoan(count: nat, bookId: Json, userId: Json, now: Calendar.Timestamp, id: Json)
    ensures OnLoan(NewLending(count, bookId, userId, now), id) <==> StrictEq(bookId, id)
  {
  }

  /** Closing ACTIVE lending i and putting a copy back on the first book with its book id keeps every stock. */
  lemma ShelveKeepsStock(st: Store, st': Store, i: nat, returned: Object, id: Json)
    requires i < |st.lendings| && IsActive(st.lendings[i]) && !IsActive(returned)
    requires st'.lendings == st.lendings[i := returned]
    requires var j := Seqs.FindIndex(st.books, (b: Object) => HasId(b, Field(st.lendings[i], "bookId")));
      st'.books == if j < 0 then st.books else AdjustCopies(st.books, j, 1)
    requires Stocked(st, id)
    ensures Stocked(st', id) && Stock(st', id) == Stock(st, id)
  {
    var bid := Field(st.lendings[i], "bookId");
    var j := Seqs.FindIndex(st.books, (b: Object) => HasId(b, bid));
    if j >= 0 {
      AdjustKeepsIds(st.books, j, 1, id);
    }
    var k := Seqs.FindIndex(st.books, (b: Object) => HasId(b, id));
    var onLoan := (l: Object) => OnLoan(l, id);
    Seqs.CountUpdate(st.lendings, i, returned, onLoan);
    if StrictEq(bid, id) {
      assert j == k;
    } else {
      assert !onLoan(st.lendings[i]);
      assert j != k || j < 0;
    }
  }

  /** Returning moves one copy from a loan back to the shelf: every stocked book's stock is unchanged. */
  lemma ReturnKeepsStock(st: Store, lendingId: string, now: Calendar.Timestamp, id: Json)
    requires Return(st, lendingId, now).Ok? && Stocked(st, id)
    ensures Stocked(Return(st, lendingId, now).value.0, id)
    ensures Stock(Return(st, lendingId, now).value.0, id) == Stock(st, id)
  {
    var r := Return(st, lendingId, now).value;
    ShelveKeepsStock(st, r.0, IndexById(st.lendings, lendingId), r.1, id);
  }
}
