/**
 * The sign-up page: six text fields, a validity flag per field that typing
 * clears, the checks run on submit (including the e-mail pattern
 * `^[^\s@]+@[^\s@]+\.[^\s@]+$`), and the call to the mock `auth.register`.
 */
module RegisterForm {
  import opened Wrappers
  import opened JsValues
  import Seqs
  import MockApi

  const FieldNames: set<string> := {"username", "email", "password", "confirmPassword", "firstName", "lastName"}

  type Form = map<string, string>
  type Flags = map<string, bool>

  /** The page state: the field values, the validity flags and the error banner. */
  datatype Page = Page(form: Form, validation: Flags, error: string)

  /** Every field has a value and a flag, as the initial state sets them up and every change keeps them. */
  predicate WellFormed(p: Page)
  {
    (forall f :: f in FieldNames ==> f in p.form) && (forall f :: f in FieldNames ==> f in p.validation)
  }

  /** The page as it mounts: empty fields, every flag valid, no error. */
  function Initial(): (p: Page)
    ensures WellFormed(p)
    ensures forall f :: f in FieldNames ==> p.form[f] == "" && p.validation[f]
    ensures p.error == ""
  {
    Page(map f | f in FieldNames :: "", map f | f in FieldNames :: true, "")
  }

  /** `handleChange`: the named field takes the typed value, its flag turns valid and the error banner clears. */
  function Change(p: Page, name: string, value: string): (r: Page)
    ensures r.form.Keys == p.form.Keys + {name} && r.form[name] == value
    ensures forall f :: f in p.form && f != name ==> r.form[f] == p.form[f]
    ensures r.validation.Keys == p.validation.Keys + {name} && r.validation[name]
    ensures forall f :: f in p.validation && f != name ==> r.validation[f] == p.validation[f]
    ensures r.error == ""
    ensures WellFormed(p) ==> WellFormed(r)
  {
    Page(p.form[name := value], p.validation[name := true], "")
  }

  // ---------------------------------------------------------------------
  // The e-mail pattern
  // ---------------------------------------------------------------------

  /** `[^\s@]`. */
  predicate PartChar(c: char)
  {
    !IsSpace(c) && c != '@'
  }

  /** `[^\s@]+`. */
  predicate Part(t: string)
  {
    |t| > 0 && forall k :: 0 <= k < |t| ==> PartChar(t[k])
  }

  /**
   * `^[^\s@]+@[^\s@]+\.[^\s@]+$`: some '@' at i and some '.' at j split the
   * text into three non-empty runs without white space or '@'.
   */
  predicate EmailPattern(s: string)
  {
    exists i, j :: 0 < i && i + 1 < j < |s| - 1 && s[i] == '@' && s[j] == '.'
      && Part(s[..i]) && Part(s[i + 1..j]) && Part(s[j + 1..])
  }

  predicate IsAt(c: char)
  {
    c == '@'
  }

  /** Every character other than the one at i may stand in a part. */
  predicate PartCharsExcept(s: string, i: int)
  {
    forall k :: 0 <= k < |s| && k != i ==> PartChar(s[k])
  }

  /** A '.' stands strictly between position i + 1 and the last character. */
  predicate InnerDotAfter(s: string, i: int)
  {
    exists j :: 0 <= j < |s| - 1 && i + 1 < j && s[j] == '.'
  }

  /**
   * The pattern test, decided directly: the first '@' is not the first
   * character, every other character may stand in a part, and a '.' stands
   * strictly inside the text after the '@'.
   */
  function TestEmail(s: string): (ok: bool)
    ensures ok <==> EmailPattern(s)
  {
    var i := Seqs.FindIndex(s, IsAt);
    var ok := 0 < i && PartCharsExcept(s, i) && InnerDotAfter(s, i);
    PatternHasShape(s, i);
    ShapeIsPattern(s, i);
    ok
  }

  /** A text matching the pattern has its first '@' at the split point. */
  lemma PatternHasShape(s: string, i: int)
    requires i == Seqs.FindIndex(s, IsAt)
    ensures EmailPattern(s) ==> 0 < i && PartCharsExcept(s, i) && InnerDotAfter(s, i)
  {
    if EmailPattern(s) {
      var a, b :| 0 < a && a + 1 < b < |s| - 1 && s[a] == '@' && s[b] == '.'
        && Part(s[..a]) && Part(s[a + 1..b]) && Part(s[b + 1..]);
      FirstAtSplits(s, i, a);
      PartsHaveNoOtherAt(s, a, b);
      assert InnerDotAfter(s, i) by {
        assert 0 <= b < |s| - 1 && i + 1 < b && s[b] == '.';
      }
    }
  }

  /** An '@' with no '@' in the part before it is the first one. */
  lemma FirstAtSplits(s: string, i: int, a: int)
    requires i == Seqs.FindIndex(s, IsAt)
    requires 0 < a < |s| && s[a] == '@' && Part(s[..a])
    ensures i == a
  {
    forall k | 0 <= k < a
      ensures !IsAt(s[k])
    {
      assert s[k] == s[..a][k];
    }
  }

  /** The three parts around '@' at a and '.' at b leave only the '@' outside the part characters. */
  lemma PartsHaveNoOtherAt(s: string, a: int, b: int)
    requires 0 < a && a + 1 < b < |s| - 1 && s[b] == '.'
    requires Part(s[..a]) && Part(s[a + 1..b]) && Part(s[b + 1..])
    ensures PartCharsExcept(s, a)
  {
    forall k | 0 <= k < |s| && k != a
      ensures PartChar(s[k])
    {
      if k < a {
        assert s[k] == s[..a][k];
      } else if k < b {
        assert s[k] == s[a + 1..b][k - a - 1];
      } else if k > b {
        assert s[k] == s[b + 1..][k - b - 1];
      }
    }
  }

  /** The direct test's conditions give the three parts of the pattern. */
  lemma ShapeIsPattern(s: string, i: int)
    requires i == Seqs.FindIndex(s, IsAt)
    ensures 0 < i && PartCharsExcept(s, i) && InnerDotAfter(s, i) ==> EmailPattern(s)
  {
    if 0 < i && PartCharsExcept(s, i) && InnerDotAfter(s, i) {
      var j :| 0 <= j < |s| - 1 && i + 1 < j && s[j] == '.';
      assert Part(s[..i]);
      assert Part(s[i + 1..j]);
      assert Part(s[j + 1..]);
    }
  }

  /** A well-formed address passes, and addresses missing a part fail. */
  lemma EmailExamples()
    ensures TestEmail("a@b.c")
    ensures !TestEmail("a@b")
    ensures !TestEmail("@b.c")
    ensures !TestEmail("a b@c.d")
  {
    var s := "a@b.c";
    assert s[1] == '@' && s[3] == '.' && s[..1] == "a" && s[2..3] == "b" && s[4..] == "c";
    assert EmailPattern(s);
    var t := "a b@c.d";
    assert IsSpace(t[1]);
  }

  // ---------------------------------------------------------------------
  // Validation and submission
  // ---------------------------------------------------------------------

  /** `validateForm`'s new flags. */
  function Validate(form: Form): (v: Flags)
    requires forall f :: f in FieldNames ==> f in form
    ensures v.Keys == FieldNames
    ensures v["username"] <==> |form["username"]| >= 3
    ensures v["email"] <==> EmailPattern(form["email"])
    ensures v["password"] <==> |form["password"]| >= 6
    ensures v["confirmPassword"] <==> form["password"] == form["confirmPassword"]
    ensures v["firstName"] <==> |form["firstName"]| > 0
    ensures v["lastName"] <==> |form["lastName"]| > 0
  {
    map["username" := |form["username"]| >= 3,
        "email" := TestEmail(form["email"]),
        "password" := |form["password"]| >= 6,
        "confirmPassword" := form["password"] == form["confirmPassword"],
        "firstName" := |form["firstName"]| > 0,
        "lastName" := |form["lastName"]| > 0]
  }

  /** `Object.values(newValidation).every(Boolean)`. */
  predicate AllValid(v: Flags)
  {
    forall f :: f in v ==> v[f]
  }

  /** The message under a field: shown exactly while its flag is false. */
  function HelperText(v: Flags, field: string): (r: Option<string>)
    requires field in FieldNames && field in v
    ensures r.Some? <==> !v[field]
  {
    if v[field] then None
    else Some(match field
      case "username" => "Username must be at least 3 characters"
      case "email" => "Please enter a valid email address"
      case "password" => "Password must be at least 6 characters"
      case "confirmPassword" => "Passwords do not match"
      case "firstName" => "First name is required"
      case _ => "Last name is required")
  }

  /** The object handed to `auth.register`: the five fields other than the confirmation. */
  function Registration(form: Form): (data: MockApi.Object)
    requires forall f :: f in FieldNames ==> f in form
    ensures data.Keys == FieldNames - {"confirmPassword"}
    ensures forall f :: f in data ==> data[f] == MockApi.JStr(form[f])
  {
    map f | f in FieldNames - {"confirmPassword"} :: MockApi.JStr(form[f])
  }

  /** What a submission leads to: the page (and store) afterwards, and whether it moved on to the login page. */
  datatype Submitted = Submitted(page: Page, store: MockApi.Store, toLogin: bool)

  const FixErrors := "Please fix the validation errors"

  /**
   * `handleSubmit`: invalid input only updates the flags and shows the fix
   * message; valid input registers, and either moves to the login page or
   * shows the rejection's message (`|| 'Failed to register'`).
   */
  function Submit(p: Page, st: MockApi.Store): (r: Submitted)
    requires WellFormed(p)
    ensures r.page.form == p.form && r.page.validation == Validate(p.form)
    ensures !AllValid(Validate(p.form)) ==> r == Submitted(r.page, st, false) && r.page.error == FixErrors
    ensures AllValid(Validate(p.form)) ==> var reg := MockApi.Register(st, Registration(p.form));
      (reg.Ok? ==> r.toLogin && r.store == reg.value && r.page.error == "")
      && (reg.Err? ==> !r.toLogin && r.store == st && r.page.error == reg.error.message)
  {
    var v := Validate(p.form);
    if !AllValid(v) then Submitted(Page(p.form, v, FixErrors), st, false)
    else
      match MockApi.Register(st, Registration(p.form))
      case Ok(st') => Submitted(Page(p.form, v, ""), st', true)
      case Err(f) => Submitted(Page(p.form, v, if |f.message| > 0 then f.message else "Failed to register"), st, false)
  }

  /** The form is accepted exactly when all six checks hold. */
  lemma AcceptedIffAllChecks(form: Form)
    requires forall f :: f in FieldNames ==> f in form
    ensures AllValid(Validate(form)) <==>
      |form["username"]| >= 3 && EmailPattern(form["email"]) && |form["password"]| >= 6
      && form["password"] == form["confirmPassword"] && |form["firstName"]| > 0 && |form["lastName"]| > 0
  {
    var v := Validate(form);
    if |form["username"]| >= 3 && EmailPattern(form["email"]) && |form["password"]| >= 6
      && form["password"] == form["confirmPassword"] && |form["firstName"]| > 0 && |form["lastName"]| > 0
    {
      forall f | f in v
        ensures v[f]
      {
        assert f in FieldNames;
      }
    }
  }

  /** Typing into a field after a failed submission hides that field's message and no other. */
  lemma TypingHidesMessage(p: Page, st: MockApi.Store, name: string, value: string, other: string)
    requires WellFormed(p) && name in FieldNames && other in FieldNames && other != name
    ensures var after := Change(Submit(p, st).page, name, value);
      HelperText(after.validation, name).None?
      && HelperText(after.validation, other) == HelperText(Validate(p.form), other)
  {
  }

  /**
   * A valid form whose username and e-mail are new registers a user who can
   * then sign in with the typed credentials, as an ordinary USER, when the
   * username is Latin-1 (the token encoding throws otherwise).
   */
  lemma SignUpThenSignIn(p: Page, st: MockApi.Store)
    requires WellFormed(p) && AllValid(Validate(p.form))
    requires MockApi.Latin1(p.form["username"])
    requires !MockApi.UsernameTaken(st.users, Registration(p.form)) && !MockApi.EmailTaken(st.users, Registration(p.form))
    ensures Submit(p, st).toLogin
    ensures var r := MockApi.Login(Submit(p, st).store, MockApi.JStr(p.form["username"]), MockApi.JStr(p.form["password"]));
      r.Ok? && r.value.1.token.role == MockApi.JStr("USER")
  {
    var data := Registration(p.form);
    RegistrationFields(p.form);
    assert MockApi.Register(st, data).Ok?;
    MockApi.RegisterThenLogin(st, data);
  }

  /** The registration data carries the typed username and password, and no id or role. */
  lemma RegistrationFields(form: Form)
    requires forall f :: f in FieldNames ==> f in form
    ensures var data := Registration(form);
      "role" !in data && "id" !in data
      && Field(data, "username") == MockApi.JStr(form["username"])
      && Field(data, "password") == MockApi.JStr(form["password"])
  {
    assert "role" !in FieldNames && "id" !in FieldNames;
  }
}
