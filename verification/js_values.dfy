/**
 * The few JavaScript value semantics the data-shaping code depends on.  A
 * record (one element of a `data` array) maps field names to values; a
 * missing field reads as `undefined`.
 */
module JsValues {
  import opened Wrappers
  import Calendar
  import Seqs

  /** A primitive JavaScript value; `NaN` is the one number that is not a real. */
  datatype Value = Num(n: real) | NaN | Str(s: string) | Bool(b: bool) | Null | Undefined

  type Record = map<string, Value>

  /** `record[key]`. */
  function Get(r: Record, key: string): Value
  {
    if key in r then r[key] else Undefined
  }

  /** `Number(v)`, with `None` for NaN; a string is read as `StringToNumber` reads it. */
  function ToNumber(v: Value): (r: Option<real>)
    ensures v.Num? ==> r == Some(v.n)
    ensures v.Undefined? ==> r.None?
    ensures v.Str? ==> r == StringToNumber(v.s)
  {
    match v
    case Num(x) => Some(x)
    case NaN => None
    case Str(s) => StringToNumber(s)
    case Bool(b) => Some(if b then 1.0 else 0.0)
    case Null => Some(0.0)
    case Undefined => None
  }

  /** The global `isNaN(v)`. */
  predicate IsNaN(v: Value)
  {
    ToNumber(v).None?
  }

  /** JavaScript truthiness. */
  predicate Truthy(v: Value)
  {
    match v
    case Num(x) => x != 0.0
    case NaN => false
    case Str(s) => |s| > 0
    case Bool(b) => b
    case Null => false
    case Undefined => false
  }

  /** `String(v)`; the decimal rendering of numbers is the platform's `numberText`. */
  function Text(v: Value, numberText: real -> string): string
  {
    match v
    case Num(x) => numberText(x)
    case NaN => "NaN"
    case Str(s) => s
    case Bool(b) => if b then "true" else "false"
    case Null => "null"
    case Undefined => "undefined"
  }

  /** `toLowerCase` on ASCII letters. */
  function LowerChar(c: char): (d: char)
    ensures 'A' <= c <= 'Z' ==> d != c
    ensures !('A' <= c <= 'Z') ==> d == c
  {
    if 'A' <= c <= 'Z' then (c as int + 32) as char else c
  }

  function Lower(s: string): (r: string)
    ensures |r| == |s| && forall i :: 0 <= i < |s| ==> r[i] == LowerChar(s[i])
  {
    seq(|s|, i requires 0 <= i < |s| => LowerChar(s[i]))
  }

  /** `s.includes(sub)`: sub is a prefix of some suffix of s. */
  predicate Includes(s: string, sub: string)
    decreases |s|
  {
    sub <= s || (|s| > 0 && Includes(s[1..], sub))
  }

  /** A match found at position k is a match of `includes`, and `includes` only reports real matches. */
  lemma {:induction false} IncludesAt(s: string, sub: string)
    ensures Includes(s, sub) <==> exists k :: 0 <= k <= |s| - |sub| && sub <= s[k..]
    decreases |s|
  {
    if sub <= s {
      assert s[0..] == s;
    } else if |s| > 0 {
      IncludesAt(s[1..], sub);
      if Includes(s, sub) {
        var k :| 0 <= k <= |s| - 1 - |sub| && sub <= s[1..][k..];
        assert s[1..][k..] == s[k + 1..];
      }
      if exists k :: 0 <= k <= |s| - |sub| && sub <= s[k..] {
        var k :| 0 <= k <= |s| - |sub| && sub <= s[k..];
        assert k != 0;
        assert s[1..][k - 1..] == s[k..];
      }
    }
  }

  /** The relational operators `<`: two strings compare by code units, anything else numerically, and NaN compares false. */
  predicate Less(a: Value, b: Value)
  {
    if a.Str? && b.Str? then StringLess(a.s, b.s)
    else
      var x, y := ToNumber(a), ToNumber(b);
      x.Some? && y.Some? && x.value < y.value
  }

  predicate StringLess(a: string, b: string)
    decreases |a|
  {
    if |a| == 0 then |b| > 0
    else if |b| == 0 then false
    else if a[0] != b[0] then a[0] < b[0]
    else StringLess(a[1..], b[1..])
  }

  /** Code-unit order is irreflexive. */
  lemma {:induction false} StringLessIrreflexive(a: string)
    ensures !StringLess(a, a)
    decreases |a|
  {
    if |a| > 0 {
      StringLessIrreflexive(a[1..]);
    }
  }

  /** Code-unit order is transitive. */
  lemma {:induction false} StringLessTransitive(a: string, b: string, c: string)
    requires StringLess(a, b) && StringLess(b, c)
    ensures StringLess(a, c)
    decreases |a|
  {
    if |a| > 0 && |b| > 0 && |c| > 0 && a[0] == b[0] && b[0] == c[0] {
      StringLessTransitive(a[1..], b[1..], c[1..]);
    }
  }

  /** Code-unit order is total on distinct strings. */
  lemma {:induction false} StringLessTotal(a: string, b: string)
    requires a != b
    ensures StringLess(a, b) || StringLess(b, a)
    decreases |a|
  {
    if |a| > 0 && |b| > 0 && a[0] == b[0] {
      assert a == [a[0]] + a[1..] && b == [b[0]] + b[1..];
      StringLessTotal(a[1..], b[1..]);
    }
  }

  /** Behind prefixes of equal length the order is decided by the prefixes, unless they are equal. */
  lemma {:induction false} StringLessConcat(a1: string, b1: string, a2: string, b2: string)
    requires |a1| == |a2|
    ensures StringLess(a1 + b1, a2 + b2) <==> StringLess(a1, a2) || (a1 == a2 && StringLess(b1, b2))
    decreases |a1|
  {
    if |a1| == 0 {
      assert a1 + b1 == b1 && a2 + b2 == b2;
    } else {
      assert (a1 + b1)[0] == a1[0] && (a2 + b2)[0] == a2[0];
      assert (a1 + b1)[1..] == a1[1..] + b1 && (a2 + b2)[1..] == a2[1..] + b2;
      assert a1 == [a1[0]] + a1[1..] && a2 == [a2[0]] + a2[1..];
      StringLessConcat(a1[1..], b1, a2[1..], b2);
    }
  }

  /** Appending one digit: the order of 10p + x against 10q + y is decided by p and q first. */
  lemma AppendDigitOrder(p: int, x: int, q: int, y: int)
    requires 0 <= x < 10 && 0 <= y < 10
    ensures p * 10 + x < q * 10 + y <==> p < q || (p == q && x < y)
    ensures p * 10 + x == q * 10 + y <==> p == q && x == y
  {
  }

  /** Digit strings of one length compare as text exactly as their values compare as numbers. */
  lemma {:induction false} DigitStringOrder(a: string, b: string)
    requires Calendar.IsDigits(a) && Calendar.IsDigits(b) && |a| == |b|
    ensures StringLess(a, b) <==> Calendar.ParseDigits(a) < Calendar.ParseDigits(b)
    ensures a == b <==> Calendar.ParseDigits(a) == Calendar.ParseDigits(b)
    decreases |a|
  {
    if |a| > 0 {
      var a', b' := a[..|a| - 1], b[..|b| - 1];
      var x, y := a[|a| - 1], b[|b| - 1];
      DigitStringOrder(a', b');
      assert a == a' + [x] && b == b' + [y];
      StringLessConcat(a', [x], b', [y]);
      assert StringLess([x], [y]) <==> x < y by {
        assert [x][1..] == [] && [y][1..] == [];
      }
      var p, q := Calendar.ParseDigits(a'), Calendar.ParseDigits(b');
      var dx, dy := Calendar.DigitValue(x), Calendar.DigitValue(y);
      assert Calendar.ParseDigits(a) == p * 10 + dx && Calendar.ParseDigits(b) == q * 10 + dy;
      AppendDigitOrder(p, dx, q, dy);
      assert x < y <==> dx < dy;
      assert x == y <==> dx == dy;
      assert a == b <==> a' == b' && x == y;
    }
  }

  /**
   * The binary `+`: string concatenation as soon as either side is a
   * string, numeric addition otherwise.
   */
  function Plus(a: Value, b: Value, numberText: real -> string): (r: Value)
    ensures a.Num? && b.Num? ==> r == Num(a.n + b.n)
  {
    if a.Str? || b.Str? then Str(Text(a, numberText) + Text(b, numberText))
    else
      var x, y := ToNumber(a), ToNumber(b);
      if x.Some? && y.Some? then Num(x.value + y.value) else NaN
  }

  /** `a <= b` in JavaScript is `!(a > b)` only when neither side is NaN; here both relations are written out. */
  predicate LessOrEqual(a: Value, b: Value)
  {
    if a.Str? && b.Str? then !StringLess(b.s, a.s)
    else
      var x, y := ToNumber(a), ToNumber(b);
      x.Some? && y.Some? && x.value <= y.value
  }

  /** A canonical array index: "0", or digits without a leading zero, below 2³² − 1. */
  predicate IsArrayIndex(k: string)
  {
    |k| > 0 && Calendar.IsDigits(k) && (k == "0" || k[0] != '0') && Calendar.ParseDigits(k) < 0xFFFF_FFFF
  }

  function IndexValue(k: string): real
  {
    if Calendar.IsDigits(k) then Calendar.ParseDigits(k) as real else 0.0
  }

  /**
   * The order of `Object.entries`: array-index keys first in ascending
   * numeric order, then the other keys in order of first insertion.
   */
  function EntryOrder(keys: seq<string>): (r: seq<string>)
    ensures multiset(r) == multiset(keys)
    ensures |r| == |keys|
    ensures forall k :: k in r <==> k in keys
  {
    var notIndex := (k: string) => !IsArrayIndex(k);
    var indices := Seqs.Filter(keys, IsArrayIndex);
    var others := Seqs.Filter(keys, notIndex);
    Seqs.FilterSplits(keys, IsArrayIndex, notIndex);
    var r := Seqs.SortByKey(indices, IndexValue) + others;
    assert |multiset(r)| == |r|;
    assert forall k :: k in r <==> k in multiset(r);
    r
  }

  // ---------------------------------------------------------------------
  // `Number(s)` on strings: StringToNumber, section 7.1.4.1.1 of ECMA-262
  // ---------------------------------------------------------------------

  /** `10^w`. */
  function Power10(w: nat): (p: nat)
    ensures p >= 1
  {
    if w == 0 then 1 else 10 * Power10(w - 1)
  }

  /** The text without its trailing white space. */
  function TrimEnd(s: string): (r: string)
    ensures |r| <= |s|
    ensures |r| > 0 ==> !IsSpace(r[|r| - 1])
  {
    if |s| > 0 && IsSpace(s[|s| - 1]) then TrimEnd(s[..|s| - 1]) else s
  }

  /** `s.trim()`: the text without white space at either end. */
  function Trim(s: string): string
  {
    TrimEnd(TrimStart(s))
  }

  /** The value of c as a digit in the given radix (2, 8, 10 or 16), if it is one; letters of either case count from 10. */
  function RadixDigit(c: char, radix: nat): (d: Option<nat>)
    ensures d.Some? ==> d.value < radix
    ensures '0' <= c <= '9' && (c as int) - ('0' as int) < radix ==> d == Some((c as int) - ('0' as int))
  {
    var v: int :=
      if '0' <= c <= '9' then (c as int) - ('0' as int)
      else if 'a' <= c <= 'z' then (c as int) - ('a' as int) + 10
      else if 'A' <= c <= 'Z' then (c as int) - ('A' as int) + 10
      else radix;
    if 0 <= v < radix then Some(v) else None
  }

  predicate IsRadixDigits(s: string, radix: nat)
  {
    forall i :: 0 <= i < |s| ==> RadixDigit(s[i], radix).Some?
  }

  /** The number the digits spell in the radix, most significant first. */
  function RadixValue(s: string, radix: nat): nat
    requires IsRadixDigits(s, radix)
  {
    if |s| == 0 then 0 else RadixValue(s[..|s| - 1], radix) * radix + RadixDigit(s[|s| - 1], radix).value
  }

  /** The position of the first character of s in marks, or |s| when there is none. */
  function FirstMark(s: string, marks: set<char>): (k: nat)
    ensures k <= |s|
    ensures k < |s| ==> s[k] in marks
    ensures forall i :: 0 <= i < k ==> s[i] !in marks
  {
    if |s| == 0 || s[0] in marks then 0 else FirstMark(s[1..], marks) + 1
  }

  /** The radix a `0x`, `0o` or `0b` prefix (either case) announces, or 10 when there is none. */
  function PrefixRadix(t: string): (radix: nat)
    ensures radix in {2, 8, 10, 16}
  {
    if |t| >= 2 && t[0] == '0' then
      if t[1] in {'x', 'X'} then 16
      else if t[1] in {'o', 'O'} then 8
      else if t[1] in {'b', 'B'} then 2
      else 10
    else 10
  }

  /**
   * `Number(s)`.  White space around the text is ignored and blank text is 0.
   * A `0x`, `0o` or `0b` prefix reads hexadecimal, octal or binary digits,
   * with no sign allowed.  Anything else must be a decimal literal: an
   * optional sign, digits with an optional fraction, and an optional
   * exponent.  Every other text is NaN (`None`), and so is `Infinity`,
   * which no real can hold.
   */
  function StringToNumber(s: string): (r: Option<real>)
  {
    ReadTrimmed(Trim(s))
  }

  /** `StringToNumber` on text with no white space at either end. */
  function ReadTrimmed(t: string): (r: Option<real>)
  {
    var radix := PrefixRadix(t);
    if |t| == 0 then Some(0.0)
    else if radix != 10 then
      var ds := t[2..];
      if |ds| > 0 && IsRadixDigits(ds, radix) then Some(RadixValue(ds, radix) as real) else None
    else if t[0] == '-' then
      var u := UnsignedDecimal(t[1..]);
      if u.Some? then Some(-u.value) else None
    else if t[0] == '+' then UnsignedDecimal(t[1..])
    else UnsignedDecimal(t)
  }

  /** A decimal literal without a sign: a mantissa and an optional exponent after `e` or `E`. */
  function UnsignedDecimal(t: string): (r: Option<real>)
  {
    var k := FirstMark(t, {'e', 'E'});
    if k == |t| then Mantissa(t)
    else
      var mantissa := Mantissa(t[..k]);
      var exponent := SignedInteger(t[k + 1..]);
      if mantissa.Some? && exponent.Some? then Some(ScaleByPower(mantissa.value, exponent.value)) else None
  }

  /** Digits with an optional point and fraction digits; at least one digit on either side of the point. */
  function Mantissa(m: string): (r: Option<real>)
  {
    var p := FirstMark(m, {'.'});
    if p == |m| then
      if |m| > 0 && Calendar.IsDigits(m) then Some(Calendar.ParseDigits(m) as real) else None
    else
      var whole, fraction := m[..p], m[p + 1..];
      if |whole| + |fraction| > 0 && Calendar.IsDigits(whole) && Calendar.IsDigits(fraction) then
        Some(DecimalValue(Calendar.ParseDigits(whole), Calendar.ParseDigits(fraction), |fraction|))
      else None
  }

  /** The number `whole.fraction` whose fraction is written with `width` digits. */
  function DecimalValue(whole: nat, fraction: nat, width: nat): real
  {
    whole as real + (fraction as real) / (Power10(width) as real)
  }

  /** An exponent: an optional sign and at least one digit. */
  function SignedInteger(e: string): (r: Option<int>)
  {
    var negative := |e| > 0 && e[0] == '-';
    var digits := if |e| > 0 && e[0] in {'-', '+'} then e[1..] else e;
    if |digits| > 0 && Calendar.IsDigits(digits) then
      var n: int := Calendar.ParseDigits(digits);
      Some(if negative then -n else n)
    else None
  }

  /** `x * 10^e` for a whole exponent of either sign. */
  function ScaleByPower(x: real, e: int): real
  {
    if e >= 0 then x * (Power10(e) as real) else x / (Power10(-e) as real)
  }

  /** Text made only of white space reads as 0. */
  lemma BlankReadsAsZero(s: string)
    requires forall i :: 0 <= i < |s| ==> IsSpace(s[i])
    ensures StringToNumber(s) == Some(0.0)
  {
    BlankTrimsAway(s);
  }

  lemma {:induction false} BlankTrimsAway(s: string)
    requires forall i :: 0 <= i < |s| ==> IsSpace(s[i])
    ensures TrimStart(s) == ""
    decreases |s|
  {
    if |s| > 0 {
      BlankTrimsAway(s[1..]);
    }
  }

  /** White space on either side of a text with non-blank ends does not change the number it reads as. */
  lemma SpaceAroundIgnored(before: string, s: string, after: string)
    requires forall i :: 0 <= i < |before| ==> IsSpace(before[i])
    requires forall i :: 0 <= i < |after| ==> IsSpace(after[i])
    requires |s| > 0 && !IsSpace(s[0]) && !IsSpace(s[|s| - 1])
    ensures StringToNumber(before + s + after) == StringToNumber(s)
  {
    LeadingSpaceTrimmed(before, s + after);
    assert before + s + after == before + (s + after);
    TrailingSpaceTrimmed(s, after);
    assert Trim(before + s + after) == s;
    assert TrimStart(s) == s;
    assert TrimEnd(s) == s;
  }

  lemma {:induction false} LeadingSpaceTrimmed(before: string, s: string)
    requires forall i :: 0 <= i < |before| ==> IsSpace(before[i])
    requires |s| > 0 && !IsSpace(s[0])
    ensures TrimStart(before + s) == s
    decreases |before|
  {
    if |before| > 0 {
      assert (before + s)[1..] == before[1..] + s;
      LeadingSpaceTrimmed(before[1..], s);
    } else {
      assert before + s == s;
    }
  }

  lemma {:induction false} TrailingSpaceTrimmed(s: string, after: string)
    requires forall i :: 0 <= i < |after| ==> IsSpace(after[i])
    requires |s| > 0 && !IsSpace(s[|s| - 1])
    ensures TrimEnd(s + after) == s
    decreases |after|
  {
    if |after| > 0 {
      assert (s + after)[..|s + after| - 1] == s + after[..|after| - 1];
      TrailingSpaceTrimmed(s, after[..|after| - 1]);
    } else {
      assert s + after == s;
    }
  }

  /** A text that starts and ends with something other than white space is its own trimmed form. */
  lemma TrimmedText(s: string)
    requires |s| > 0 && !IsSpace(s[0]) && !IsSpace(s[|s| - 1])
    ensures Trim(s) == s
  {
  }

  /** A digit is neither white space, a sign, a point nor an exponent mark. */
  lemma DigitIsPlain(c: char)
    requires '0' <= c <= '9'
    ensures !IsSpace(c) && c !in {'-', '+', '.', 'e', 'E', 'x', 'X', 'o', 'O', 'b', 'B'}
  {
  }

  /** A run of decimal digits holds no mark of any kind. */
  lemma DigitsHaveNoMark(d: string, marks: set<char>)
    requires Calendar.IsDigits(d)
    requires forall c :: c in marks ==> !('0' <= c <= '9')
    ensures FirstMark(d, marks) == |d|
  {
  }

  /** A text that starts with a digit, is not a `0x`, `0o` or `0b` literal and has no white space at its end is read as an unsigned decimal. */
  lemma LeadingDigitReadsDecimal(t: string)
    requires |t| > 0 && '0' <= t[0] <= '9' && !IsSpace(t[|t| - 1])
    requires |t| >= 2 ==> t[1] !in {'x', 'X', 'o', 'O', 'b', 'B'}
    ensures StringToNumber(t) == UnsignedDecimal(t)
  {
    DigitIsPlain(t[0]);
    TrimmedText(t);
  }

  /** Decimal digits read as the number they spell. */
  lemma DigitsRead(d: string)
    requires |d| > 0 && Calendar.IsDigits(d)
    ensures StringToNumber(d) == Some(Calendar.ParseDigits(d) as real)
  {
    DigitIsPlain(d[|d| - 1]);
    if |d| >= 2 {
      DigitIsPlain(d[1]);
    }
    LeadingDigitReadsDecimal(d);
    UnsignedDigits(d);
  }

  /** A decimal literal without point or exponent is the number its digits spell. */
  lemma UnsignedDigits(d: string)
    requires |d| > 0 && Calendar.IsDigits(d)
    ensures UnsignedDecimal(d) == Some(Calendar.ParseDigits(d) as real)
  {
    DigitsHaveNoMark(d, {'e', 'E'});
    MantissaOfDigits(d);
  }

  /** Digits without a point are a mantissa with no fraction. */
  lemma MantissaOfDigits(d: string)
    requires |d| > 0 && Calendar.IsDigits(d)
    ensures Mantissa(d) == Some(Calendar.ParseDigits(d) as real)
  {
    DigitsHaveNoMark(d, {'.'});
  }

  /** A minus sign in front of digits negates the number they spell. */
  lemma NegativeDigitsRead(d: string)
    requires |d| > 0 && Calendar.IsDigits(d)
    ensures StringToNumber("-" + d) == Some(-(Calendar.ParseDigits(d) as real))
  {
    var t := "-" + d;
    SignedIsTrimmed(d);
    MinusNegates(t);
    assert t[1..] == d;
    UnsignedDigits(d);
  }

  /** A leading minus sign negates the unsigned decimal that follows it. */
  lemma MinusNegates(t: string)
    requires |t| > 0 && t[0] == '-'
    ensures ReadTrimmed(t) == (var u := UnsignedDecimal(t[1..]); if u.Some? then Some(-u.value) else None)
  {
    assert PrefixRadix(t) == 10;
  }

  lemma SignedIsTrimmed(d: string)
    requires |d| > 0 && Calendar.IsDigits(d)
    ensures Trim("-" + d) == "-" + d
  {
    var t := "-" + d;
    DigitIsPlain(d[|d| - 1]);
    assert t[|t| - 1] == d[|d| - 1];
    TrimmedText(t);
  }

  /** Digits, a point and fraction digits read as the whole part plus the fraction over its power of ten. */
  lemma FractionRead(whole: string, fraction: string)
    requires |whole| > 0 && |fraction| > 0 && Calendar.IsDigits(whole) && Calendar.IsDigits(fraction)
    ensures StringToNumber(whole + "." + fraction) ==
      Some(DecimalValue(Calendar.ParseDigits(whole), Calendar.ParseDigits(fraction), |fraction|))
  {
    var t := whole + "." + fraction;
    assert t[0] == whole[0] && t[|t| - 1] == fraction[|fraction| - 1];
    DigitIsPlain(fraction[|fraction| - 1]);
    if |whole| >= 2 {
      assert t[1] == whole[1];
      DigitIsPlain(whole[1]);
    } else {
      assert t[1] == '.';
    }
    LeadingDigitReadsDecimal(t);
    FractionHasNoExponent(whole, fraction);
    FractionMantissa(whole, fraction);
  }

  lemma FractionHasNoExponent(whole: string, fraction: string)
    requires Calendar.IsDigits(whole) && Calendar.IsDigits(fraction)
    ensures FirstMark(whole + "." + fraction, {'e', 'E'}) == |whole + "." + fraction|
  {
    var t := whole + "." + fraction;
    assert forall i :: 0 <= i < |t| ==> t[i] == '.' || '0' <= t[i] <= '9';
  }

  lemma FractionMantissa(whole: string, fraction: string)
    requires Calendar.IsDigits(whole) && Calendar.IsDigits(fraction) && |whole| + |fraction| > 0
    ensures Mantissa(whole + "." + fraction) ==
      Some(DecimalValue(Calendar.ParseDigits(whole), Calendar.ParseDigits(fraction), |fraction|))
  {
    var t := whole + "." + fraction;
    MarkAfter(whole, '.', fraction, {'.'});
    assert t[..|whole|] == whole;
    assert t[|whole| + 1..] == fraction;
  }

  /** In digits followed by a mark character and more text, the first mark is at or after the digits. */
  lemma MarkAfter(d: string, c: char, rest: string, marks: set<char>)
    requires Calendar.IsDigits(d)
    requires forall x :: x in marks ==> !('0' <= x <= '9')
    ensures FirstMark(d + [c] + rest, marks) >= |d|
    ensures c in marks ==> FirstMark(d + [c] + rest, marks) == |d|
  {
    var t := d + [c] + rest;
    assert forall i :: 0 <= i < |d| ==> t[i] == d[i];
    if c in marks {
      assert t[|d|] == c;
    }
  }

  /** Digits, an exponent mark and exponent digits read as the digits' number times ten to the exponent. */
  lemma ExponentRead(d: string, e: string)
    requires |d| > 0 && |e| > 0 && Calendar.IsDigits(d) && Calendar.IsDigits(e)
    ensures StringToNumber(d + "e" + e) == Some(ScaleByPower(Calendar.ParseDigits(d) as real, Calendar.ParseDigits(e)))
  {
    var t := d + "e" + e;
    assert t[0] == d[0] && t[|t| - 1] == e[|e| - 1];
    DigitIsPlain(e[|e| - 1]);
    if |d| >= 2 {
      assert t[1] == d[1];
      DigitIsPlain(d[1]);
    } else {
      assert t[1] == 'e';
    }
    LeadingDigitReadsDecimal(t);
    ExponentSplits(d, e);
  }

  lemma ExponentSplits(d: string, e: string)
    requires |d| > 0 && |e| > 0 && Calendar.IsDigits(d) && Calendar.IsDigits(e)
    ensures UnsignedDecimal(d + "e" + e) == Some(ScaleByPower(Calendar.ParseDigits(d) as real, Calendar.ParseDigits(e)))
  {
    var t := d + "e" + e;
    MarkAfter(d, 'e', e, {'e', 'E'});
    assert t[..|d|] == d;
    assert t[|d| + 1..] == e;
    MantissaOfDigits(d);
    DigitIsPlain(e[0]);
    assert SignedInteger(e) == Some(Calendar.ParseDigits(e) as int);
  }

  /** `0x` followed by hexadecimal digits reads as the number they spell in base 16. */
  lemma HexRead(h: string)
    requires |h| > 0 && IsRadixDigits(h, 16)
    ensures StringToNumber("0x" + h) == Some(RadixValue(h, 16) as real)
  {
    var t := "0x" + h;
    HexIsTrimmed(h);
    assert t[2..] == h;
    assert PrefixRadix(t) == 16;
  }

  lemma HexIsTrimmed(h: string)
    requires |h| > 0 && IsRadixDigits(h, 16)
    ensures Trim("0x" + h) == "0x" + h
  {
    var t := "0x" + h;
    assert RadixDigit(h[|h| - 1], 16).Some?;
    assert t[|t| - 1] == h[|h| - 1];
    TrimmedText(t);
  }

    /** A decimal fraction: `Number("2.5")` is 2.5. */
  lemma FractionExample()
    ensures StringToNumber("2.5") == Some(2.5)
  {
    OneDigitFraction('2', '5');
    assert ['2', '.', '5'] == "2.5";
  }

  /** One digit, a point and one digit read as a number with one decimal place. */
  lemma OneDigitFraction(w: char, f: char)
    requires '0' <= w <= '9' && '0' <= f <= '9'
    ensures StringToNumber([w, '.', f]) == Some(Calendar.DigitValue(w) as real + Calendar.DigitValue(f) as real / 10.0)
  {
    OneDigit(w);
    OneDigit(f);
    FractionRead([w], [f]);
    assert [w] + "." + [f] == [w, '.', f];
    TenthsValue(Calendar.DigitValue(w), Calendar.DigitValue(f));
  }

  /** A single digit character reads as its digit value. */
  lemma OneDigit(c: char)
    requires '0' <= c <= '9'
    ensures Calendar.IsDigits([c]) && Calendar.ParseDigits([c]) == Calendar.DigitValue(c)
  {
    assert [c][..0] == [];
  }

  lemma TenthsValue(a: nat, b: nat)
    ensures DecimalValue(a, b, 1) == a as real + b as real / 10.0
  {
    assert Power10(1) == 10;
  }

  /** A signed integer: `Number("-1")` is -1. */
  lemma NegativeExample()
    ensures StringToNumber("-1") == Some(-1.0)
  {
    OneDigit('1');
    NegativeDigitsRead("1");
  }

  /** Surrounding blanks are ignored: `Number(" 3 ")` is 3. */
  lemma PaddedExample()
    ensures StringToNumber(" 3 ") == Some(3.0)
  {
    OneDigit('3');
    DigitsRead("3");
    SpaceAroundIgnored(" ", "3", " ");
    assert " " + "3" + " " == " 3 ";
  }

  /** An exponent scales by a power of ten: `Number("1e3")` is 1000. */
  lemma ExponentExample()
    ensures StringToNumber("1e3") == Some(1000.0)
  {
    OneDigit('1');
    OneDigit('3');
    ExponentRead("1", "3");
    assert "1" + "e" + "3" == "1e3";
    assert Power10(3) == 1000;
  }

  /** A hexadecimal literal: `Number("0x1F")` is 31. */
  lemma HexExample()
    ensures StringToNumber("0x1F") == Some(31.0)
  {
    HexDigitsOneF();
    HexRead("1F");
    assert "0x" + "1F" == "0x1F";
  }

  /** The empty string is zero and a unit suffix makes the text NaN. */
  lemma EmptyAndSuffixExamples()
    ensures StringToNumber("") == Some(0.0)
    ensures StringToNumber("12px") == None
  {
    TwelvePixels();
  }

  lemma HexDigitsOneF()
    ensures IsRadixDigits("1F", 16) && RadixValue("1F", 16) == 31
  {
    assert RadixDigit('1', 16) == Some(1);
    assert RadixDigit('F', 16) == Some(15);
    assert "1F"[..1] == "1" && "1"[..0] == "";
  }

  lemma TwelvePixels()
    ensures StringToNumber("12px") == None
  {
    var t := "12px";
    assert !IsSpace(t[0]) && !IsSpace(t[3]);
    TrimmedText(t);
    assert PrefixRadix(t) == 10;
    assert FirstMark(t, {'e', 'E'}) == 4;
    assert !Calendar.IsDigits(t[..FirstMark(t, {'.'})]) by {
      assert FirstMark(t, {'.'}) == 4;
      assert t[..4][2] == 'p';
    }
  }

  // ---------------------------------------------------------------------
  // `parseInt` in base 10
  // ---------------------------------------------------------------------

  /**
   * ECMAScript white space and line terminators: what `parseInt` skips and
   * what `\s` matches in a regular expression.
   */
  predicate IsSpace(c: char)
  {
    c in {' ', '\t', '\n', '\r', '\U{000B}', '\U{000C}', '\U{00A0}', '\U{1680}', '\U{2028}', '\U{2029}',
          '\U{202F}', '\U{205F}', '\U{3000}', '\U{FEFF}'}
    || '\U{2000}' <= c <= '\U{200A}'
  }

  /** The text after its leading white space. */
  function TrimStart(s: string): (r: string)
    ensures |r| <= |s|
    ensures |r| > 0 ==> !IsSpace(r[0])
  {
    if |s| > 0 && IsSpace(s[0]) then TrimStart(s[1..]) else s
  }

  /** The length of the longest run of decimal digits at the start of s. */
  function DigitRun(s: string): (n: nat)
    ensures n <= |s| && Calendar.IsDigits(s[..n])
    ensures n < |s| ==> !('0' <= s[n] <= '9')
  {
    if |s| > 0 && '0' <= s[0] <= '9' then
      var n := DigitRun(s[1..]);
      assert s[..n + 1] == [s[0]] + s[1..][..n];
      n + 1
    else 0
  }

  /**
   * `parseInt(s)` without a radix: leading white space and one sign are
   * skipped; a `0x` or `0X` prefix then selects base 16, otherwise base
   * 10, and the longest run of digits of that base that follows is read.
   * No digits is NaN (`None`).
   */
  function ParseInt(s: string): (r: Option<int>)
    ensures var u := Unsigned(TrimStart(s));
      r.None? <==> if HexPrefixed(u) then RadixRun(u[2..], 16) == 0 else DigitRun(u) == 0
  {
    var t := TrimStart(s);
    var u := Unsigned(t);
    var negative := |t| > 0 && t[0] == '-';
    if HexPrefixed(u) then
      var h := u[2..];
      var n := RadixRun(h, 16);
      if n == 0 then None
      else
        var m: int := RadixValue(h[..n], 16);
        Some(if negative then -m else m)
    else
      var n := DigitRun(u);
      if n == 0 then None
      else
        var m: int := Calendar.ParseDigits(u[..n]);
        Some(if negative then -m else m)
  }

  /** Text that starts with `0x` or `0X`. */
  predicate HexPrefixed(u: string)
  {
    |u| >= 2 && u[0] == '0' && u[1] in {'x', 'X'}
  }

  /** The length of the longest run of digits of the radix at the start of s. */
  function RadixRun(s: string, radix: nat): (n: nat)
    ensures n <= |s| && IsRadixDigits(s[..n], radix)
    ensures n < |s| ==> RadixDigit(s[n], radix).None?
  {
    if |s| > 0 && RadixDigit(s[0], radix).Some? then
      var n := RadixRun(s[1..], radix);
      assert s[..n + 1] == [s[0]] + s[1..][..n];
      n + 1
    else 0
  }

  /** A string of digits of the radix is one run. */
  lemma {:induction false} RadixRunOfDigits(s: string, radix: nat)
    requires IsRadixDigits(s, radix)
    ensures RadixRun(s, radix) == |s|
  {
    if |s| > 0 {
      RadixRunOfDigits(s[1..], radix);
    }
  }

  /** `0x` followed by hexadecimal digits reads as the number they spell in base 16, as `Number` reads it. */
  lemma ParseIntOfHex(h: string)
    requires |h| > 0 && IsRadixDigits(h, 16)
    ensures ParseInt("0x" + h) == Some(RadixValue(h, 16))
    ensures StringToNumber("0x" + h) == Some(ParseInt("0x" + h).value as real)
  {
    var t := "0x" + h;
    assert !IsSpace(t[0]) && t[0] !in {'-', '+'};
    assert TrimStart(t) == t && Unsigned(t) == t;
    assert t[2..] == h;
    RadixRunOfDigits(h, 16);
    assert h[..|h|] == h;
    HexRead(h);
  }

  /** `parseInt("0x")` finds no hexadecimal digit and is NaN. */
  lemma ParseIntOfBarePrefix()
    ensures ParseInt("0x").None?
  {
    assert TrimStart("0x") == "0x" by {
      assert !IsSpace('0');
    }
  }

  /** The text after an optional leading sign. */
  function Unsigned(t: string): (u: string)
    ensures |t| > 0 && t[0] in {'-', '+'} ==> u == t[1..]
    ensures !(|t| > 0 && t[0] in {'-', '+'}) ==> u == t
  {
    if |t| > 0 && (t[0] == '-' || t[0] == '+') then t[1..] else t
  }

  /** A string of digits is one run of digits. */
  lemma {:induction false} DigitRunOfDigits(s: string)
    requires Calendar.IsDigits(s)
    ensures DigitRun(s) == |s|
  {
    if |s| > 0 {
      DigitRunOfDigits(s[1..]);
    }
  }

  /** The decimal rendering of a natural number reads back as that number. */
  lemma ParseIntOfDigits(n: nat)
    ensures ParseInt(Calendar.Digits(n)) == Some(n)
  {
    var d := Calendar.Digits(n);
    Calendar.DigitsRoundTrip(n);
    ParseIntOfDigitText(d);
  }

  /** A non-empty run of digits reads as the number it spells. */
  lemma ParseIntOfDigitText(d: string)
    requires |d| > 0 && Calendar.IsDigits(d)
    ensures ParseInt(d) == Some(Calendar.ParseDigits(d) as int)
  {
    DigitRunOfDigits(d);
    assert '0' <= d[0] <= '9';
    assert !IsSpace(d[0]) && d[0] !in {'-', '+'};
    assert TrimStart(d) == d;
    assert Unsigned(d) == d;
    assert !HexPrefixed(d) by {
      if |d| >= 2 {
        assert '0' <= d[1] <= '9';
      }
    }
    assert d[..|d|] == d;
  }

  /** A minus sign in front of the digits negates the number read. */
  lemma ParseIntOfNegative(n: nat)
    ensures ParseInt("-" + Calendar.Digits(n)).Some?
    ensures ParseInt("-" + Calendar.Digits(n)).value == -(n as int)
  {
    var d := Calendar.Digits(n);
    Calendar.DigitsRoundTrip(n);
    DigitRunOfDigits(d);
    assert d[..|d|] == d;
    var m := "-" + d;
    assert !IsSpace(m[0]);
    assert TrimStart(m) == m;
    assert Unsigned(m) == d;
    assert !HexPrefixed(d) by {
      if |d| >= 2 {
        assert '0' <= d[1] <= '9';
      }
    }
  }

  // ---------------------------------------------------------------------
  // Nested data: arrays and plain objects
  // ---------------------------------------------------------------------

  /** A value as it arrives from an API response: a primitive, an array or a plain object. */
  datatype Json = Prim(v: Value) | Arr(items: seq<Json>) | Obj(fields: map<string, Json>)

  const Undef: Json := Prim(Undefined)

  /** Truthiness: arrays and objects are always truthy. */
  predicate JsonTruthy(j: Json)
  {
    match j
    case Prim(v) => Truthy(v)
    case _ => true
  }

  /** `a || b`. */
  function OrElse(a: Json, b: Json): (r: Json)
    ensures JsonTruthy(a) ==> r == a
    ensures !JsonTruthy(a) ==> r == b
  {
    if JsonTruthy(a) then a else b
  }

  predicate IsNullish(j: Json)
  {
    j == Prim(Null) || j == Undef
  }

  /**
   * `a === b`.  NaN equals nothing, not even itself; arrays and objects are
   * compared by their contents here, not by identity.
   */
  predicate StrictEq(a: Json, b: Json)
  {
    a == b && a != Prim(NaN)
  }

  /** The relational `<` on values: primitives as `Less` does; an array or object never compares below anything here. */
  predicate JsonLess(a: Json, b: Json)
  {
    a.Prim? && b.Prim? && Less(a.v, b.v)
  }

  predicate JsonLessOrEqual(a: Json, b: Json)
  {
    a.Prim? && b.Prim? && LessOrEqual(a.v, b.v)
  }

  /** `o.key` on a plain object: the field, or `undefined`. */
  function Field(o: map<string, Json>, key: string): (r: Json)
    ensures key in o ==> r == o[key]
    ensures key !in o ==> r == Undef
  {
    if key in o then o[key] else Undef
  }

  /**
   * `j.key`: a TypeError on null and undefined; otherwise an own property
   * (an object's field, an array's element or a string's character under its
   * decimal index, or the `length` of an array or string), else `undefined`.
   * Properties inherited from prototypes are not modelled.
   */
  function Member(j: Json, key: string): (r: Result<Json, string>)
    ensures r.Err? <==> IsNullish(j)
    ensures j.Obj? && key !in j.fields ==> r == Ok(Undef)
    ensures j.Obj? && key in j.fields ==> r == Ok(j.fields[key])
    ensures !IsNullish(j) && key in Spread(j) ==> r == Ok(Spread(j)[key])
    ensures !IsNullish(j) && key !in Spread(j) && key != "length" ==> r == Ok(Undef)
  {
    if IsNullish(j) then Err("TypeError: Cannot read properties of " + (if j == Undef then "undefined" else "null"))
    else if key in Spread(j) then Ok(Spread(j)[key])
    else if key == "length" && j.Arr? then Ok(Prim(Num(|j.items| as real)))
    else if key == "length" && j.Prim? && j.v.Str? then Ok(Prim(Num(|j.v.s| as real)))
    else Ok(Undef)
  }

  /** `j?.key`: undefined instead of a TypeError. */
  function OptMember(j: Json, key: string): (r: Json)
    ensures IsNullish(j) ==> r == Undef
    ensures !IsNullish(j) ==> r == Member(j, key).value
  {
    if IsNullish(j) then Undef else Member(j, key).value
  }

  /** `j?.[i]`: an array element, an object field named by the decimal index, a character of a string, or undefined. */
  function At(j: Json, i: nat): (r: Json)
    ensures j.Arr? && i < |j.items| ==> r == j.items[i]
    ensures j.Arr? && i >= |j.items| ==> r == Undef
    ensures IsNullish(j) ==> r == Undef
  {
    match j
    case Arr(items) => if i < |items| then items[i] else Undef
    case Obj(fields) => if Calendar.Digits(i) in fields then fields[Calendar.Digits(i)] else Undef
    case Prim(v) => if v.Str? && i < |v.s| then Prim(Str([v.s[i]])) else Undef
  }

  /**
   * The own enumerable fields `...x` copies from x: the fields of a plain
   * object; an array's elements and a string's characters under their
   * decimal indices; nothing from null, undefined, numbers and booleans.
   */
  function Spread(j: Json): (r: map<string, Json>)
    ensures j.Obj? ==> r == j.fields
    ensures j.Prim? && !j.v.Str? ==> r == map[]
    ensures j.Arr? ==> forall i :: 0 <= i < |j.items| ==> Calendar.Digits(i) in r && r[Calendar.Digits(i)] == j.items[i]
    ensures j.Arr? ==> forall k :: k in r ==> exists i :: 0 <= i < |j.items| && k == Calendar.Digits(i)
    ensures j.Prim? && j.v.Str? ==> forall i :: 0 <= i < |j.v.s| ==> Calendar.Digits(i) in r && r[Calendar.Digits(i)] == Prim(Str([j.v.s[i]]))
    ensures j.Prim? && j.v.Str? ==> forall k :: k in r ==> exists i :: 0 <= i < |j.v.s| && k == Calendar.Digits(i)
  {
    match j
    case Obj(fields) => fields
    case Arr(items) => IndexMap(items)
    case Prim(v) =>
      if v.Str? then IndexMap(seq(|v.s|, i requires 0 <= i < |v.s| => Prim(Str([v.s[i]])))) else map[]
  }

  /** Elements keyed by their decimal indices. */
  function IndexMap(items: seq<Json>): (r: map<string, Json>)
    ensures forall i :: 0 <= i < |items| ==> Calendar.Digits(i) in r && r[Calendar.Digits(i)] == items[i]
    ensures forall k :: k in r ==> exists i :: 0 <= i < |items| && k == Calendar.Digits(i)
    decreases |items|
  {
    if |items| == 0 then map[]
    else
      var n := |items| - 1;
      var init := IndexMap(items[..n]);
      var key := Calendar.Digits(n);
      assert key !in init by {
        forall i | 0 <= i < n
          ensures Calendar.Digits(i) != key
        {
          DigitsInjective(i, n);
        }
      }
      var r := init[key := items[n]];
      assert forall i :: 0 <= i < |items| ==> Calendar.Digits(i) in r && r[Calendar.Digits(i)] == items[i] by {
        forall i | 0 <= i < |items|
          ensures Calendar.Digits(i) in r && r[Calendar.Digits(i)] == items[i]
        {
          if i < n {
            var k := Calendar.Digits(i);
            assert k in init && init[k] == items[..n][i] == items[i];
            assert k != key;
          } else {
            assert i == n && r[key] == items[n];
          }
        }
      }
      assert forall k :: k in r ==> exists i :: 0 <= i < |items| && k == Calendar.Digits(i) by {
        forall k | k in r && k != key
          ensures exists i :: 0 <= i < |items| && k == Calendar.Digits(i)
        {
          var i :| 0 <= i < n && k == Calendar.Digits(i);
          assert 0 <= i < |items|;
        }
      }
      r
  }

  /** Different numbers have different decimal texts. */
  lemma DigitsInjective(a: nat, b: nat)
    ensures Calendar.Digits(a) == Calendar.Digits(b) ==> a == b
  {
    Calendar.DigitsRoundTrip(a);
    Calendar.DigitsRoundTrip(b);
  }

  /** `arr.join(sep)` of strings. */
  function Join(parts: seq<string>, sep: string): string
  {
    if |parts| == 0 then ""
    else if |parts| == 1 then parts[0]
    else Join(parts[..|parts| - 1], sep) + sep + parts[|parts| - 1]
  }

  /** `String(j)`, which is also the property key j becomes in `acc[j]`. */
  function JsonText(j: Json, numberText: real -> string): string
    decreases j
  {
    match j
    case Prim(v) => Text(v, numberText)
    case Obj(_) => "[object Object]"
    case Arr(items) =>
      Join(seq(|items|, i requires 0 <= i < |items| =>
        if IsNullish(items[i]) then "" else JsonText(items[i], numberText)), ",")
  }
}
