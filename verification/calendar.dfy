/**
 * Java's `LocalDateTime` reduced to what the services use.  A timestamp is a
 * whole number of seconds since 1970-01-01T00:00 in the server's local time
 * (nanoseconds are not modelled); dates follow the proleptic Gregorian
 * calendar as `java.time` does.
 */
module Calendar {
  import opened Wrappers
  import Seqs

  type Timestamp = int

  const SecondsPerDay: int := 86400
  const SecondsPerHour: int := 3600

  predicate IsLeapYear(y: int)
  {
    y % 4 == 0 && (y % 100 != 0 || y % 400 == 0)
  }

  function YearLength(y: int): (n: int)
    ensures n == 365 || n == 366
  {
    if IsLeapYear(y) then 366 else 365
  }

  function DaysInMonth(y: int, m: int): (n: int)
    requires 1 <= m <= 12
    ensures 28 <= n <= 31
  {
    if m == 2 then (if IsLeapYear(y) then 29 else 28)
    else if m == 4 || m == 6 || m == 9 || m == 11 then 30
    else 31
  }

  /** Days in the months of year y before month m. */
  function DaysBeforeMonth(y: int, m: int): (n: int)
    requires 1 <= m <= 12
    ensures 0 <= n
  {
    [0, 31, 59, 90, 120, 151, 181, 212, 243, 273, 304, 334][m - 1]
      + (if IsLeapYear(y) && m > 2 then 1 else 0)
  }

  lemma DaysBeforeMonthStep(y: int, m: int)
    requires 1 <= m <= 12
    ensures m < 12 ==> DaysBeforeMonth(y, m + 1) == DaysBeforeMonth(y, m) + DaysInMonth(y, m)
    ensures m == 12 ==> DaysBeforeMonth(y, m) + DaysInMonth(y, m) == YearLength(y)
  {
  }

  lemma DaysBeforeMonthMonotone(y: int, m1: int, m2: int)
    requires 1 <= m1 < m2 <= 12
    ensures DaysBeforeMonth(y, m1) + DaysInMonth(y, m1) <= DaysBeforeMonth(y, m2)
  {
  }

  /** Day number (days since 1970-01-01) of January 1 of year y. */
  function DaysBeforeYear(y: int): int
    decreases if y >= 1970 then y - 1970 else 1970 - y
  {
    if y == 1970 then 0
    else if y > 1970 then DaysBeforeYear(y - 1) + YearLength(y - 1)
    else DaysBeforeYear(y + 1) - YearLength(y)
  }

  lemma DaysBeforeYearStep(y: int)
    ensures DaysBeforeYear(y + 1) == DaysBeforeYear(y) + YearLength(y)
  {
  }

  lemma {:induction false} DaysBeforeYearMonotone(y1: int, y2: int)
    requires y1 < y2
    ensures DaysBeforeYear(y1) + YearLength(y1) <= DaysBeforeYear(y2)
    decreases y2 - y1
  {
    DaysBeforeYearStep(y1);
    if y1 + 1 < y2 {
      DaysBeforeYearMonotone(y1 + 1, y2);
      DaysBeforeYearStep(y1 + 1);
    }
  }

  /** Brings a day offset from January 1 of year y into range: the year and day-of-year (from 0) it falls on. */
  function NormalizeYearDay(y: int, doy: int): (r: (int, int))
    ensures 0 <= r.1 < YearLength(r.0)
    ensures DaysBeforeYear(r.0) + r.1 == DaysBeforeYear(y) + doy
    decreases (if doy < 0 then 1 else 0), (if doy < 0 then -doy else doy)
  {
    DaysBeforeYearStep(y);
    DaysBeforeYearStep(y - 1);
    if doy < 0 then NormalizeYearDay(y - 1, doy + YearLength(y - 1))
    else if doy >= YearLength(y) then NormalizeYearDay(y + 1, doy - YearLength(y))
    else (y, doy)
  }

  /** Splits a day-of-year into month and day of month, walking forward from month m. */
  function MonthWalk(y: int, m: int, rest: int): (r: (int, int))
    requires 1 <= m <= 12 && 0 <= rest
    requires DaysBeforeMonth(y, m) + rest < YearLength(y)
    ensures 1 <= r.0 <= 12 && 1 <= r.1 <= DaysInMonth(y, r.0)
    ensures DaysBeforeMonth(y, r.0) + r.1 - 1 == DaysBeforeMonth(y, m) + rest
    decreases 12 - m
  {
    DaysBeforeMonthStep(y, m);
    if rest < DaysInMonth(y, m) then (m, rest + 1)
    else MonthWalk(y, m + 1, rest - DaysInMonth(y, m))
  }

  datatype Date = Date(year: int, month: int, day: int)

  predicate ValidDate(d: Date)
  {
    1 <= d.month <= 12 && 1 <= d.day <= DaysInMonth(d.year, d.month)
  }

  /** Days since 1970-01-01 of a calendar date (`LocalDate.toEpochDay`). */
  function EpochDay(d: Date): int
    requires ValidDate(d)
  {
    DaysBeforeYear(d.year) + DaysBeforeMonth(d.year, d.month) + d.day - 1
  }

  /** The calendar date of a day number (`LocalDate.ofEpochDay`). */
  function DateOfEpochDay(n: int): (d: Date)
    ensures ValidDate(d)
    ensures EpochDay(d) == n
  {
    var yd := NormalizeYearDay(1970, n);
    var md := MonthWalk(yd.0, 1, yd.1);
    Date(yd.0, md.0, md.1)
  }

  /** A calendar date is determined by its day number: `ofEpochDay(toEpochDay(d)) == d`. */
  lemma EpochDayRoundTrip(d: Date)
    requires ValidDate(d)
    ensures DateOfEpochDay(EpochDay(d)) == d
  {
    var e := DateOfEpochDay(EpochDay(d));
    var r1 := DaysBeforeMonth(d.year, d.month) + d.day - 1;
    var r2 := DaysBeforeMonth(e.year, e.month) + e.day - 1;
    DaysBeforeMonthStep(d.year, 12);
    DaysBeforeMonthStep(e.year, 12);
    if d.month < 12 { DaysBeforeMonthMonotone(d.year, d.month, 12); }
    if e.month < 12 { DaysBeforeMonthMonotone(e.year, e.month, 12); }
    assert r1 < YearLength(d.year);
    assert r2 < YearLength(e.year);
    if d.year < e.year {
      DaysBeforeYearMonotone(d.year, e.year);
    } else if e.year < d.year {
      DaysBeforeYearMonotone(e.year, d.year);
    }
    assert d.year == e.year;
    if d.month < e.month {
      DaysBeforeMonthMonotone(d.year, d.month, e.month);
    } else if e.month < d.month {
      DaysBeforeMonthMonotone(d.year, e.month, d.month);
    }
  }

  // ---- fields of a timestamp ----

  function EpochDayOf(t: Timestamp): int
  {
    t / SecondsPerDay
  }

  function SecondOfDay(t: Timestamp): (s: int)
    ensures 0 <= s < SecondsPerDay
    ensures EpochDayOf(t) * SecondsPerDay + s == t
  {
    t % SecondsPerDay
  }

  function DateOf(t: Timestamp): (d: Date)
    ensures ValidDate(d)
  {
    DateOfEpochDay(EpochDayOf(t))
  }

  /** `getMonthValue()`: 1 for January through 12 for December. */
  function MonthValue(t: Timestamp): (m: int)
    ensures 1 <= m <= 12
  {
    DateOf(t).month
  }

  /** `getHour()`. */
  function Hour(t: Timestamp): (h: int)
    ensures 0 <= h < 24
  {
    SecondOfDay(t) / SecondsPerHour
  }

  /** `getDayOfWeek().getValue()`: Monday is 1 and Sunday is 7; 1970-01-01 was a Thursday. */
  function DayOfWeek(t: Timestamp): (w: int)
    ensures 1 <= w <= 7
  {
    (EpochDayOf(t) + 3) % 7 + 1
  }

  /** Seven consecutive days cover each weekday once: a day and the one a week later share their weekday. */
  lemma DayOfWeekPeriodic(t: Timestamp)
    ensures DayOfWeek(t + 7 * SecondsPerDay) == DayOfWeek(t)
    ensures DayOfWeek(t + SecondsPerDay) == DayOfWeek(t) % 7 + 1
  {
    assert EpochDayOf(t + 7 * SecondsPerDay) == EpochDayOf(t) + 7;
    assert EpochDayOf(t + SecondsPerDay) == EpochDayOf(t) + 1;
  }

  /** `truncatedTo(ChronoUnit.DAYS)`: midnight of the same day. */
  function TruncateToDay(t: Timestamp): (r: Timestamp)
    ensures r <= t < r + SecondsPerDay
    ensures SecondOfDay(r) == 0 && DateOf(r) == DateOf(t)
  {
    var r := EpochDayOf(t) * SecondsPerDay;
    assert EpochDayOf(r) == EpochDayOf(t);
    r
  }

  function PlusDays(t: Timestamp, n: int): Timestamp
  {
    t + n * SecondsPerDay
  }

  function MinusDays(t: Timestamp, n: int): Timestamp
  {
    t - n * SecondsPerDay
  }

  /** `minusMonths(n)`: the same day of month n months earlier, clamped to that month's length; the time of day is kept. */
  function MinusMonths(t: Timestamp, n: int): (r: Timestamp)
    ensures SecondOfDay(r) == SecondOfDay(t)
    ensures var d := DateOf(t); var e := DateOf(r);
      e.year * 12 + e.month - 1 == d.year * 12 + d.month - 1 - n
      && e.day == (if d.day <= DaysInMonth(e.year, e.month) then d.day else DaysInMonth(e.year, e.month))
  {
    var d := DateOf(t);
    var index := d.year * 12 + d.month - 1 - n;
    var y := index / 12;
    var m := index % 12 + 1;
    var day := if d.day <= DaysInMonth(y, m) then d.day else DaysInMonth(y, m);
    var e := Date(y, m, day);
    EpochDayRoundTrip(e);
    var r := EpochDay(e) * SecondsPerDay + SecondOfDay(t);
    assert EpochDayOf(r) == EpochDay(e);
    r
  }

  // ---- text ----

  predicate IsDigits(s: string)
  {
    forall i :: 0 <= i < |s| ==> '0' <= s[i] <= '9'
  }

  /** Decimal digits of a natural number, without leading zeros. */
  function Digits(n: nat): (s: string)
    ensures |s| >= 1
    ensures IsDigits(s)
    ensures n >= 10 ==> s[0] != '0'
    decreases n
  {
    if n < 10 then [DigitChar(n)] else Digits(n / 10) + [DigitChar(n % 10)]
  }

  function DigitChar(d: nat): (c: char)
    requires d < 10
    ensures '0' <= c <= '9'
    ensures DigitValue(c) == d
  {
    (('0' as int) + d) as char
  }

  function DigitValue(c: char): nat
    requires '0' <= c <= '9'
  {
    (c as int) - ('0' as int)
  }

  /** Reads a string of decimal digits back. */
  function ParseDigits(s: string): nat
    requires IsDigits(s)
  {
    if |s| == 0 then 0 else ParseDigits(s[..|s| - 1]) * 10 + DigitValue(s[|s| - 1])
  }

  lemma {:induction false} DigitsRoundTrip(n: nat)
    ensures ParseDigits(Digits(n)) == n
    decreases n
  {
    if n >= 10 {
      var s := Digits(n);
      assert s[..|s| - 1] == Digits(n / 10);
      DigitsRoundTrip(n / 10);
    }
  }

  /** Left-pads with zeros to at least w characters. */
  function PadZeros(s: string, w: nat): (r: string)
    ensures |r| == if |s| >= w then |s| else w
    ensures r[|r| - |s|..] == s
    ensures forall i :: 0 <= i < |r| - |s| ==> r[i] == '0'
    ensures IsDigits(s) ==> IsDigits(r)
    decreases w - |s|
  {
    if |s| >= w then s else PadZeros(['0'] + s, w)
  }

  lemma {:induction false} ParseLeadingZeros(s: string, k: nat)
    requires IsDigits(s)
    requires k <= |s|
    requires forall i :: 0 <= i < k ==> s[i] == '0'
    ensures ParseDigits(s) == ParseDigits(s[k..])
    decreases |s|
  {
    if k < |s| {
      var init := s[..|s| - 1];
      ParseLeadingZeros(init, k);
      assert init[k..] == s[k..][..|s[k..]| - 1];
    } else {
      ParseZeros(s);
      assert s[k..] == [];
    }
  }

  lemma {:induction false} ParseZeros(s: string)
    requires forall i :: 0 <= i < |s| ==> s[i] == '0'
    ensures ParseDigits(s) == 0
    decreases |s|
  {
    if |s| > 0 {
      ParseZeros(s[..|s| - 1]);
    }
  }

  /** Zero padding keeps the value readable: parsing the padded digits gives the number back. */
  lemma PaddedDigitsRoundTrip(n: nat, w: nat)
    ensures ParseDigits(PadZeros(Digits(n), w)) == n
  {
    var s := Digits(n);
    var r := PadZeros(s, w);
    ParseLeadingZeros(r, |r| - |s|);
    DigitsRoundTrip(n);
  }

  const MonthNames: seq<string> := ["January", "February", "March", "April", "May", "June", "July",
    "August", "September", "October", "November", "December"]

  /** `Month.toString()`: the enum constant name. */
  const MonthConstants: seq<string> := ["JANUARY", "FEBRUARY", "MARCH", "APRIL", "MAY", "JUNE", "JULY",
    "AUGUST", "SEPTEMBER", "OCTOBER", "NOVEMBER", "DECEMBER"]

  /** The year-of-era as `yyyy` prints it for years 1 to 9999. */
  function YearText(y: int): string
  {
    PadZeros(Digits(if y >= 1 then y else 1 - y), 4)
  }

  /** The `yyyy-MM` text of a year and month. */
  function YearMonthKey(y: int, m: nat): string
  {
    YearText(y) + "-" + PadZeros(Digits(m), 2)
  }

  /** `format(ofPattern("yyyy-MM"))`. */
  function FormatYearMonth(t: Timestamp): string
  {
    YearMonthKey(DateOf(t).year, DateOf(t).month)
  }

  /** For years 1 to 9999 the key is four year digits, a dash and two month digits, and each part reads back. */
  lemma YearMonthKeyParses(y: int, m: nat)
    requires 1 <= y <= 9999 && m <= 99
    ensures |YearMonthKey(y, m)| == 7 && YearMonthKey(y, m)[4] == '-'
    ensures YearMonthKey(y, m)[..4] == YearText(y) && ParseDigits(YearText(y)) == y
    ensures YearMonthKey(y, m)[5..] == PadZeros(Digits(m), 2) && ParseDigits(PadZeros(Digits(m), 2)) == m
  {
    LengthOfSmallDigits(y);
    LengthOfSmallDigits(m);
    PaddedText(y, 4);
    PaddedText(m, 2);
    SplitKey(YearText(y), PadZeros(Digits(m), 2));
  }

  /** A number padded to a width it fits in reads back as itself. */
  lemma PaddedText(n: nat, w: nat)
    requires |Digits(n)| <= w
    ensures var s := PadZeros(Digits(n), w); |s| == w && IsDigits(s) && ParseDigits(s) == n
  {
    PaddedDigitsRoundTrip(n, w);
  }

  lemma SplitKey(a: string, b: string)
    requires |a| == 4 && |b| == 2
    ensures var s := a + "-" + b; |s| == 7 && s[4] == '-' && s[..4] == a && s[5..] == b
  {
    var s := a + "-" + b;
    assert s[..4] == a;
    assert s[5..] == b;
  }

  lemma {:induction false} LengthOfSmallDigits(n: nat)
    ensures n < 10 ==> |Digits(n)| == 1
    ensures n < 100 ==> |Digits(n)| <= 2
    ensures n < 1000 ==> |Digits(n)| <= 3
    ensures n < 10000 ==> |Digits(n)| <= 4
    decreases n
  {
    if n >= 10 {
      LengthOfSmallDigits(n / 10);
    }
  }

  /** Two timestamps get the same `yyyy-MM` key exactly when they fall in the same calendar month (years 1 to 9999). */
  lemma YearMonthKeyMeansSameMonth(t1: Timestamp, t2: Timestamp)
    requires 1 <= DateOf(t1).year <= 9999 && 1 <= DateOf(t2).year <= 9999
    ensures FormatYearMonth(t1) == FormatYearMonth(t2)
      <==> DateOf(t1).year == DateOf(t2).year && DateOf(t1).month == DateOf(t2).month
  {
    var d1, d2 := DateOf(t1), DateOf(t2);
    YearMonthKeyParses(d1.year, d1.month);
    YearMonthKeyParses(d2.year, d2.month);
    if FormatYearMonth(t1) == FormatYearMonth(t2) {
      assert YearText(d1.year) == YearText(d2.year);
      assert PadZeros(Digits(d1.month), 2) == PadZeros(Digits(d2.month), 2);
    }
  }

  /**
   * `format(ofPattern("MMMM d, yyyy"))`, for example `March 5, 2024`, with
   * the English month names.
   */
  function FormatLongDate(t: Timestamp): string
  {
    var d := DateOf(t);
    LongText(d.month, d.day, d.year)
  }

  /** The `MMMM d, yyyy` text of a month, a day and a year. */
  function LongText(month: int, day: nat, y: int): string
    requires 1 <= month <= 12
  {
    MonthNames[month - 1] + (" " + (Digits(day) + (", " + YearText(y))))
  }

  /**
   * Reads a `MMMM d, yyyy` text back: the month's name runs to the first
   * space, and the day and year follow.
   */
  function ReadLongDate(s: string): Option<Date>
  {
    var k := Seqs.IndexOf(s, ' ');
    if k < 0 then None
    else
      var month := MonthNumber(s[..k]);
      var dayYear := ReadDayYear(s[k + 1..]);
      if month < 1 || dayYear.None? then None
      else Some(Date(dayYear.value.1, month, dayYear.value.0))
  }

  /** The number of the month a name names: 1 for January through 12 for December, 0 for any other text. */
  function MonthNumber(name: string): int
  {
    Seqs.IndexOf(MonthNames, name) + 1
  }

  /** Reads `d, yyyy` back: the day's digits run to the first comma, and four year digits follow ", ". */
  function ReadDayYear(s: string): Option<(nat, nat)>
  {
    var c := Seqs.IndexOf(s, ',');
    if c < 1 then None
    else
      var day, tail := s[..c], s[c..];
      if IsDigits(day) && |tail| == 6 && tail[..2] == ", " && IsDigits(tail[2..])
      then Some((ParseDigits(day), ParseDigits(tail[2..])))
      else None
  }

  /** A month's name holds no space, and the name list finds it at its own position. */
  lemma MonthNameSeparate(month: int)
    requires 1 <= month <= 12
    ensures ' ' !in MonthNames[month - 1]
    ensures MonthNumber(MonthNames[month - 1]) == month
  {
    assert forall i, j :: 0 <= i < j < |MonthNames| ==> MonthNames[i] != MonthNames[j];
  }

  /** Splitting at the first `c` of a text whose head holds no `c` and whose tail starts with one. */
  lemma SplitAtFirst(a: string, c: char, b: string)
    requires c !in a && |b| > 0 && b[0] == c
    ensures Seqs.IndexOf(a + b, c) == |a|
    ensures (a + b)[..|a|] == a && (a + b)[|a|..] == b && (a + b)[|a| + 1..] == b[1..]
  {
    var s := a + b;
    assert s[|a|] == c;
    assert forall j :: 0 <= j < |a| ==> s[j] == a[j];
  }

  /** Four year digits after ", " read back as the year. */
  lemma YearTailReadsBack(y: int)
    requires 1 <= y <= 9999
    ensures var tail := ", " + YearText(y);
      |tail| == 6 && tail[..2] == ", " && IsDigits(tail[2..]) && ParseDigits(tail[2..]) == y
  {
    var year := YearText(y);
    LengthOfSmallDigits(y);
    PaddedText(y, 4);
    assert (", " + year)[2..] == year;
  }

  /** The day and year part of a long date reads back. */
  lemma DayYearReadsBack(day: nat, y: int)
    requires 1 <= y <= 9999
    ensures ReadDayYear(Digits(day) + (", " + YearText(y))) == Some((day, y))
  {
    var digits, tail := Digits(day), ", " + YearText(y);
    assert ',' !in digits by {
      assert IsDigits(digits);
    }
    SplitAtFirst(digits, ',', tail);
    DigitsRoundTrip(day);
    YearTailReadsBack(y);
  }

  /** A name the month list finds, a space and a text the day-year reader accepts read back together. */
  lemma LongPartsReadBack(name: string, month: int, rest: string)
    requires ' ' !in name && 1 <= month <= 12 && MonthNumber(name) == month
    requires ReadDayYear(rest).Some?
    ensures ReadLongDate(name + (" " + rest)) == Some(Date(ReadDayYear(rest).value.1, month, ReadDayYear(rest).value.0))
  {
    SplitAtFirst(name, ' ', " " + rest);
    assert (" " + rest)[1..] == rest;
  }

  /** A month name, a day and a year printed as `MMMM d, yyyy` read back. */
  lemma LongTextReadsBack(month: int, day: nat, y: int)
    requires 1 <= month <= 12 && 1 <= y <= 9999
    ensures ReadLongDate(LongText(month, day, y)) == Some(Date(y, month, day))
  {
    MonthNameSeparate(month);
    DayYearReadsBack(day, y);
    LongPartsReadBack(MonthNames[month - 1], month, Digits(day) + (", " + YearText(y)));
  }

  /** For years 1 to 9999 the long date reads back as the date it was printed from. */
  lemma LongDateReadsBack(t: Timestamp)
    requires 1 <= DateOf(t).year <= 9999
    ensures ReadLongDate(FormatLongDate(t)) == Some(DateOf(t))
  {
    var d := DateOf(t);
    LongTextReadsBack(d.month, d.day, d.year);
  }

  /** Two timestamps print the same long date exactly when they fall on the same day (years 1 to 9999). */
  lemma LongDateMeansSameDay(t1: Timestamp, t2: Timestamp)
    requires 1 <= DateOf(t1).year <= 9999 && 1 <= DateOf(t2).year <= 9999
    ensures FormatLongDate(t1) == FormatLongDate(t2) <==> DateOf(t1) == DateOf(t2)
  {
    LongDateReadsBack(t1);
    LongDateReadsBack(t2);
  }

  /** `LocalDateTime.toString()`: `yyyy-MM-ddTHH:mm`, with `:ss` appended when the seconds are not zero. */
  function FormatIso(t: Timestamp): string
  {
    var d := DateOf(t);
    var sod := SecondOfDay(t);
    IsoText(d.year, d.month, d.day, sod / 3600, (sod % 3600) / 60, sod % 60)
  }

  /** The ISO text of a date and a time of day. */
  function IsoText(year: int, month: nat, day: nat, hh: nat, mm: nat, ss: nat): string
  {
    var date := YearText(year) + "-" + PadZeros(Digits(month), 2) + "-" + PadZeros(Digits(day), 2);
    var time := PadZeros(Digits(hh), 2) + ":" + PadZeros(Digits(mm), 2);
    if ss == 0 then date + "T" + time
    else date + "T" + time + ":" + PadZeros(Digits(ss), 2)
  }

  /** A string of digits holds no line break. */
  lemma DigitsHaveNoBreak(s: string)
    requires IsDigits(s)
    ensures '\n' !in s
  {
  }

  /** A printed date-time is one line: it holds no line break. */
  lemma IsoHasNoBreak(year: int, month: nat, day: nat, hh: nat, mm: nat, ss: nat)
    ensures '\n' !in IsoText(year, month, day, hh, mm, ss)
  {
    var date := YearText(year) + "-" + PadZeros(Digits(month), 2) + "-" + PadZeros(Digits(day), 2);
    var time := PadZeros(Digits(hh), 2) + ":" + PadZeros(Digits(mm), 2);
    DateHasNoBreak(year, month, day);
    TimeHasNoBreak(hh, mm);
    NoBreakAround(date, "T", time);
    if ss != 0 {
      var s := PadZeros(Digits(ss), 2);
      DigitsHaveNoBreak(s);
      NoBreakAround(date + "T" + time, ":", s);
    }
  }

  lemma DateHasNoBreak(year: int, month: nat, day: nat)
    ensures '\n' !in YearText(year) + "-" + PadZeros(Digits(month), 2) + "-" + PadZeros(Digits(day), 2)
  {
    var yy, mo, dd := YearText(year), PadZeros(Digits(month), 2), PadZeros(Digits(day), 2);
    DigitsHaveNoBreak(yy);
    DigitsHaveNoBreak(mo);
    DigitsHaveNoBreak(dd);
    NoBreakAround(yy, "-", mo);
    NoBreakAround(yy + "-" + mo, "-", dd);
  }

  lemma TimeHasNoBreak(hh: nat, mm: nat)
    ensures '\n' !in PadZeros(Digits(hh), 2) + ":" + PadZeros(Digits(mm), 2)
  {
    var h, m := PadZeros(Digits(hh), 2), PadZeros(Digits(mm), 2);
    DigitsHaveNoBreak(h);
    DigitsHaveNoBreak(m);
    NoBreakAround(h, ":", m);
  }

  lemma NoBreakAround(a: string, sep: string, b: string)
    requires '\n' !in a && '\n' !in sep && '\n' !in b
    ensures '\n' !in a + sep + b
  {
    NoBreakJoin(a, sep);
    NoBreakJoin(a + sep, b);
  }

  lemma NoBreakJoin(a: string, b: string)
    requires '\n' !in a && '\n' !in b
    ensures '\n' !in a + b
  {
  }
}
