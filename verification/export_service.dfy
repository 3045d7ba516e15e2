/**
 * `ExportService`: the plain-text lending history and analytics reports.
 *
 * Both select the lendings borrowed between the start and end days, both
 * inclusive, as `findByBorrowDateBetween` and `countByBorrowDateBetween` do
 * with the dates at midnight. Date-times print as `LocalDateTime.toString`
 * prints them.
 */
module ExportService {
  import opened Library
  import Seqs
  import Calendar

  const HistoryTitle: string := "Lending History Report"
  const AnalyticsTitle: string := "Analytics Report"
  const TotalLabel: string := "Total Lendings: "

  /** Borrowed from midnight of the start day up to and including midnight of the end day. */
  predicate InRange(l: Lending, start: Timestamp, end: Timestamp)
  {
    Calendar.TruncateToDay(start) <= l.borrowDate <= Calendar.TruncateToDay(end)
  }

  /** `findByBorrowDateBetween(startDate.toLocalDate(), endDate.toLocalDate())`, in table order. */
  function Selection(lendings: seq<Lending>, start: Timestamp, end: Timestamp): (r: seq<Lending>)
    ensures forall l :: l in r <==> l in lendings && InRange(l, start, end)
    ensures |r| == Seqs.Count(lendings, (l: Lending) => InRange(l, start, end))
  {
    var p := (l: Lending) => InRange(l, start, end);
    forall l | l in lendings && p(l)
      ensures l in Seqs.Filter(lendings, p)
    {
      Seqs.FilterKeeps(lendings, p, l);
    }
    Seqs.Filter(lendings, p)
  }

  /** The two header lines and the blank line after them. */
  function Header(title: string, start: Timestamp, end: Timestamp): string
  {
    HeaderText(title, Calendar.FormatIso(start), Calendar.FormatIso(end))
  }

  function HeaderText(title: string, from: string, to: string): string
  {
    title + "\n" + "From: " + from + " To: " + to + "\n\n"
  }

  /** One line of the history: title, member, borrow date, due date and status, in that order. */
  function LineText(title: string, username: string, borrowed: string, due: string, status: string): string
  {
    "Book: " + title + ", User: " + username + ", Borrow Date: " + borrowed + ", Due Date: " + due
    + ", Status: " + status + "\n"
  }

  function LendingLine(l: Lending): string
  {
    LineText(l.book.title, l.user.username, Calendar.FormatIso(l.borrowDate), Calendar.FormatIso(l.dueDate), l.status)
  }

  /** The texts one after the other (`StringBuilder.append` in a loop). */
  function Concat(parts: seq<string>): string
  {
    if |parts| == 0 then "" else Concat(parts[..|parts| - 1]) + parts[|parts| - 1]
  }

  /** The line of each lending, in order. */
  function LinesOf(lendings: seq<Lending>): (r: seq<string>)
    ensures |r| == |lendings| && forall i :: 0 <= i < |r| ==> r[i] == LendingLine(lendings[i])
  {
    seq(|lendings|, i requires 0 <= i < |lendings| => LendingLine(lendings[i]))
  }

  function Lines(lendings: seq<Lending>): string
  {
    Concat(LinesOf(lendings))
  }

  /** `exportLendingHistory`: the header, then one line per selected lending. */
  function ExportLendingHistory(lendings: seq<Lending>, start: Timestamp, end: Timestamp): (r: string)
    ensures var header := Header(HistoryTitle, start, end);
      |header| <= |r| && r[..|header|] == header
      && r[|header|..] == Lines(Selection(lendings, start, end))
    ensures |Selection(lendings, start, end)| == 0 ==> r == Header(HistoryTitle, start, end)
  {
    var header := Header(HistoryTitle, start, end);
    var r := header + Lines(Selection(lendings, start, end));
    assert r[..|header|] == header;
    r
  }

  /** Appending texts in two runs gives the same text as appending them in one. */
  lemma {:induction false} ConcatAppend(a: seq<string>, b: seq<string>)
    ensures Concat(a + b) == Concat(a) + Concat(b)
    decreases |b|
  {
    if |b| == 0 {
      assert a + b == a;
    } else {
      var init := b[..|b| - 1];
      assert (a + b)[..|a + b| - 1] == a + init;
      ConcatAppend(a, init);
    }
  }

  /** The report lists the lendings in order: the lines of a + b are those of a followed by those of b. */
  lemma LinesAppend(a: seq<Lending>, b: seq<Lending>)
    ensures Lines(a + b) == Lines(a) + Lines(b)
  {
    assert LinesOf(a + b) == LinesOf(a) + LinesOf(b);
    ConcatAppend(LinesOf(a), LinesOf(b));
  }

  // ---------------------------------------------------------------------
  // Line count
  // ---------------------------------------------------------------------

  function Newlines(s: string): nat
  {
    Seqs.CountOf(s, '\n')
  }

  lemma NewlinesAppend(a: string, b: string)
    ensures Newlines(a + b) == Newlines(a) + Newlines(b)
  {
    Seqs.CountOfAppend(a, b, '\n');
  }

  lemma {:induction false} NoNewline(s: string)
    requires '\n' !in s
    ensures Newlines(s) == 0
    decreases |s|
  {
    if |s| > 0 {
      assert s[|s| - 1] in s;
      NoNewline(s[..|s| - 1]);
    }
  }

  /** The text of a lending has no line break of its own. */
  predicate SingleLine(l: Lending)
  {
    '\n' !in l.book.title && '\n' !in l.user.username && '\n' !in l.status
  }

  lemma LineTextIsOneLine(title: string, username: string, borrowed: string, due: string, status: string)
    requires '\n' !in title && '\n' !in username && '\n' !in borrowed && '\n' !in due && '\n' !in status
    ensures Newlines(LineText(title, username, borrowed, due, status)) == 1
  {
    var s0 := "Book: " + title;
    var s1 := s0 + ", User: " + username;
    var s2 := s1 + ", Borrow Date: " + borrowed;
    var s3 := s2 + ", Due Date: " + due;
    var s4 := s3 + ", Status: " + status;
    Calendar.NoBreakJoin("Book: ", title);
    Calendar.NoBreakJoin(s0, ", User: ");
    Calendar.NoBreakJoin(s0 + ", User: ", username);
    Calendar.NoBreakJoin(s1, ", Borrow Date: ");
    Calendar.NoBreakJoin(s1 + ", Borrow Date: ", borrowed);
    Calendar.NoBreakJoin(s2, ", Due Date: ");
    Calendar.NoBreakJoin(s2 + ", Due Date: ", due);
    Calendar.NoBreakJoin(s3, ", Status: ");
    Calendar.NoBreakJoin(s3 + ", Status: ", status);
    assert LineText(title, username, borrowed, due, status) == s4 + "\n";
    NoNewline(s4);
    NewlinesAppend(s4, "\n");
  }

  lemma IsoIsOneLine(t: Timestamp)
    ensures '\n' !in Calendar.FormatIso(t)
  {
    var d := Calendar.DateOf(t);
    var sod := Calendar.SecondOfDay(t);
    Calendar.IsoHasNoBreak(d.year, d.month, d.day, sod / 3600, (sod % 3600) / 60, sod % 60);
  }

  lemma LendingLineIsOneLine(l: Lending)
    requires SingleLine(l)
    ensures Newlines(LendingLine(l)) == 1
  {
    IsoIsOneLine(l.borrowDate);
    IsoIsOneLine(l.dueDate);
    LineTextIsOneLine(l.book.title, l.user.username, Calendar.FormatIso(l.borrowDate), Calendar.FormatIso(l.dueDate), l.status);
  }

  lemma {:induction false} ConcatCount(parts: seq<string>)
    requires forall i :: 0 <= i < |parts| ==> Newlines(parts[i]) == 1
    ensures Newlines(Concat(parts)) == |parts|
    decreases |parts|
  {
    if |parts| > 0 {
      var init := parts[..|parts| - 1];
      ConcatCount(init);
      NewlinesAppend(Concat(init), parts[|parts| - 1]);
    }
  }

  lemma LinesCount(lendings: seq<Lending>)
    requires forall l :: l in lendings ==> SingleLine(l)
    ensures Newlines(Lines(lendings)) == |lendings|
  {
    var parts := LinesOf(lendings);
    forall i | 0 <= i < |parts|
      ensures Newlines(parts[i]) == 1
    {
      assert lendings[i] in lendings;
      LendingLineIsOneLine(lendings[i]);
    }
    ConcatCount(parts);
  }

  /**
   * When no title, member name or status holds a line break, the history
   * has exactly three header lines and one line per selected lending.
   */
  lemma HistoryLineCount(lendings: seq<Lending>, start: Timestamp, end: Timestamp)
    requires forall l :: l in lendings ==> SingleLine(l)
    ensures Newlines(ExportLendingHistory(lendings, start, end)) == 3 + |Selection(lendings, start, end)|
  {
    var selected := Selection(lendings, start, end);
    var from, to := Calendar.FormatIso(start), Calendar.FormatIso(end);
    IsoIsOneLine(start);
    IsoIsOneLine(end);
    TitleIsOneLine();
    HeaderIsThreeLines(HistoryTitle, from, to);
    var header := HeaderText(HistoryTitle, from, to);
    assert forall l :: l in selected ==> SingleLine(l);
    LinesCount(selected);
    NewlinesAppend(header, Lines(selected));
    assert ExportLendingHistory(lendings, start, end) == header + Lines(selected);
  }

  lemma TitleIsOneLine()
    ensures '\n' !in HistoryTitle
  {
    forall i | 0 <= i < |HistoryTitle|
      ensures HistoryTitle[i] != '\n'
    {
    }
  }

  /** The header is the title line, the range line and a blank line. */
  lemma HeaderIsThreeLines(title: string, from: string, to: string)
    requires '\n' !in title && '\n' !in from && '\n' !in to
    ensures Newlines(HeaderText(title, from, to)) == 3
  {
    var range := "From: " + from + " To: " + to;
    Calendar.NoBreakJoin("From: ", from);
    Calendar.NoBreakJoin("From: " + from, " To: ");
    Calendar.NoBreakJoin("From: " + from + " To: ", to);
    assert HeaderText(title, from, to) == title + "\n" + range + "\n\n";
    NoNewline(title);
    NoNewline(range);
    NewlinesAppend(title, "\n");
    NewlinesAppend(title + "\n", range);
    NewlinesAppend(title + "\n" + range, "\n\n");
  }

  // ---------------------------------------------------------------------
  // Analytics report
  // ---------------------------------------------------------------------

  /** `exportAnalyticsReport`: the header, then `Total Lendings: ` and the number of lendings in the range. */
  function ExportAnalyticsReport(lendings: seq<Lending>, start: Timestamp, end: Timestamp): (r: string)
    ensures var prefix := Header(AnalyticsTitle, start, end) + TotalLabel;
      |prefix| < |r| && r[..|prefix|] == prefix
      && Calendar.IsDigits(r[|prefix|..])
  {
    var prefix := Header(AnalyticsTitle, start, end) + TotalLabel;
    var count := Seqs.Count(lendings, (l: Lending) => InRange(l, start, end));
    var r := prefix + Calendar.Digits(count);
    assert r[..|prefix|] == prefix;
    assert r[|prefix|..] == Calendar.Digits(count);
    r
  }

  /** The total the analytics report prints reads back as the number of lines of the history report for the same range. */
  lemma TotalMatchesHistory(lendings: seq<Lending>, start: Timestamp, end: Timestamp)
    ensures var r := ExportAnalyticsReport(lendings, start, end);
      var prefix := Header(AnalyticsTitle, start, end) + TotalLabel;
      Calendar.ParseDigits(r[|prefix|..]) == |Selection(lendings, start, end)|
  {
    var count := Seqs.Count(lendings, (l: Lending) => InRange(l, start, end));
    var prefix := Header(AnalyticsTitle, start, end) + TotalLabel;
    assert ExportAnalyticsReport(lendings, start, end)[|prefix|..] == Calendar.Digits(count);
    Calendar.DigitsRoundTrip(count);
  }
}
