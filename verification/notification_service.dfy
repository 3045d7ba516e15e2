/**
 * `NotificationService`: the daily overdue notices and due-date reminders.
 *
 * The clock is the parameter `now`, and the mail server is the parameter
 * `send`, which says for each notice whether it went out or which exception
 * it raised. Each run selects its lendings, then tries one notice per
 * lending in order; a failed notice is logged and the run goes on.
 */
module NotificationService {
  import opened Library
  import Seqs
  import Calendar

  /** What one e-mail carries: the member's address, the title, and the due date as `MMMM d, yyyy`. */
  datatype Notice = Notice(to: string, bookTitle: string, dueDate: string)

  /** What happened to one notice: sent, or an exception with its message. */
  datatype Outcome = Sent | Failed(message: string)

  datatype Attempt = Attempt(notice: Notice, outcome: Outcome)

  /** The notices tried, in order, and the lines written to the error stream. */
  datatype Run = Run(attempts: seq<Attempt>, errorLog: seq<string>)

  const OverdueFailure: string := "Failed to send overdue notification: "
  const ReminderFailure: string := "Failed to send due date reminder: "

  function NoticeFor(l: Lending): (n: Notice)
    ensures n.to == l.user.email && n.bookTitle == l.book.title
    ensures n.dueDate == Calendar.FormatLongDate(l.dueDate)
  {
    Notice(l.user.email, l.book.title, Calendar.FormatLongDate(l.dueDate))
  }

  predicate Failure(a: Attempt)
  {
    a.outcome.Failed?
  }

  /** The notice tried for each lending, in order, with what the mail server did with it. */
  function Attempts(selected: seq<Lending>, send: Notice -> Outcome): (r: seq<Attempt>)
    ensures |r| == |selected|
    ensures forall i :: 0 <= i < |selected| ==> r[i] == Attempt(NoticeFor(selected[i]), send(NoticeFor(selected[i])))
  {
    seq(|selected|, i requires 0 <= i < |selected| => Attempt(NoticeFor(selected[i]), send(NoticeFor(selected[i]))))
  }

  /** The `catch` block: one error line, the prefix and the exception's message, per failed attempt. */
  function ErrorLog(attempts: seq<Attempt>, failure: string): (r: seq<string>)
    ensures |r| == Seqs.Count(attempts, Failure)
    ensures forall k :: 0 <= k < |r| ==> |failure| <= |r[k]| && r[k][..|failure|] == failure
  {
    if |attempts| == 0 then []
    else
      var before := ErrorLog(attempts[..|attempts| - 1], failure);
      match attempts[|attempts| - 1].outcome
      case Sent => before
      case Failed(message) =>
        var line := failure + message;
        assert line[..|failure|] == failure;
        before + [line]
  }

  /**
   * The loop with its `try`/`catch`: every selected lending gets its
   * attempt, whatever happened to the ones before it.
   */
  function SendEach(selected: seq<Lending>, send: Notice -> Outcome, failure: string): (r: Run)
    ensures |r.attempts| == |selected|
    ensures forall i :: 0 <= i < |selected| ==> r.attempts[i].notice == NoticeFor(selected[i])
    ensures |r.errorLog| == Seqs.Count(r.attempts, Failure)
  {
    var attempts := Attempts(selected, send);
    Run(attempts, ErrorLog(attempts, failure))
  }

  /** The log of a run is the log of its first part followed by the log of the rest. */
  lemma {:induction false} ErrorLogAppend(a: seq<Attempt>, b: seq<Attempt>, failure: string)
    ensures ErrorLog(a + b, failure) == ErrorLog(a, failure) + ErrorLog(b, failure)
    decreases |b|
  {
    if |b| == 0 {
      assert a + b == a;
    } else {
      var init := b[..|b| - 1];
      assert (a + b)[..|a + b| - 1] == a + init;
      ErrorLogAppend(a, init, failure);
    }
  }

  /** A failure never stops the run: the lendings after it are tried, and logged, exactly as if they had been the whole run. */
  lemma FailuresDoNotStopLaterSends(a: seq<Lending>, b: seq<Lending>, send: Notice -> Outcome, failure: string)
    ensures SendEach(a + b, send, failure).attempts == SendEach(a, send, failure).attempts + SendEach(b, send, failure).attempts
    ensures SendEach(a + b, send, failure).errorLog == SendEach(a, send, failure).errorLog + SendEach(b, send, failure).errorLog
  {
    var xs, ys := Attempts(a, send), Attempts(b, send);
    assert Attempts(a + b, send) == xs + ys;
    ErrorLogAppend(xs, ys, failure);
  }

  /** When every notice goes out, nothing is logged. */
  lemma NoFailureNoLog(selected: seq<Lending>, send: Notice -> Outcome, failure: string)
    requires forall l :: l in selected ==> send(NoticeFor(l)).Sent?
    ensures SendEach(selected, send, failure).errorLog == []
  {
    var attempts := Attempts(selected, send);
    forall x | x in attempts
      ensures !Failure(x)
    {
      var i :| 0 <= i < |attempts| && attempts[i] == x;
      assert selected[i] in selected;
    }
    Seqs.NoneCounted(attempts, Failure);
  }

  // ---------------------------------------------------------------------
  // Overdue notices
  // ---------------------------------------------------------------------

  /** `findOverdueBooks(now)`, in table order. */
  function OverdueSelection(lendings: seq<Lending>, now: Timestamp): (r: seq<Lending>)
    ensures forall l :: l in r <==> l in lendings && Overdue(l, now)
    ensures |r| == Seqs.Count(lendings, (l: Lending) => Overdue(l, now))
  {
    var p := (l: Lending) => Overdue(l, now);
    forall l | l in lendings && p(l)
      ensures l in Seqs.Filter(lendings, p)
    {
      Seqs.FilterKeeps(lendings, p, l);
    }
    Seqs.Filter(lendings, p)
  }

  /** `sendOverdueNotifications`: one notice per overdue lending. */
  function SendOverdueNotifications(lendings: seq<Lending>, now: Timestamp, send: Notice -> Outcome): (r: Run)
    ensures var selected := OverdueSelection(lendings, now);
      |r.attempts| == |selected|
      && forall i :: 0 <= i < |selected| ==> r.attempts[i].notice == NoticeFor(selected[i])
    ensures |r.errorLog| == Seqs.Count(r.attempts, Failure)
  {
    SendEach(OverdueSelection(lendings, now), send, OverdueFailure)
  }

  // ---------------------------------------------------------------------
  // Due-date reminders
  // ---------------------------------------------------------------------

  /** Not returned, and due strictly between one and two days from now. */
  predicate DueSoon(l: Lending, now: Timestamp)
  {
    l.returnDate.None?
    && l.dueDate > Calendar.PlusDays(now, 1)
    && l.dueDate < Calendar.PlusDays(now, 2)
  }

  /** The lendings that get a reminder, in table order. */
  function ReminderSelection(lendings: seq<Lending>, now: Timestamp): (r: seq<Lending>)
    ensures forall l :: l in r <==>
      l in lendings && l.returnDate.None?
      && now + Calendar.SecondsPerDay < l.dueDate < now + 2 * Calendar.SecondsPerDay
  {
    var p := (l: Lending) => DueSoon(l, now);
    forall l | l in lendings && p(l)
      ensures l in Seqs.Filter(lendings, p)
    {
      Seqs.FilterKeeps(lendings, p, l);
    }
    Seqs.Filter(lendings, p)
  }

  /** `sendDueDateReminders`: one reminder per lending due soon. */
  function SendDueDateReminders(lendings: seq<Lending>, now: Timestamp, send: Notice -> Outcome): (r: Run)
    ensures var selected := ReminderSelection(lendings, now);
      |r.attempts| == |selected|
      && forall i :: 0 <= i < |selected| ==> r.attempts[i].notice == NoticeFor(selected[i])
    ensures |r.errorLog| == Seqs.Count(r.attempts, Failure)
  {
    SendEach(ReminderSelection(lendings, now), send, ReminderFailure)
  }

  /** No lending gets both a reminder and an overdue notice in the same run. */
  lemma RemindersAreNeverOverdue(lendings: seq<Lending>, now: Timestamp)
    ensures forall l :: l in ReminderSelection(lendings, now) ==> l !in OverdueSelection(lendings, now)
  {
    forall l | l in ReminderSelection(lendings, now)
      ensures !Overdue(l, now)
    {
      assert l.dueDate > now;
    }
  }
}
