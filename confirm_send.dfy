/**
 * The handler logic of `EmailProgressDialog` in
 * src/components/confirm-send.tsx: the review, sending and complete steps,
 * the progress record the send loop reports, and the counts the dialog
 * shows. The dialog's state is a `Dialog` value; each handler is a pure
 * transition, and `SendDialog` holds the state and applies them in place.
 */
module ConfirmSend {
  import opened Wrappers

  datatype Step = Review | Sending | Complete

  datatype LogStatus = LogPending | LogSending | LogSuccess | LogFailed

  /** One line of the send log (its timestamp is not modelled). */
  datatype Log = Log(id: string, name: string, email: string, status: LogStatus, error: Option<string>)

  /** `EmailProgress`. */
  datatype Progress = Progress(
    total: int,
    sent: int,
    failed: int,
    current: string,
    logs: seq<Log>,
    isComplete: bool,
    error: Option<string>)

  /** The progress the dialog starts with and returns to when closed. */
  const Idle: Progress := Progress(0, 0, 0, "", [], false, None)

  const InitializingMessage: string := "Initializing..."
  const UnknownErrorMessage: string := "Unknown error occurred"

  /** `Math.min(pendingCount, maxEmails)`. */
  function EmailsToSend(pending: int, maxEmails: int): (n: int)
    ensures n <= pending && n <= maxEmails && (n == pending || n == maxEmails)
  {
    if pending <= maxEmails then pending else maxEmails
  }

  /** `Math.max(0, pendingCount - maxEmails)`. */
  function Remaining(pending: int, maxEmails: int): (n: int)
    ensures n >= 0 && n >= pending - maxEmails && (n == 0 || n == pending - maxEmails)
  {
    if pending - maxEmails > 0 then pending - maxEmails else 0
  }

  /**
   * The batch splits the pending e-mails: those sent now and those left
   * add up to the pending count, at most `maxEmails` go now, and some are
   * left exactly when there are more than `maxEmails`.
   */
  lemma BatchSplit(pending: int, maxEmails: int)
    ensures EmailsToSend(pending, maxEmails) + Remaining(pending, maxEmails) == pending
    ensures EmailsToSend(pending, maxEmails) <= maxEmails && EmailsToSend(pending, maxEmails) <= pending
    ensures Remaining(pending, maxEmails) > 0 <==> pending > maxEmails
    ensures pending >= 0 && maxEmails >= 0 ==> EmailsToSend(pending, maxEmails) >= 0 && Remaining(pending, maxEmails) >= 0
  {
  }

  /** The send button is disabled exactly when nothing would be sent. */
  predicate SendDisabled(pending: int, maxEmails: int) {
    EmailsToSend(pending, maxEmails) == 0
  }

  /** For non-negative counts, nothing is sent exactly when nothing is pending or the limit is 0. */
  lemma SendDisabledIff(pending: nat, maxEmails: nat)
    ensures SendDisabled(pending, maxEmails) <==> pending == 0 || maxEmails == 0
  {
  }

  /** The "Pending" figure of the sending step: `total - sent - failed`. */
  function PendingShown(p: Progress): int {
    p.total - p.sent - p.failed
  }

  /** The three figures of the sending step account for the whole batch, and none is negative while the counts are consistent. */
  lemma PendingShownSpec(p: Progress)
    ensures p.sent + p.failed + PendingShown(p) == p.total
    ensures 0 <= p.sent && 0 <= p.failed && p.sent + p.failed <= p.total ==> 0 <= PendingShown(p) <= p.total
  {
  }

  /** `logs.filter((log) => log.status === "failed")`: the summary of the complete step. */
  function FailedLogs(logs: seq<Log>): seq<Log>
    decreases |logs|
  {
    if logs == [] then [] else (if logs[0].status == LogFailed then [logs[0]] else []) + FailedLogs(logs[1..])
  }

  /** The summary lists exactly the failed logs, in their order. */
  lemma {:induction false} FailedLogsSpec(logs: seq<Log>)
    ensures forall l :: l in FailedLogs(logs) <==> l in logs && l.status == LogFailed
    ensures |FailedLogs(logs)| <= |logs|
    decreases |logs|
  {
    if logs != [] {
      FailedLogsSpec(logs[1..]);
      assert logs == [logs[0]] + logs[1..];
    }
  }

  lemma {:induction false} FailedLogsConcat(a: seq<Log>, b: seq<Log>)
    ensures FailedLogs(a + b) == FailedLogs(a) + FailedLogs(b)
    decreases |a|
  {
    if a != [] {
      assert (a + b)[1..] == a[1..] + b;
      FailedLogsConcat(a[1..], b);
    } else {
      assert a + b == b;
    }
  }

  /** The title of the complete step: an error with an empty message is falsy and reads as success. */
  function Title(p: Progress): string {
    if p.error.Some? && p.error.value != "" then "Email Sending Failed" else "Email Sending Complete"
  }

  /** The dialog's state: its step and its progress. */
  datatype Dialog = Dialog(step: Step, progress: Progress)

  const Initial: Dialog := Dialog(Review, Idle)

  /** `handleConfirm` up to the `onConfirm` call: to sending, with a fresh progress for the batch. */
  function Confirmed(d: Dialog, pending: int, maxEmails: int): Dialog {
    Dialog(Sending, Progress(EmailsToSend(pending, maxEmails), 0, 0, InitializingMessage, [], false, None))
  }

  /** The progress callback: the progress is replaced; the step becomes complete only with `isComplete`. */
  function Reported(d: Dialog, p: Progress): Dialog {
    Dialog(if p.isComplete then Complete else d.step, p)
  }

  /**
   * The catch of `handleConfirm`. `thrown` is the message of the thrown
   * `Error`, or `None` when something else was thrown.
   */
  function Failed(d: Dialog, thrown: Option<string>): Dialog {
    Dialog(Complete, d.progress.(isComplete := true, error := Some(if thrown.Some? then thrown.value else UnknownErrorMessage)))
  }

  /** `handleClose`: with whether `onOpenChange(false)` was called. */
  function Closed(d: Dialog): (Dialog, bool) {
    if d.step == Sending then (d, false) else (Initial, true)
  }

  /** The progress callback applied to each report in turn. */
  function ReportedAll(d: Dialog, ps: seq<Progress>): Dialog
    decreases |ps|
  {
    if ps == [] then d else ReportedAll(Reported(d, ps[0]), ps[1..])
  }

  /** Confirming starts a batch of `emailsToSend` with nothing sent, nothing failed and no logs. */
  lemma ConfirmStarts(d: Dialog, pending: int, maxEmails: int)
    ensures var c := Confirmed(d, pending, maxEmails);
      && c.step == Sending && c.progress.total == EmailsToSend(pending, maxEmails)
      && c.progress.sent == 0 && c.progress.failed == 0 && c.progress.logs == []
      && !c.progress.isComplete && c.progress.error == None
      && PendingShown(c.progress) == c.progress.total
  {
  }

  /**
   * While sending, reports that are not complete keep the dialog sending;
   * the dialog shows the latest report, and it is complete after the
   * reports exactly when one of them was.
   */
  lemma {:induction false} ReportsSpec(d: Dialog, ps: seq<Progress>)
    requires d.step == Sending
    ensures ps != [] ==> ReportedAll(d, ps).progress == ps[|ps| - 1]
    ensures ps == [] ==> ReportedAll(d, ps) == d
    ensures ReportedAll(d, ps).step == Complete <==> exists i :: 0 <= i < |ps| && ps[i].isComplete
    ensures ReportedAll(d, ps).step == Sending <==> forall i :: 0 <= i < |ps| ==> !ps[i].isComplete
    decreases |ps|
  {
    if ps != [] {
      var d1 := Reported(d, ps[0]);
      if d1.step == Sending {
        ReportsSpec(d1, ps[1..]);
        assert forall i :: 1 <= i < |ps| ==> ps[i] == ps[1..][i - 1];
      } else {
        CompleteStays(d1, ps[1..]);
        assert ps[1..] != [] ==> ps[1..][|ps[1..]| - 1] == ps[|ps| - 1];
      }
    }
  }

  /** Once complete, further reports replace the progress but the step stays complete. */
  lemma {:induction false} CompleteStays(d: Dialog, ps: seq<Progress>)
    requires d.step == Complete
    ensures ReportedAll(d, ps).step == Complete
    ensures ps != [] ==> ReportedAll(d, ps).progress == ps[|ps| - 1]
    decreases |ps|
  {
    if ps != [] {
      CompleteStays(Reported(d, ps[0]), ps[1..]);
    }
  }

  /**
   * A failure completes the dialog with an error, and keeps the counts and
   * logs reported so far; a non-`Error` throw gets the fallback text.
   */
  lemma FailureKeepsCounts(d: Dialog, thrown: Option<string>)
    ensures var f := Failed(d, thrown);
      && f.step == Complete && f.progress.isComplete && f.progress.error.Some?
      && f.progress.total == d.progress.total && f.progress.sent == d.progress.sent
      && f.progress.failed == d.progress.failed && f.progress.logs == d.progress.logs
      && (thrown.None? ==> f.progress.error == Some(UnknownErrorMessage))
      && (thrown.Some? ==> f.progress.error == thrown)
      && (Title(f.progress) == "Email Sending Failed" <==> thrown != Some(""))
  {
  }

  /**
   * Closing while sending changes nothing and keeps the dialog open; from
   * the other steps it returns to the initial state and reports the dialog closed.
   */
  lemma CloseSpec(d: Dialog)
    ensures Closed(d).1 <==> d.step != Sending
    ensures d.step == Sending ==> Closed(d).0 == d
    ensures d.step != Sending ==> Closed(d).0 == Initial && PendingShown(Closed(d).0.progress) == 0
  {
  }

  /** The dialog component, holding the state the handlers update. */
  class SendDialog {
    var step: Step
    var progress: Progress

    function State(): Dialog
      reads this
    {
      Dialog(step, progress)
    }

    constructor()
      ensures State() == Initial
    {
      step := Review;
      progress := Idle;
    }

    method Confirm(pending: int, maxEmails: int)
      modifies this
      ensures State() == Confirmed(old(State()), pending, maxEmails)
    {
      var emailsToSend := if pending <= maxEmails then pending else maxEmails;
      step := Sending;
      progress := Progress(emailsToSend, 0, 0, InitializingMessage, [], false, None);
    }

    method OnProgress(p: Progress)
      modifies this
      ensures State() == Reported(old(State()), p)
    {
      progress := p;
      if p.isComplete {
        step := Complete;
      }
    }

    method ConfirmFailed(thrown: Option<string>)
      modifies this
      ensures State() == Failed(old(State()), thrown)
    {
      var message := if thrown.Some? then thrown.value else UnknownErrorMessage;
      progress := progress.(isComplete := true, error := Some(message));
      step := Complete;
    }

    method Close() returns (closed: bool)
      modifies this
      ensures (State(), closed) == Closed(old(State()))
    {
      if step == Sending {
        return false;
      }
      step := Review;
      progress := Idle;
      closed := true;
    }
  }
}
