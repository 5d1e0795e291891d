/**
 * What the dialog wrappers return: Go's (value, error) pairs, the errors
 * that can appear in them, and how a finished subprocess is observed.
 */
module Errors {
  import opened Wrappers
  import opened GoStrings

  /** The errors the wrappers hand back to their callers. */
  datatype Error =
    | TooManySources                                  // more than one of Filename, Text and URL
    | NoSource                                        // none of Filename, Text and URL
    | PathError(op: string, path: string, reason: string)  // os.Stat failed
    | ExitError(status: int)                          // the dialog exited with a non-zero status
    | StartError(reason: string)                      // the dialog could not be started or waited for
    | EmptySelection                                  // nothing was selected

  /** The text of Error() for each error. */
  function Message(e: Error): string {
    match e
    case TooManySources => "Only one of Filename, Text and URL can be supplied"
    case NoSource => "One of Filename, Text or URL need to be supplied"
    case PathError(op, path, reason) => op + " " + path + ": " + reason
    case ExitError(status) => "exit status " + FormatInt(status)
    case StartError(reason) => reason
    case EmptySelection => "Nothing selected"
  }

  /**
   * How the dialog process ended: it exited with a status (0 is success; a
   * process killed by a signal reports -1), or it could not be started.
   */
  datatype Termination = Exited(status: int) | NotStarted(reason: string)

  /** What running the dialog produced: its standard output and how it ended. */
  datatype Run = Run(stdout: string, termination: Termination)

  /** The error that exec.Cmd's Output and Wait report for a termination: nil exactly on exit status 0. */
  function ErrorOf(t: Termination): (r: Option<Error>)
    ensures r == None <==> t == Exited(0)
    ensures t.Exited? && t.status != 0 ==> r == Some(ExitError(t.status))
    ensures t.NotStarted? ==> r == Some(StartError(t.reason))
  {
    match t
    case Exited(status) => if status == 0 then None else Some(ExitError(status))
    case NotStarted(reason) => Some(StartError(reason))
  }

  /** A Go result pair: a value together with a possibly nil error. */
  datatype Reply<T> = Reply(value: T, err: Option<Error>)

  /**
   * A call that either returns a pair or does not return: log.Fatalf ends
   * the program, and a run-time panic unwinds the caller too unless some
   * caller recovers it.
   */
  datatype Outcome<T> = Returned(reply: Reply<T>) | Aborted(reason: string)
}
