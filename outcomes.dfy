/** The shapes that stand in for values the core receives from outside: an optional value
    (Python's `None` or a value) and the outcome of a vendor call (a result, or the message
    of the exception it raised). */
module Outcomes {

  datatype Option<+T> = None | Some(value: T) {
    /** The value, or `default` when there is none. */
    function GetOr(default: T): T {
      match this
      case Some(v) => v
      case None => default
    }
  }

  /** A vendor call either returns a value or raises; `message` is the exception's `str`. */
  datatype Outcome<+T> = Done(value: T) | Failed(message: string)

  const ErrorPrefix := "Error occurred: "

  /** The text `f"Error occurred: {e}"` that several operations return on failure. */
  function ErrorOccurred(message: string): (r: string)
    ensures |r| == |ErrorPrefix| + |message|
    ensures r[..|ErrorPrefix|] == ErrorPrefix && r[|ErrorPrefix|..] == message
  {
    ErrorPrefix + message
  }
}
