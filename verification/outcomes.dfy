/** Failure-compatible wrappers used throughout the model.

    The library signals failures with .NET exceptions; the model turns each
    exception into an `Err` carrying the kind of exception that would have been
    thrown, so that callers can state exactly when an operation fails. */
module Outcomes {

  /** The kinds of exception the modelled code can raise. */
  datatype Error =
    | NullReference      // NullReferenceException: a member of a null object was used
    | InvalidOperation   // InvalidOperationException, also what `First()` throws on an empty sequence
    | ArgumentError      // ArgumentException
    | InvalidCast        // InvalidCastException: a value was cast to a type it does not have
    | IndexOutOfRange    // an index past the end of a list or array
    | FormatError        // a culture-dependent conversion rejected its input
    | Diverges           // the code loops or recurses without end (a cycle among builders)

  /** The conventional Some/None datatype standing for a possibly-null reference. */
  datatype Option<+T> = None | Some(value: T) {

    /** The encapsulated value, or `default` when there is none. */
    function GetOr(default: T): (r: T)
      ensures Some? ==> r == value
      ensures None? ==> r == default
    {
      match this
      case Some(v) => v
      case None => default
    }
  }

  /** Either the value an operation returns or the exception it throws. */
  datatype Result<+T> = Ok(value: T) | Err(error: Error) {

    predicate IsFailure() {
      Err?
    }

    function PropagateFailure<U>(): Result<U>
      requires Err?
    {
      Err(error)
    }

    function Extract(): T
      requires Ok?
    {
      value
    }
  }
}
