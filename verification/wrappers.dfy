/** Failure-carrying results shared by every phase of the front end. */
module Wrappers {

  /** A failure as the front end reports it: the source line and the message text.
      Every phase renders it as `[line N] message`. */
  datatype Diagnostic = Diagnostic(line: nat, message: string)

  /** The outcome of a phase that either produces a value or stops at its first error. */
  datatype Result<+T> = Ok(value: T) | Err(error: Diagnostic) {

    predicate IsFailure() {
      Err?
    }

    function PropagateFailure<U>(): Result<U>
      requires Err?
    {
      Err(error)
    }

    function Extract(): T
      requires Ok?
    {
      value
    }
  }

  /** A lookup that may find nothing (a Java `null`). */
  datatype Option<+T> = None | Some(value: T)
}
