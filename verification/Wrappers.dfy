// Results shared by every module: a value that may be missing, a call that may be refused.
module Wrappers {
  // Failure-compatible: a recogniser gives up at the first part that does not match.
  datatype Option<+T> = None | Some(value: T) {
    predicate IsFailure() { None? }

    function PropagateFailure<U>(): Option<U>
      requires None?
    {
      None
    }

    function Extract(): T
      requires Some?
    {
      value
    }
  }

  datatype Result<+T, +E> = Success(value: T) | Failure(error: E)
}
