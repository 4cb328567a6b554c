/** Small shared datatypes. */
module Wrappers {
  /** A value that may be absent: a nil pointer, a missing key, a NULL column. */
  datatype Option<+T> = None | Some(value: T)

  /** The outcome of a call that returns a Go error beside its value. */
  datatype Result<+T, +E> = Success(value: T) | Failure(error: E)

  /** A call to another process: it takes effect and answers, does not take effect, or takes effect
      while its answer is lost.  The caller sees an error in both of the last cases. */
  datatype Net = Up | Down | ReplyLost {
    predicate Effective() { this != Down }
  }
}
