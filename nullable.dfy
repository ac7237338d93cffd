/** A Java reference that may be null, and the outcome of a Java call that may throw. */
module Nullable {

  /** `None` stands for Java's `null`. */
  datatype Option<+T> = None | Some(value: T) {
    /** The value, or `default` when null. */
    function GetOr(default: T): T {
      match this
      case Some(v) => v
      case None => default
    }
  }

  /**
    A call that returns a value, throws a NullPointerException, or lets some other
    unchecked exception escape.
   */
  datatype Outcome<+T> = Returned(value: T) | ThrewNullPointer | ThrewUnchecked

  /** A call that either succeeds with a value or fails with an error of type E. */
  datatype Result<+T, +E> = Success(value: T) | Failure(error: E)
}
