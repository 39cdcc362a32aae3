/** Values that stand for Java's null references and for the exceptions the bug tracker throws. */
module Failures {

  /** A reference that may be null. */
  datatype Option<+T> = None | Some(value: T)

  /** The exceptions the core throws. */
  datatype Error =
    | IllegalArgument       // IllegalArgumentException
    | UnsupportedOperation  // UnsupportedOperationException
    | NullPointer           // NullPointerException from dereferencing a null field

  /** A value, or the exception that was thrown instead of returning it. */
  datatype Result<+T> = Success(value: T) | Failure(error: Error)

  /** How a void method ended: normally, or by throwing. */
  datatype Outcome = Pass | Fail(error: Error)
}
