/** Failure-compatible wrappers and the exceptions the modelled Java code throws. */
module Results {

  datatype Option<+T> = None | Some(value: T)

  /** The Java exceptions that the modelled operations can raise. */
  datatype Error =
    | Unsupported(operation: string)          // UnsupportedOperationException
    | IllegalArgument(message: string)        // IllegalArgumentException
    | NumberFormat(input: string)             // NumberFormatException
    | IndexOutOfBounds(index: int)            // StringIndexOutOfBoundsException
    | NullPointer                             // NullPointerException

  /** A value, or the exception the Java code throws instead of returning it. */
  datatype Result<+T> = Success(value: T) | Failure(error: Error) {

    predicate IsFailure() {
      Failure?
    }

    function PropagateFailure<U>(): Result<U>
      requires Failure?
    {
      Failure(error)
    }

    function Extract(): T
      requires Success?
    {
      value
    }
  }
}
