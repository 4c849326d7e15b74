/** Failure-aware result types for the places where the Java code returns
    null or throws an unchecked exception. */
module Wrappers {

  /** A value or Java's `null`. */
  datatype Option<+T> = None | Some(value: T)

  /** The unchecked exceptions the modelled code can raise. None of them is
      caught, so each one ends the simulation: a `Failure` is terminal. */
  datatype Fault =
    | NullPointer       // a null reference dereferenced or unboxed
    | IndexOutOfBounds  // `ArrayList.get` or `String.substring` out of range
    | NoSuchElement     // `pop` on an empty deque, `nextLine` at end of file
    | Dangling          // a request or worker handle that names no object of the
                        // expected class; Java's object references rule it out

  /** The outcome of an operation that may throw. */
  datatype Result<+T> = Success(value: T) | Failure(fault: Fault)
}
