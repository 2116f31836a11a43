/** Option and Result, used for Java's null and for exceptions that a caller can observe. */
module Wrappers {

  /** `None` models a Java `null` reference (or an absent `Optional`). */
  datatype Option<+T> = None | Some(value: T)

  /** The exceptions the modelled code can raise. */
  datatype Error =
    | IllegalArgument    // IllegalArgumentException
    | IndexOutOfBounds   // ArrayIndexOutOfBoundsException, StringIndexOutOfBoundsException
    | NullPointer        // NullPointerException
    | DateTime           // DateTimeException

  /** `Err` models a thrown exception; `Ok` a normal return. */
  datatype Result<+T> = Ok(value: T) | Err(error: Error)
}
