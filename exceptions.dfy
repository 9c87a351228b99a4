/** The exceptions the column engine can raise, and a result type that carries either
    a value or the exception that the computation raised. */
module Exceptions {

  /** The Python exceptions that reach a caller of the engine. */
  datatype Error =
    | ZeroDivisionError  // a division by zero, or 0.0 raised to a negative power
    | ValueError         // math.sqrt of a negative number, or range() with a zero step
    | IndexError         // a list index past the end of the list
    | UnboundLocalError  // a local variable read before any branch assigned it

  /** Either the value a computation returns or the exception it raises. */
  datatype Result<+T> = Ok(value: T) | Err(error: Error)
}
