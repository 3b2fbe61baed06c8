/** A computation that either yields a value or stops with the exception
    Python raises on a division or modulo by zero. */
module Outcomes {

  datatype Error = ZeroDivisionError

  datatype Result<T> = Ok(value: T) | Err(error: Error)
}
