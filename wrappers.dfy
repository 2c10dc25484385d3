/** The two failure-compatible shapes the model uses: a value that may be
    absent (JavaScript's `null`) and a result that is either a value or an
    error message. */
module Wrappers {

  datatype Option<+T> = None | Some(value: T)

  datatype Result<+T> = Ok(value: T) | Err(message: string)
}
