/** Failure-carrying values for the thrown `Error`s of the services. An error
    is identified by its message, which is all a caller of the services sees. */
module Wrappers {

  datatype Option<+T> = None | Some(value: T)

  /** The outcome of an operation that yields a value or throws. */
  datatype Result<+T> = Ok(value: T) | Err(message: string)

  /** The outcome of an operation that yields nothing or throws. */
  datatype Outcome = Pass | Fail(message: string)
}
