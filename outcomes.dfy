/** The two exception classes the controllers throw, as values. */
module Outcomes {

  /** Which guard raised a `ValidationException`. The messages themselves
      are not modelled; the guard that fired is. */
  datatype Cause =
    | IdAlreadyExists   // creation with an identifier that is already a key
    | NegativeId        // an identifier below zero
    | IdNotFound        // replacement of an identifier that is not a key

  datatype Error =
    | ValidationError(cause: Cause)  // ValidationException
    | IdentifierDoesNotExist         // IdentifierDoesNotExistException

  /** The outcome of a controller call: the returned entity or the thrown
      exception. */
  datatype Result<T> = Ok(value: T) | Err(error: Error)
}
