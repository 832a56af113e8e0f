/** Failure-carrying results shared by the modules of this model. */
module Wrappers {

  /** An optional value: JavaScript's `undefined`/`null` or Python's `None` become `None`. */
  datatype Option<+T> = None | Some(value: T)

  /** The outcome of an operation that can throw: `Failure` carries the exception's message. */
  datatype Result<+T> = Success(value: T) | Failure(error: string)
}
