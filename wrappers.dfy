/** Option and Result, the two failure-carrying wrappers the model uses for
    JavaScript's null/undefined and for the exceptions the move handler can throw. */
module Wrappers {

  /** `None` stands for JavaScript's `null` or `undefined`; `Some(v)` for a present value. */
  datatype Option<+T> = None | Some(value: T)

  /** `Failure(e)` stands for an exception thrown out of the handler. */
  datatype Result<+R, +E> = Success(value: R) | Failure(error: E)
}
