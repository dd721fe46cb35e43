/** The optional value and the success-or-error value the model uses for
    JavaScript's `undefined` and for rejected input. */
module Wrappers {

  datatype Option<+T> = None | Some(value: T)

  datatype Result<+R, +E> = Success(value: R) | Failure(error: E)
}
