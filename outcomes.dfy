/** Option and Result, for the `None`s and the raised exceptions of the
    modelled code. */
module Outcomes {

  datatype Option<+T> = None | Some(value: T)

  datatype Result<+T, +E> = Success(value: T) | Failure(error: E)
}
