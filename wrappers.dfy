/** Option and Result values shared by both services. */
module Wrappers {

  /** An optional value. For request parameters, None stands for a value the
      client left out (or one that parses to NaN). */
  datatype Option<+T> = None | Some(value: T)

  /** The outcome of a handler: the success body, or an error body. */
  datatype Result<+R, +E> = Success(value: R) | Failure(error: E)
}
