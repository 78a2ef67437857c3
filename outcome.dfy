/** The success-or-error value that the model's operations return where the
    original raises an exception (an assertion, an index or a division error). */
module Outcome {

  datatype Option<+T> = None | Some(value: T)

  datatype Result<+T, +E> = Ok(value: T) | Err(error: E)
}
