/** Option and result types shared by the models. */
module Wrappers {

  /** A value that may be absent (`undefined` in the source). */
  datatype Option<T> = None | Some(value: T)

  /** A value or the error that an operation raised instead. */
  datatype Result<T, E> = Ok(value: T) | Err(error: E)

  /** Success, or the error an operation without a value raised. */
  datatype Outcome<E> = Pass | Fail(error: E)
}
