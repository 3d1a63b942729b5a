/** Option and Result types shared by the whole model. */
module Wrappers {
  datatype Option<T> = None | Some(value: T)

  /** The outcome of an operation that the library either completes or
      rejects by raising an exception or returning a false status. */
  datatype Result<T> = Ok(value: T) | Err(message: string)
  {
    predicate IsOk() { Ok? }
  }
}
