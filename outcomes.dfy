// Kotlin's nullable values and thrown exceptions, as datatypes.
module Outcomes {
  datatype Option<T> = None | Some(value: T)

  datatype Result<T, E> = Ok(value: T) | Err(error: E)
}
