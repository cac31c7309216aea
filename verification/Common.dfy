/** Definitions shared by the component models. */
module Common {

  /** A value that a nullable column or a failed lookup may lack. */
  datatype Option<+T> = None | Some(value: T)

  /** What a handler answers: a value, or the error it rejects the request with. */
  datatype Result<+T, +E> = Ok(value: T) | Err(error: E)

  function Min(a: int, b: int): int {
    if b < a then b else a
  }
}
