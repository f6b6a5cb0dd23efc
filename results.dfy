/** Failure-carrying wrappers used throughout the model. */
module Results {

  /** An optional value: Rust's `Option<T>`. */
  datatype Option<+T> = None | Some(value: T)

  /** A value or an error: Rust's `Result<T, E>`, and also the outcome of a
      computation that may panic (the error then names the panic's cause). */
  datatype Result<+T, +E> = Ok(value: T) | Err(error: E)
}
