/** Failure-carrying wrappers shared by the other modules. */
module Results {

  /** An optional value: Go's nil function or nil error is `None`. */
  datatype Option<+T> = None | Some(value: T)

  /** A value or an error, as Go's `(T, error)` pair with exactly one side meaningful. */
  datatype Result<+T, +E> = Ok(value: T) | Err(error: E)
}
