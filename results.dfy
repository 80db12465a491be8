/** Failure-compatible wrappers shared by the dashboard's modules. */
module Results {

  /** A value that may be absent, as an empty pandas selection is. */
  datatype Option<T> = None | Some(value: T)

  /** A computed value, or the error that the Python code would raise instead. */
  datatype Result<T, E> = Ok(value: T) | Err(error: E)
}
