/** Failure-carrying results shared by the scripts' models. */
module Common {
  datatype Option<T> = None | Some(value: T)

  /** An exception raised by a step is an `Err`; a value it returns is an `Ok`. */
  datatype Result<T, E> = Ok(value: T) | Err(error: E)
}
