/** Failure-carrying wrappers shared by the whole model. A Python call that
    raises is modelled as `Err`, a call that returns normally as `Ok`. */
module Results {

  /** A value that may be absent (Python's `None`, or an attribute not yet set). */
  datatype Option<T> = None | Some(value: T)

  /** The outcome of a call that either returns a value or raises an error. */
  datatype Result<T, E> = Ok(value: T) | Err(error: E)
}
