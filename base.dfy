/** Optional values and results shared by the other modules. */
module Base {

  /** `null`/`undefined` or a value. */
  datatype Option<T> = None | Some(value: T)

  /** A value, or the error a JavaScript `throw` would have raised. */
  datatype Result<T, E> = Ok(value: T) | Err(error: E)
}
