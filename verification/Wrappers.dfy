/** Result and option types shared by every component. */
module Wrappers {

  datatype Option<+T> = None | Some(value: T)

  /** The value a Go function returns next to a nil error, or the error it returns instead. */
  datatype Result<+T, +E> = Ok(value: T) | Err(error: E)
}
