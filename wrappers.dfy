/** Option and Result, the two wrappers the Rust code returns everywhere, and the outcome of a call that may panic. */
module Wrappers {
  datatype Option<T> = None | Some(value: T)
  {
    function UnwrapOr(default: T): T
    {
      match this
      case Some(v) => v
      case None => default
    }
  }

  datatype Result<T, E> = Ok(value: T) | Err(error: E)

  /** What a Rust call that can panic does: return a value, or panic (a slice out of bounds, say). */
  datatype Outcome<T> = Returns(value: T) | Panics
}
