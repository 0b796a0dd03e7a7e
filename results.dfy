/** The two shapes a handler's outcome takes. */
module Results {

  /** A value that may be absent (an optional request field, a lookup that finds nothing). */
  datatype Option<+T> = None | Some(value: T) {

    /** The value, or `default` when there is none (how a schema default is applied). */
    function GetOr(default: T): T {
      if Some? then value else default
    }
  }

  /** The outcome of a handler: the value it responds with, or the error response it sends. */
  datatype Result<+T, +E> = Ok(value: T) | Err(error: E)
}
