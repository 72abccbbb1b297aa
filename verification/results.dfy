/** Optional values and the typed outcome that replaces the service's exceptions. */
module Results {

  /** A value that may be PHP's null. */
  datatype Option<T> = None | Some(value: T) {
    /** The value when present, otherwise `default`. */
    function OrElse(default: Option<T>): Option<T>
    {
      if Some? then this else default
    }
  }

  /** Either the operation's value or the message of the
      `InvalidArgumentException` it would have thrown. */
  datatype Result<T> = Ok(value: T) | Err(error: string)
}
