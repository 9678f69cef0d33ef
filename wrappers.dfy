/** Optional values and error returns, standing in for std::optional and C++ exceptions. */
module Wrappers {

  /** std::optional<T>. */
  datatype Option<T> = None | Some(value: T) {
    /** std::optional::value_or. */
    function GetOr(default: T): T {
      match this
      case Some(v) => v
      case None => default
    }
  }

  /** A computation that either yields a value or throws. */
  datatype Result<T, E> = Ok(value: T) | Err(error: E)

  /** A statement that either completes or throws. */
  datatype Outcome<E> = Pass | Fail(error: E)
}
