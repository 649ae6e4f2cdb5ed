/** Optional values and the success/error result type the crate's `PileResult`
    is built on. */
module Wrappers {

  /** Rust's `Option<T>`. */
  datatype Option<+T> = None | Some(value: T) {

    /** The wrapped value, or `default` when there is none (`map_or(default, |v| v)`). */
    function GetOr(default: T): T {
      match this
      case Some(v) => v
      case None => default
    }
  }

  /** Rust's `Result<T, E>`. */
  datatype Result<+T, +E> = Ok(value: T) | Err(error: E) {

    /** Rewrites the error of an `Err`, leaving an `Ok` untouched (`map_err`). */
    function MapErr<E2>(f: E -> E2): Result<T, E2> {
      match this
      case Ok(v) => Ok(v)
      case Err(e) => Err(f(e))
    }
  }
}
