/** Option and Result, the shapes Rust's `Option<T>` and `Result<T, E>` take in this model. */
module Wrappers {

  datatype Option<+T> = None | Some(value: T) {

    /** The wrapped value, or `default` when there is none (Rust's `unwrap_or`). */
    function GetOr(default: T): T {
      match this
      case Some(v) => v
      case None => default
    }

    /** Rust's `or_else`: this value when there is one, otherwise `other`. */
    function OrElse(other: Option<T>): Option<T> {
      match this
      case Some(_) => this
      case None => other
    }

    /** Rust's `Option::map`. */
    function Map<U>(f: T -> U): Option<U> {
      match this
      case Some(v) => Some(f(v))
      case None => None
    }
  }

  datatype Result<+T, +E> = Ok(value: T) | Err(error: E) {

    /** Rust's `.ok()`: forgets the error. */
    function ToOption(): Option<T> {
      match this
      case Ok(v) => Some(v)
      case Err(_) => None
    }

    /** Rust's `map_err`. */
    function MapErr<E2>(f: E -> E2): Result<T, E2> {
      match this
      case Ok(v) => Ok(v)
      case Err(e) => Err(f(e))
    }
  }
}
