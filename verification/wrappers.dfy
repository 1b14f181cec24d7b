/** Failure-carrying wrappers shared by every module of the model: Rust's
    `Option<T>` and the `Result<T, E>` that `?` propagates. */
module Wrappers {

  datatype Option<+T> = None | Some(value: T) {
    /** `Option::unwrap_or` */
    function GetOr(default: T): T {
      match this
      case Some(v) => v
      case None => default
    }
  }

  datatype Result<+T, +E> = Ok(value: T) | Err(error: E)
}
