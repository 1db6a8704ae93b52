/** Datatypes shared by every module. */
module Basics {

  /** A value that may be missing: a nil pointer, or a map lookup whose second result is false. */
  datatype Option<+T> = None | Some(value: T) {
    function GetOr(default: T): T {
      match this
      case Some(v) => v
      case None => default
    }
  }

  /** The result of an operation that may fail. */
  datatype Result<+T, +E> = Ok(value: T) | Err(error: E)
}
