/** Option stands for a C# nullable reference or value (null is None);
    Result carries either a value or the storage error an operation raises. */
module Wrappers {

  datatype Option<+T> = None | Some(value: T) {
    /** `x ?? d` */
    function GetOr(default: T): T {
      match this
      case Some(v) => v
      case None => default
    }
  }

  datatype Result<+T, +E> = Ok(value: T) | Err(error: E)
}
