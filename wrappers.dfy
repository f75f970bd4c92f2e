/** Option and Result: the null reference and the exception of the C# adapters, as values. */
module Wrappers {

  /** `None` stands for a null reference (or an absent entry). */
  datatype Option<+T> = None | Some(value: T) {
    function GetOr(default: T): T {
      match this
      case Some(v) => v
      case None => default
    }
  }

  /** `Err` stands for an exception that leaves the call. */
  datatype Result<+T, +E> = Ok(value: T) | Err(error: E) {
    /** The same outcome with `f` applied to a value; an exception passes through. */
    function Map<U>(f: T -> U): Result<U, E> {
      match this
      case Ok(v) => Ok(f(v))
      case Err(e) => Err(e)
    }
  }
}
