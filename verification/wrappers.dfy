/** Failure-carrying values for the places where the program throws instead
    of returning, and optional fields for object spreads. */
module Wrappers {

  /** A field that is either present with a value or absent. */
  datatype Option<+T> = None | Some(value: T)
  {
    /** The present value, or `default` when absent. */
    function GetOr(default: T): T
    {
      match this
      case Some(v) => v
      case None => default
    }
  }

  /** The outcome of an operation that may throw: `Ok` with its value, or
      `Err` with what was thrown. */
  datatype Result<+T, +E> = Ok(value: T) | Err(error: E)
}
