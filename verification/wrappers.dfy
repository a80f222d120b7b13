/** Option and Result values used throughout the model.

    Option stands for a key of a decoded JSON object that may be absent;
    Result stands for a step that either yields a value or raises. */
module Wrappers {

  /** A possibly absent value: `None` is a key missing from a JSON object. */
  datatype Option<+T> = None | Some(value: T) {

    /** The value if present, otherwise `default` (Python's `dict.get(key, default)`). */
    function GetOr(default: T): (r: T)
      ensures Some? ==> r == value
      ensures None? ==> r == default
    {
      match this
      case Some(v) => v
      case None => default
    }
  }

  /** The outcome of a step that either succeeds with a value or fails with an error. */
  datatype Result<+T, +E> = Ok(value: T) | Err(error: E) {

    /** The value on success, otherwise `default`. */
    function GetOr(default: T): (r: T)
      ensures Ok? ==> r == value
      ensures Err? ==> r == default
    {
      match this
      case Ok(v) => v
      case Err(_) => default
    }
  }
}
