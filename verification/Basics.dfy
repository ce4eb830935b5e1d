/** Small value types shared by the models of the services. */
module Basics {

  datatype Option<+T> = None | Some(value: T)

  /** The result of a service call: a value, or the exception it throws. */
  datatype Result<+T, +E> = Ok(value: T) | Err(error: E)

  /** A field of a partial update: absent (`undefined`), `null`, or a new value. */
  datatype Patch<+T> = Unset | Null | Set(value: T)
  {
    /** The column after the update: an absent field keeps what was stored. */
    function Over(stored: Option<T>): Option<T> {
      match this
      case Unset => stored
      case Null => None
      case Set(v) => Some(v)
    }
  }

  function Min(a: int, b: int): int {
    if a <= b then a else b
  }

  function Max(a: int, b: int): int {
    if a <= b then b else a
  }
}
