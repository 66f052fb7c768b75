/**
 * Absent values and failures, as the Python code expresses them with `None`,
 * missing dictionary keys and raised exceptions.
 */
module Wrappers {

  /** A value that may be missing: `None` in Python, or a key not in a dict. */
  datatype Option<T> = None | Some(value: T) {

    /** `d.get(key, default)`: the value when present, otherwise the default. */
    function GetOr(default: T): T {
      match this
      case Some(v) => v
      case None => default
    }
  }

  /** The outcome of a call that may raise: `Err` carries the exception text. */
  datatype Result<T> = Ok(value: T) | Err(error: string) {

    predicate IsFailure() {
      Err?
    }
  }
}
