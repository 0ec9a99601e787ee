/** Failure-carrying datatypes shared by the modules of this model. */
module Wrappers {

  /** An optional value: Python's `None` or a present value. */
  datatype Option<+T> = None | Some(value: T) {

    /** The wrapped value, or `default` when absent. */
    function GetOr(default: T): T {
      match this
      case Some(v) => v
      case None => default
    }
  }

  /** A value, or the error a Python function would have raised instead. */
  datatype Result<+R, +E> = Success(value: R) | Failure(error: E)
}
