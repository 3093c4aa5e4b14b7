/** Failure-carrying datatypes used in place of C#'s `null` and exceptions. */
module Wrappers {

  /** A value that may be absent: `None` stands for a C# `null`. */
  datatype Option<+T> = None | Some(value: T) {

    /** The carried value, or `default` when absent (C#'s `x == null ? default : x`). */
    function GetOr(default: T): T
    {
      match this
      case Some(v) => v
      case None => default
    }
  }

  /** Either a computed value or the exception that interrupted the computation. */
  datatype Result<+R, +E> = Success(value: R) | Failure(error: E)
}
