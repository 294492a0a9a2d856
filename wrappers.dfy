/** Optional values and results with an error, as used throughout the model. */
module Wrappers {

  /** A value that may be missing: pandas' NaN/None in a text column. */
  datatype Option<+T> = None | Some(value: T) {

    /** The wrapped value, or `default` when it is missing (`fillna(default)`). */
    function GetOr(default: T): (r: T)
      ensures Some? ==> r == value
      ensures None? ==> r == default
    {
      match this
      case Some(v) => v
      case None => default
    }
  }

  /** The outcome of a step that may raise. */
  datatype Result<+R, +E> = Success(value: R) | Failure(error: E)
}
