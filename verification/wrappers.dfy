/** Failure-carrying datatypes shared by every stage of the pipeline. */
module Wrappers {

  /** A value that may be missing: pandas' NaN/NaT and "file not found" both become None. */
  datatype Option<+T> = None | Some(value: T) {

    /** The wrapped value, or the given default when missing. */
    function GetOr(default: T): T {
      match this
      case Some(v) => v
      case None => default
    }
  }

  /** The outcome of a stage that can abort the run. */
  datatype Result<+R, +E> = Success(value: R) | Failure(error: E)
}
