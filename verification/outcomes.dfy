/** Status values standing in for Maya's `MStatus` and for Python exceptions. */
module Outcomes {

  datatype Option<+T> = None | Some(value: T)

  /** A computation that either produces a value or fails with a reason. */
  datatype Result<+T, +E> = Success(value: T) | Failure(error: E)

  /** A status without a value: `MS::kSuccess` or `MS::kFailure` with its reason. */
  datatype Outcome<+E> = Pass | Fail(error: E)
}
