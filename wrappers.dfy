/** Failure-carrying result types shared by every module of the hub model. */
module Wrappers {

  /** A value that may be missing: Go's `(v, ok)` and `(v, err)` pairs where the
      error carries no information the model needs. */
  datatype Option<+T> = None | Some(value: T)
}
