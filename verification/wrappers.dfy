/** Option and Result, shared by the indicator library, the feature table and both
    simulators. */
module Wrappers {

  /** A possibly-undefined value. `None` plays the part of a missing (NaN) cell of a
      data-frame column. */
  datatype Option<+T> = None | Some(value: T)

  /** The outcome of an operation that may raise instead of returning. */
  datatype Result<+T, +E> = Ok(value: T) | Err(error: E)
}
