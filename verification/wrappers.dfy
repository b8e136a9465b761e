/** The optional value used throughout the model for JavaScript's `undefined`. */
module Wrappers {

  /** `None` stands for `undefined` (or `NaN` where a number is expected); `Some(v)` for a present value. */
  datatype Option<+T> = None | Some(value: T)
}
