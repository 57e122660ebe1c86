/** The optional-value datatype shared by the other modules. */
module Wrappers {

  /** `None` stands for JavaScript's `undefined` (a missing property, a
      missing array element); `Some(v)` for a present value. */
  datatype Option<+T> = None | Some(value: T)
}
