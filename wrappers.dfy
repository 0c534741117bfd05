/** The optional-value datatype used for lookups that may find nothing. */
module Wrappers {

  /** `None` stands for Go's `(nil, false)`, `Some(v)` for `(v, true)`. */
  datatype Option<+T> = None | Some(value: T)
}
