/** The absent-or-present value that stands for Python's `None` results. */
module Wrappers {

  datatype Option<+T> = None | Some(value: T)
}
