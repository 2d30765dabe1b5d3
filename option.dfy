/** The absent-or-present value of `editingTask` (null or a task). */
module Wrappers {
  datatype Option<T> = None | Some(value: T)
}
