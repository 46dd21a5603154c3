/** Python's optional result: `None` or a value. */
module Wrappers {

  /** `None` stands for Python's `None` result; `Some(v)` for a real value. */
  datatype Option<+T> = None | Some(value: T)
}
