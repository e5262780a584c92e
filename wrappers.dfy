/** The optional value used for Python's `None`-or-a-value results. */
module Wrappers {

  datatype Option<+T> = None | Some(value: T)
}
