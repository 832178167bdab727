/** The optional value used for Go's `value, ok` and `value, err` results. */
module Wrappers {

  datatype Option<+T> = None | Some(value: T)
}
