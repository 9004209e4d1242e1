/** The absent-or-present value used for Go's nil pointers and `value, ok` pairs. */
module Options {
  datatype Option<+T> = None | Some(value: T)
}
