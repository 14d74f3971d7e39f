/** The absent-or-present value used wherever the service keeps a pointer that may be null. */
module Options {
  datatype Option<+T> = None | Some(value: T)
}
