/** The absent-or-present value used wherever the source returns `T | null`. */
module Options {
  datatype Option<+T> = None | Some(value: T)
}
