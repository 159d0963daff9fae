/** A value that may be missing: Python's `None` beside everything else. */
module Options {
  datatype Option<+T> = None | Some(value: T)
}
