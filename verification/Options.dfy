/** A value that may be missing: Python's None, or the exception that replaces a result. */
module Options {
  datatype Option<+T> = None | Some(value: T)
}
