/** A value that may be missing: a null pointer, a failed search, a panic. */
module Options {
  datatype Option<T> = None | Some(value: T)
}
