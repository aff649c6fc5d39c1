/** A value that may be missing: a null pointer, -1, or a search without a result. */
module Options {
  datatype Option<T> = None | Some(value: T)
}
