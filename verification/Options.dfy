/** A value that may be missing: a nil, a NULL column and "not found". */
module Options {
  datatype Option<T> = None | Some(value: T)
}
