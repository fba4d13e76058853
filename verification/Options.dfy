/** A value that may be missing: a NULL column, a failed search. */
module Options {
  datatype Option<+T> = None | Some(value: T)
}
