/** A value that may be absent: the source's `None`, `null` and SQL `NULL`. */
module Options {
  datatype Option<+T> = None | Some(value: T)
}
