/** An optional value: the source's pointer or lookup that may be null. */
module Options {
  datatype Option<+T> = None | Some(value: T)
}
