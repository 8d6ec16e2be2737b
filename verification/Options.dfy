/** A value that may be missing: a null pointer, a null reply, an absent entry. */
module Options {
  datatype Option<+T> = None | Some(value: T)
}
