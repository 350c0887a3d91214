/** A value that may be missing: a null pointer, an empty slot, a run that does not go through. */
module Options {
  datatype Option<+T> = None | Some(value: T)
}
