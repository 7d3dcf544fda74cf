/** A result that may be missing: a failed lookup, or a call that panics. */
module Options {
  datatype Option<+T> = None | Some(value: T)
}
