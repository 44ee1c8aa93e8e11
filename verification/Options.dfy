/** A value that may be missing: `null` and `undefined` of the modelled code. */
module Options {
  datatype Option<+T> = None | Some(value: T)
}
