/** A value that may be missing: JavaScript's `null`/`undefined`, or `NaN` from a failed parse. */
module Optional {
  datatype Option<+T> = None | Some(value: T)
}
