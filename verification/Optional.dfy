/** A value that may be missing: `null` and `undefined`. */
module Optional {
  datatype Option<T> = None | Some(value: T)
}
