/** A value that may be missing: `null`, `None` and `undefined` of the sources. */
module Optional {
  datatype Option<T> = None | Some(value: T)
}
