/** A value that may be absent: JavaScript's `null` for a missing date or a missing slot. */
module Optional {
  datatype Option<+T> = None | Some(value: T)
}
