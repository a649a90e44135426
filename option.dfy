/** An optional value: a property that may be absent, a lookup that may miss. */
module Optional {
  datatype Option<+T> = None | Some(value: T)
}
