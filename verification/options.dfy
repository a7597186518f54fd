/** An optional value: a pending deadline, a looked-up entry, a parsed pair. */
module Options {
  datatype Option<+T> = None | Some(value: T)
}
