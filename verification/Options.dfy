module Options {
  /** A possibly null value. */
  datatype Option<+T> = None | Some(value: T)
}
