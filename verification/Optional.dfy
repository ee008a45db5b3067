module Optional {
  /** A value or NULL. */
  datatype Option<+T> = None | Some(value: T)
}
