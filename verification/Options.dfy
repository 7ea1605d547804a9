/** The optional results that the program expresses with NULL. */
module Options {
  datatype Option<+T> = None | Some(value: T)
}
