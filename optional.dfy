/** The usual optional-value datatype, shared by the other modules. */
module Optional {
  datatype Option<+T> = None | Some(value: T)
}
