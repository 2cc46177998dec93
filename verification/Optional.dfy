/** The usual optional value, shared by every module. */
module Optional {
  datatype Option<+T> = None | Some(value: T)
}
