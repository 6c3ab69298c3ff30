/** The usual optional value, standing for nullable pointers and for foreign
    calls that can fail. */
module Options {
  datatype Option<+T> = None | Some(value: T)
}
