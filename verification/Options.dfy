/** The conventional optional value, used where the source has a nil pointer or a missing map key. */
module Options {
  datatype Option<+T> = None | Some(value: T)
}
