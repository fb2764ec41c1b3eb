/** A value or none: a lookup that may find nothing, a field that may be unset. */
module Options {
  datatype Option<T> = None | Some(value: T)
}
