/** A value that may be missing. */
module Options {
  datatype Option<T> = Nothing | Just(value: T)
}
