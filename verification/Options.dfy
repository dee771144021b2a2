/** A value that may be missing: the source's `std::optional`. */
module Options {
  datatype Option<+T> = None | Some(value: T)
}
