/** A value that may be missing: `std::optional`, `npos`, an empty handle. */
module Options {
  datatype Option<+T> = None | Some(value: T)
}
