/** The one optional type every other module uses for `std::optional` and nullable pointers. */
module Options {
  datatype Option<+T> = None | Some(value: T)
}
