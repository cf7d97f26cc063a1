/** `std::optional` and out-parameters guarded by a success flag. */
module Options {
  datatype Option<T> = None | Some(value: T)
}
