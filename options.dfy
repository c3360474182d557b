/** An optional value, for the source's std::optional results. */
module Options {
  datatype Option<T> = None | Some(value: T)
}
