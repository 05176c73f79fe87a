/** Optional values, as the source's `X | None`. */
module Options {
  datatype Option<T> = None | Some(value: T)
}
