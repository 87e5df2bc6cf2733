/** Optional values, for lookups and analyses that may have no answer. */
module Options {
  datatype Option<+T> = None | Some(value: T)
}
