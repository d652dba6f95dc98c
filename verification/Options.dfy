/** Optional values: Go's nil results and missing map entries. */
module Options {
  datatype Option<+T> = None | Some(value: T)
}
