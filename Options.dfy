/** Optional values: a DOM attribute or a stored item that may be absent (`null`/`undefined`). */
module Options {
  datatype Option<+T> = None | Some(value: T)
}
