/** Optional values: a field or argument that may be absent (`undefined`). */
module Optional {

  datatype Option<+T> = None | Some(value: T)

}
