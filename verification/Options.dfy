/** Optional values, standing for the nullable columns and absent keys of the program. */
module Options {
  datatype Option<+T> = None | Some(value: T)
}
