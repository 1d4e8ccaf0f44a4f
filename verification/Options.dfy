/** The usual option type, for absent values and failed lookups. */
module Options {
  datatype Option<+T> = None | Some(value: T)
}
