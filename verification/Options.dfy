/** The optional value used for iterators (an iterator is a key or `end`), for
    lookups that may miss and for optional protobuf fields. */
module Options {
  datatype Option<+T> = None | Some(value: T)
}
