/** The optional value: an unparseable body, a search that finds nothing, a
    part of a request that may be absent. */
module Options {

  datatype Option<+T> = None | Some(value: T)
}
