/** An optional value: Python's `None`, or something. */
module Options {

  datatype Maybe<T> = None | Some(value: T)
}
