/** The "no result" sentinel of the library: a validator answers `None`
    (JavaScript `null`) when the value passes, `Some(error)` otherwise. */
module Options {
  datatype Option<+T> = None | Some(value: T)
}
