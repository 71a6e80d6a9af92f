/** A value that may be absent, as pandas' `NaT` is for the minimum of no dates. */
module Options {

  datatype Option<+T> = None | Some(value: T)
}
