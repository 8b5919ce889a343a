/** A value that may be missing. */
module Options {

  datatype Option<+T> = None | Some(value: T)

  function Coalesce<T>(a: Option<T>, b: T): T
  {
    if a.Some? then a.value else b
  }
}
