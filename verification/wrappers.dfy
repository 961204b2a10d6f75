/** Values that may be absent: a header, a stored parameter, an address. */
module Wrappers {

  datatype Option<+T> = None | Some(value: T)

  /** The value if there is one, else the fallback the caller supplies. */
  function GetOr<T>(o: Option<T>, fallback: T): T {
    if o.Some? then o.value else fallback
  }
}
