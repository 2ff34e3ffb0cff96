/** Python's `None`-or-value, used for optional sections and lookups. */
module Wrappers {

  datatype Option<+T> = None | Some(value: T)

  /** The first of `a`, `b` that holds a value. */
  function Prefer<T>(a: Option<T>, b: Option<T>): (r: Option<T>)
    ensures r.Some? <==> a.Some? || b.Some?
    ensures a.Some? ==> r == a
    ensures a.None? ==> r == b
  {
    if a.Some? then a else b
  }
}
