/** A value that may be missing: the model's stand-in for a C/C++ null pointer. */
module Opt {
  datatype Option<T> = None | Some(value: T)
  {
    predicate IsSome() { Some? }

    /** The held value, or `d` when there is none. */
    function GetOr(d: T): (r: T)
      ensures Some? ==> r == value
      ensures None? ==> r == d
    {
      match this
      case Some(v) => v
      case None => d
    }
  }
}
