/** Result types and a bounded prefix shared by the modules, and the arbitrary choice behind Go's range over a map. */
module Wrappers {
  datatype Option<+T> = None | Some(value: T)

  datatype Result<+T, +E> = Ok(value: T) | Err(error: E)

  // The first n elements, or all of them.
  function Take<T>(s: seq<T>, n: nat): seq<T> {
    if n <= |s| then s[..n] else s
  }

  // The next key of a map being ranged over: any that has not come up yet.
  method AnyOf<T(==)>(rest: set<T>) returns (x: T)
    requires rest != {}
    ensures x in rest
  {
    x :| x in rest;
  }
}
