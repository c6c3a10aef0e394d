/** Pieces of a sequence put together, and how often it holds an element. */
module Sequences {
  function Concat<T>(parts: seq<seq<T>>): seq<T> {
    if parts == [] then [] else Concat(parts[..|parts| - 1]) + parts[|parts| - 1]
  }

  function CountIn<T(==)>(s: seq<T>, x: T): nat {
    multiset(s)[x]
  }

  function B(b: bool): nat {
    if b then 1 else 0
  }
}
