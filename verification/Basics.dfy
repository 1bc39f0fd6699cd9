/** Definitions shared by all components. */
module Basics {

  datatype Option<+T> = Some(value: T) | None

  type Byte = x: int | 0 <= x < 256

  /** A block hash, as it travels in votes and proposals. */
  type Hash = seq<Byte>

  function Elements<T(==)>(list: seq<T>): set<T> {
    set x | x in list
  }

  /** No element is listed twice. */
  ghost predicate NoRepeats<T>(list: seq<T>) {
    forall i, j :: 0 <= i < j < |list| ==> list[i] != list[j]
  }
}
