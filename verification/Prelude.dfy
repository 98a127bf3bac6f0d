/** What several components need. */
module Prelude {

  /** A value that may be absent. */
  datatype Option<+T> = None | Some(value: T)

  /** Some element of a set, as the iteration over a map yields them. */
  method Pick<T(==)>(s: set<T>) returns (x: T)
    requires s != {}
    ensures x in s
  {
    x :| x in s;
  }
}
