/** An optional value (a nil pointer, a missing object, a failed call), and a choice from a set. */
module Wrappers {
  datatype Option<+T> = None | Some(value: T)

  /** A set that is not empty has an element to choose. */
  lemma {:induction false} AnyElement<T>(s: set<T>) returns (x: T)
    requires s != {}
    ensures x in s
  {
    x :| x in s;
  }
}
