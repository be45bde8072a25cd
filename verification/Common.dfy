/** What several parts share: an optional value, and a sequence without repetitions. */
module Common {
  datatype Option<T> = None | Some(value: T)

  predicate NoRepeats<T(==)>(xs: seq<T>) {
    forall i, j :: 0 <= i < j < |xs| ==> xs[i] != xs[j]
  }
}
