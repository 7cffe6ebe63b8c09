/** What the modules of this project share: the option type, subtraction that stops at zero, and
    sequences without repetition. */
module Wrappers {
  datatype Option<+T> = None | Some(value: T)

  function SaturatingSub(a: nat, b: nat): nat { if a >= b then a - b else 0 }

  ghost predicate NoDuplicates<T(!new)>(items: seq<T>) {
    forall i, j | 0 <= i < j < |items| :: items[i] != items[j]
  }
}
