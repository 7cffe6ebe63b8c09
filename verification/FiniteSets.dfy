/** Finite sets: the elements of a sequence, and counting. */
module FiniteSets {
  function Elems<T>(items: seq<T>): set<T> { set x | x in items }

  lemma {:induction false} SubsetHasFewer<T>(a: set<T>, b: set<T>)
    requires a <= b
    ensures |a| <= |b|
  {
    if a != {} {
      var x :| x in a;
      SubsetHasFewer(a - {x}, b - {x});
    }
  }

  lemma {:induction false} SubsetOfSameSizeIsAll<T>(a: set<T>, b: set<T>)
    requires a <= b && |a| == |b|
    ensures a == b
  {
    if a != {} {
      var x :| x in a;
      SubsetOfSameSizeIsAll(a - {x}, b - {x});
    }
  }
}
