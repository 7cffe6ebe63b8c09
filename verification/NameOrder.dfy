/** The order of names, and sorting by an order. */
module NameOrder {
  import opened Wrappers

  /** The strict lexicographic order of strings. */
  predicate Before(a: string, b: string) {
    b != "" && (a == "" || a[0] < b[0] || (a[0] == b[0] && Before(a[1..], b[1..])))
  }

  lemma {:induction false} BeforeIsTotal(a: string, b: string)
    ensures a == b || Before(a, b) || Before(b, a)
  {
    if a != "" && b != "" && a[0] == b[0] {
      BeforeIsTotal(a[1..], b[1..]);
      assert a == [a[0]] + a[1..] && b == [b[0]] + b[1..];
    }
  }

  lemma {:induction false} BeforeIsAsymmetric(a: string, b: string)
    requires Before(a, b)
    ensures !Before(b, a)
  {
    if a != "" && a[0] == b[0] {
      BeforeIsAsymmetric(a[1..], b[1..]);
    }
  }

  lemma {:induction false} BeforeIsTransitive(a: string, b: string, c: string)
    requires Before(a, b) && Before(b, c)
    ensures Before(a, c)
  {
    if a != "" && a[0] == b[0] == c[0] {
      BeforeIsTransitive(a[1..], b[1..], c[1..]);
    }
  }

  ghost predicate IsStrictOrder<T(!new)>(before: (T, T) -> bool) {
    (forall a :: !before(a, a)) && forall a, b, c :: before(a, b) && before(b, c) ==> before(a, c)
  }

  /** No item comes after one that it should come before. */
  ghost predicate IsOrdered<T>(items: seq<T>, before: (T, T) -> bool) {
    forall i, j | 0 <= i < j < |items| :: !before(items[j], items[i])
  }

  method SortBy<T(!new)>(items: seq<T>, before: (T, T) -> bool) returns (r: seq<T>)
    requires IsStrictOrder(before)
    ensures multiset(r) == multiset(items) && IsOrdered(r, before)
  {
    r := [];
    for i := 0 to |items|
      invariant multiset(r) == multiset(items[..i]) && IsOrdered(r, before)
    {
      r := Insert(r, items[i], before);
      assert items[..i + 1] == items[..i] + [items[i]];
    }
    assert items[..|items|] == items;
  }

  method Insert<T(!new)>(items: seq<T>, item: T, before: (T, T) -> bool) returns (r: seq<T>)
    requires IsStrictOrder(before) && IsOrdered(items, before)
    ensures multiset(r) == multiset(items) + multiset{item} && IsOrdered(r, before)
  {
    var at := 0;
    while at < |items| && !before(item, items[at])
      invariant 0 <= at <= |items|
      invariant forall k | 0 <= k < at :: !before(item, items[k])
    {
      at := at + 1;
    }
    r := items[..at] + [item] + items[at..];
    InsertedInOrder(items, item, before, at);
    assert items == items[..at] + items[at..];
  }

  lemma InsertedInOrder<T(!new)>(items: seq<T>, item: T, before: (T, T) -> bool, at: nat)
    requires IsStrictOrder(before) && IsOrdered(items, before) && at <= |items|
    requires at < |items| ==> before(item, items[at])
    requires forall k | 0 <= k < at :: !before(item, items[k])
    ensures IsOrdered(items[..at] + [item] + items[at..], before)
  {
    assert forall k | at <= k < |items| :: !before(items[k], item);
  }

  lemma {:induction false} CountsOfDistinctItems<T(!new)>(items: seq<T>, x: T)
    requires NoDuplicates(items)
    ensures multiset(items)[x] <= 1
  {
    if items != [] {
      var last := |items| - 1;
      CountsOfDistinctItems(items[..last], x);
      assert items == items[..last] + [items[last]];
      assert items[last] !in items[..last];
    }
  }

  /** Rearranging keeps the items, and none becomes double. */
  lemma RearrangedItems<T(!new)>(items: seq<T>, r: seq<T>)
    requires NoDuplicates(items) && multiset(r) == multiset(items)
    ensures NoDuplicates(r) && |r| == |items| && forall x :: x in r <==> x in items
  {
    assert |multiset(r)| == |r|;
    forall x ensures x in r <==> x in items {
      assert x in r <==> x in multiset(r);
    }
    forall i, j | 0 <= i < j < |r| ensures r[i] != r[j] {
      CountsOfDistinctItems(items, r[i]);
      assert r == r[..j] + r[j..] && r[i] in r[..j] && r[j] in r[j..];
    }
  }
}
