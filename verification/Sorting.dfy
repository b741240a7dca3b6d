// Stable insertion sort by a comparison, as the standard library sorts.
module Sorting {

  ghost predicate Transitive<T(!new)>(before: (T, T) -> bool) {
    forall x, y, z :: before(x, y) && before(y, z) ==> before(x, z)
  }

  // No element comes before one that is listed ahead of it.
  ghost predicate Ordered<T>(before: (T, T) -> bool, xs: seq<T>) {
    forall i, j :: 0 <= i < j < |xs| ==> !before(xs[j], xs[i])
  }

  function Insert<T>(before: (T, T) -> bool, x: T, xs: seq<T>): (r: seq<T>)
    ensures multiset(r) == multiset{x} + multiset(xs)
  {
    if xs == [] || before(x, xs[0]) then [x] + xs
    else
      assert xs == [xs[0]] + xs[1..];
      [xs[0]] + Insert(before, x, xs[1..])
  }

  function Sort<T>(before: (T, T) -> bool, xs: seq<T>): (r: seq<T>)
    ensures multiset(r) == multiset(xs)
  {
    if xs == [] then []
    else
      assert xs == xs[..|xs| - 1] + [xs[|xs| - 1]];
      Insert(before, xs[|xs| - 1], Sort(before, xs[..|xs| - 1]))
  }

  lemma {:induction false} InsertOrdered<T(!new)>(before: (T, T) -> bool, x: T, xs: seq<T>)
    requires Transitive(before) && Ordered(before, xs) && !before(x, x)
    ensures Ordered(before, Insert(before, x, xs))
  {
    if xs != [] && !before(x, xs[0]) {
      InsertOrdered(before, x, xs[1..]);
      var rest := Insert(before, x, xs[1..]);
      forall j | 0 <= j < |rest| ensures !before(rest[j], xs[0]) {
        SameMembers(rest, [x] + xs[1..]);
        assert rest[j] in rest;
      }
    }
  }

  lemma {:induction false} SortOrdered<T(!new)>(before: (T, T) -> bool, xs: seq<T>)
    requires Transitive(before) && forall x :: x in xs ==> !before(x, x)
    ensures Ordered(before, Sort(before, xs))
  {
    if xs != [] {
      SortOrdered(before, xs[..|xs| - 1]);
      InsertOrdered(before, xs[|xs| - 1], Sort(before, xs[..|xs| - 1]));
    }
  }

  lemma SameMembers<T>(a: seq<T>, b: seq<T>)
    requires multiset(a) == multiset(b)
    ensures forall x :: x in a <==> x in b
  {
    forall x ensures x in a <==> x in b {
      assert x in a <==> x in multiset(a);
      assert x in b <==> x in multiset(b);
    }
  }

  ghost predicate Distinct<T>(xs: seq<T>) {
    forall i, j :: 0 <= i < j < |xs| ==> xs[i] != xs[j]
  }

  lemma {:induction false} CountOnce<T>(xs: seq<T>, x: T)
    requires Distinct(xs)
    ensures multiset(xs)[x] == if x in xs then 1 else 0
  {
    if xs != [] {
      CountOnce(xs[..|xs| - 1], x);
      assert xs == xs[..|xs| - 1] + [xs[|xs| - 1]];
    }
  }

  lemma CountAtMostOnce<T>(xs: seq<T>, i: nat, j: nat)
    requires i < j < |xs| && xs[i] == xs[j]
    ensures multiset(xs)[xs[i]] >= 2
  {
    assert xs == xs[..i] + [xs[i]] + xs[i + 1..j] + [xs[j]] + xs[j + 1..];
  }

  // A rearrangement of a list without repeats has none.
  lemma DistinctKept<T>(a: seq<T>, b: seq<T>)
    requires multiset(a) == multiset(b) && Distinct(a)
    ensures Distinct(b)
  {
    forall i, j | 0 <= i < j < |b| ensures b[i] != b[j] {
      CountOnce(a, b[i]);
      if b[i] == b[j] {
        CountAtMostOnce(b, i, j);
      }
    }
  }
}
