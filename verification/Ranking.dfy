/** `sorted(..., key=..., reverse=True)`: stable, largest first. */
module Ranking {
  type Key<!T> = T -> real

  function Insert<T>(x: T, xs: seq<T>, key: Key<T>): seq<T> {
    if xs == [] || key(x) >= key(xs[0]) then [x] + xs else [xs[0]] + Insert(x, xs[1..], key)
  }

  function SortDesc<T>(xs: seq<T>, key: Key<T>): seq<T> {
    if xs == [] then [] else Insert(xs[0], SortDesc(xs[1..], key), key)
  }

  ghost predicate Descending<T>(xs: seq<T>, key: Key<T>) {
    forall i, j :: 0 <= i < j < |xs| ==> key(xs[i]) >= key(xs[j])
  }

  predicate AtMost<T>(xs: seq<T>, key: Key<T>, bound: real) { forall i :: 0 <= i < |xs| ==> key(xs[i]) <= bound }

  lemma {:induction false} InsertAtMost<T>(x: T, xs: seq<T>, key: Key<T>, bound: real)
    requires AtMost(xs, key, bound) && key(x) <= bound
    ensures AtMost(Insert(x, xs, key), key, bound)
  {
    if xs != [] && key(x) < key(xs[0]) { InsertAtMost(x, xs[1..], key, bound); }
  }

  lemma {:induction false} InsertMembers<T>(x: T, xs: seq<T>, key: Key<T>)
    ensures multiset(Insert(x, xs, key)) == multiset{x} + multiset(xs)
  {
    if xs != [] && key(x) < key(xs[0]) {
      InsertMembers(x, xs[1..], key);
      assert xs == [xs[0]] + xs[1..];
    }
  }

  lemma {:induction false} InsertSorted<T>(x: T, xs: seq<T>, key: Key<T>)
    requires Descending(xs, key)
    ensures Descending(Insert(x, xs, key), key)
  {
    if xs != [] && key(x) < key(xs[0]) {
      InsertSorted(x, xs[1..], key);
      InsertAtMost(x, xs[1..], key, key(xs[0]));
    }
  }

  /** The sorted sequence is a permutation in non-increasing order of its keys. */
  lemma {:induction false} SortDescSorts<T>(xs: seq<T>, key: Key<T>)
    ensures Descending(SortDesc(xs, key), key)
    ensures multiset(SortDesc(xs, key)) == multiset(xs)
  {
    if xs != [] {
      SortDescSorts(xs[1..], key);
      InsertSorted(xs[0], SortDesc(xs[1..], key), key);
      InsertMembers(xs[0], SortDesc(xs[1..], key), key);
      assert xs == [xs[0]] + xs[1..];
    }
  }

  lemma {:induction false} SortDescSorted<T>(xs: seq<T>, key: Key<T>)
    requires Descending(xs, key)
    ensures SortDesc(xs, key) == xs
  {
    if xs != [] {
      SortDescSorted(xs[1..], key);
      assert xs == [xs[0]] + xs[1..];
    }
  }

  /** The same members, with the same number of times each. */
  lemma SortDescMembers<T>(xs: seq<T>, key: Key<T>)
    ensures |SortDesc(xs, key)| == |xs|
    ensures forall x :: x in SortDesc(xs, key) <==> x in xs
  {
    SortDescSorts(xs, key);
    assert |multiset(SortDesc(xs, key))| == |multiset(xs)|;
    assert forall x :: x in SortDesc(xs, key) <==> x in multiset(SortDesc(xs, key));
    assert forall x :: x in xs <==> x in multiset(xs);
  }

  /** Merging two sequences, the first having precedence on equal keys. */
  function Merge<T>(a: seq<T>, b: seq<T>, key: Key<T>): seq<T>
    decreases |a| + |b|
  {
    if a == [] then b
    else if b == [] || key(a[0]) >= key(b[0]) then [a[0]] + Merge(a[1..], b, key)
    else [b[0]] + Merge(a, b[1..], key)
  }

  lemma {:induction false} InsertMerge<T>(x: T, a: seq<T>, b: seq<T>, key: Key<T>)
    requires a != [] ==> key(x) >= key(a[0])
    ensures Insert(x, Merge(a, b, key), key) == Merge([x] + a, b, key)
    decreases |b|
  {
    assert ([x] + a)[1..] == a;
    if b != [] && key(x) < key(b[0]) {
      InsertMerge(x, a, b[1..], key);
      if a == [] {
        assert Merge(a, b[1..], key) == b[1..];
        assert b == [b[0]] + b[1..];
      } else {
        assert Merge(a, b, key) == [b[0]] + Merge(a, b[1..], key);
      }
      assert Merge(a, b, key)[1..] == Merge(a, b[1..], key);
    }
  }

  /** Two sorted sequences one after the other sort into their merge: that is what stability means here. */
  lemma {:induction false} SortDescAppend<T>(a: seq<T>, b: seq<T>, key: Key<T>)
    requires Descending(a, key) && Descending(b, key)
    ensures SortDesc(a + b, key) == Merge(a, b, key)
  {
    if a == [] {
      assert a + b == b;
      SortDescSorted(b, key);
    } else {
      assert (a + b)[1..] == a[1..] + b;
      SortDescAppend(a[1..], b, key);
      InsertMerge(a[0], a[1..], b, key);
      assert [a[0]] + a[1..] == a;
    }
  }
}
