/**
 * Stable sorting by an integer key, ascending or descending: the ordering that Kotlin's
 * `sortedBy` and `sortedByDescending` give (both are stable).
 */
module Sorting {

  /** `a` may stand before `b` in the requested order. */
  predicate InOrder<T>(a: T, b: T, key: T -> int, descending: bool)
  {
    if descending then key(a) >= key(b) else key(a) <= key(b)
  }

  /** Every earlier element may stand before every later one. */
  predicate SortedBy<T>(s: seq<T>, key: T -> int, descending: bool)
  {
    forall i, j :: 0 <= i < j < |s| ==> InOrder(s[i], s[j], key, descending)
  }

  /** Put `x` ahead of the first element it may stand before. */
  function Insert<T>(x: T, s: seq<T>, key: T -> int, descending: bool): (r: seq<T>)
    ensures multiset(r) == multiset(s) + multiset{x}
    ensures |r| == |s| + 1
    decreases s
  {
    if s == [] || InOrder(x, s[0], key, descending) then
      [x] + s
    else
      assert s == [s[0]] + s[1..];
      [s[0]] + Insert(x, s[1..], key, descending)
  }

  lemma {:induction false} InsertSorted<T>(x: T, s: seq<T>, key: T -> int, descending: bool)
    requires SortedBy(s, key, descending)
    ensures SortedBy(Insert(x, s, key, descending), key, descending)
    decreases s
  {
    if s != [] && !InOrder(x, s[0], key, descending) {
      var rest := Insert(x, s[1..], key, descending);
      InsertSorted(x, s[1..], key, descending);
      assert s == [s[0]] + s[1..];
      forall y | y in rest
        ensures InOrder(s[0], y, key, descending)
      {
        assert y in multiset(rest);
        if y != x {
          assert y in multiset(s[1..]);
          var j :| 0 <= j < |s[1..]| && s[1..][j] == y;
          assert s[j + 1] == y;
        }
      }
      var r := [s[0]] + rest;
      assert r == Insert(x, s, key, descending);
      forall i, j | 0 <= i < j < |r|
        ensures InOrder(r[i], r[j], key, descending)
      {
        if i == 0 {
          assert r[j] == rest[j - 1];
          assert r[j] in rest;
        } else {
          assert r[i] == rest[i - 1] && r[j] == rest[j - 1];
        }
      }
    }
  }

  /** Insertion sort from the back: the first element is inserted last, ahead of its equals. */
  function SortBy<T>(xs: seq<T>, key: T -> int, descending: bool): (r: seq<T>)
    ensures multiset(r) == multiset(xs)
    ensures |r| == |xs|
    ensures SortedBy(r, key, descending)
    decreases xs
  {
    if xs == [] then []
    else
      assert xs == [xs[0]] + xs[1..];
      InsertSorted(xs[0], SortBy(xs[1..], key, descending), key, descending);
      Insert(xs[0], SortBy(xs[1..], key, descending), key, descending)
  }
}
