/**
 * The in-memory queryable: a wrapper over a sequence whose query operations each give a new
 * wrapper over the transformed sequence, and whose terminal operations read the elements.
 * The sequence is modelled eagerly; an operation never changes the wrapper it is called on.
 */
module Collections {
  import opened Wrappers
  import opened Text
  import Sorting

  datatype QueryableSequence<T> = QueryableSequence(sequence: seq<T>) {

    /** `filter`: exactly the elements that satisfy `keep`, each as often as it occurs. */
    function Filter(keep: T -> bool): (r: QueryableSequence<T>)
      ensures forall k :: 0 <= k < |r.sequence| ==> r.sequence[k] in sequence && keep(r.sequence[k])
      ensures forall i :: 0 <= i < |sequence| && keep(sequence[i]) ==>
        multiset(r.sequence)[sequence[i]] == multiset(sequence)[sequence[i]]
      ensures multiset(r.sequence) <= multiset(sequence)
    {
      var kept := Kept(sequence, keep);
      KeptMembers(sequence, keep);
      assert forall i :: 0 <= i < |sequence| && keep(sequence[i]) ==>
        multiset(kept)[sequence[i]] == multiset(sequence)[sequence[i]] by {
        forall i | 0 <= i < |sequence| && keep(sequence[i])
          ensures multiset(kept)[sequence[i]] == multiset(sequence)[sequence[i]]
        {
          KeptAll(sequence, keep, sequence[i]);
        }
      }
      QueryableSequence(kept)
    }

    /** `map`: one result per element, in the same order. */
    function Map<R>(mapper: T -> R): (r: QueryableSequence<R>)
      ensures |r.sequence| == |sequence|
      ensures forall i :: 0 <= i < |sequence| ==> r.sequence[i] == mapper(sequence[i])
    {
      QueryableSequence(Mapped(sequence, mapper))
    }

    /** `sortedBy`: the same elements, ascending by the selector. */
    function SortedBy(selector: T -> int): (r: QueryableSequence<T>)
      ensures multiset(r.sequence) == multiset(sequence)
      ensures forall i, j :: 0 <= i < j < |r.sequence| ==> selector(r.sequence[i]) <= selector(r.sequence[j])
    {
      var s := Sorting.SortBy(sequence, selector, false);
      assert forall i, j :: 0 <= i < j < |s| ==> Sorting.InOrder(s[i], s[j], selector, false);
      QueryableSequence(s)
    }

    /** `sortedDescendingBy`: the same elements, descending by the selector. */
    function SortedDescendingBy(selector: T -> int): (r: QueryableSequence<T>)
      ensures multiset(r.sequence) == multiset(sequence)
      ensures forall i, j :: 0 <= i < j < |r.sequence| ==> selector(r.sequence[i]) >= selector(r.sequence[j])
    {
      var s := Sorting.SortBy(sequence, selector, true);
      assert forall i, j :: 0 <= i < j < |s| ==> Sorting.InOrder(s[i], s[j], selector, true);
      QueryableSequence(s)
    }

    /** `drop(offset)`: all but the first `offset` elements; a negative offset is refused. */
    function Drop(offset: int): (r: Outcome<QueryableSequence<T>>)
      ensures r.Throw? <==> offset < 0
      ensures r.Ok? ==> |r.value.sequence| == if offset < |sequence| then |sequence| - offset else 0
      ensures r.Ok? ==> forall i :: 0 <= i < |r.value.sequence| ==> r.value.sequence[i] == sequence[offset + i]
    {
      if offset < 0 then Throw(Some(NegativeCount(offset)))
      else if offset < |sequence| then Ok(QueryableSequence(sequence[offset..]))
      else Ok(QueryableSequence([]))
    }

    /** `take(limit)`: the first `limit` elements, or all when there are fewer; a negative limit is refused. */
    function Take(limit: int): (r: Outcome<QueryableSequence<T>>)
      ensures r.Throw? <==> limit < 0
      ensures r.Ok? ==> |r.value.sequence| == if limit < |sequence| then limit else |sequence|
      ensures r.Ok? ==> forall i :: 0 <= i < |r.value.sequence| ==> r.value.sequence[i] == sequence[i]
    {
      if limit < 0 then Throw(Some(NegativeCount(limit)))
      else if limit < |sequence| then Ok(QueryableSequence(sequence[..limit]))
      else Ok(this)
    }

    function ToList(): seq<T>
    {
      sequence
    }

    /**
     * `join`: for each element in order, `construct(it, right)` for each element `right` of
     * `another` in order for which `condition(it, right)` holds.
     */
    function Join<R, U>(another: QueryableSequence<R>, condition: (T, R) -> bool, construct: (T, R) -> U): (r: QueryableSequence<U>)
      ensures r.sequence == JoinAll(sequence, another.sequence, condition, construct)
      ensures forall k :: 0 <= k < |r.sequence| ==> MatchedPair(sequence, another.sequence, condition, construct, r.sequence[k])
      ensures forall i, j :: 0 <= i < |sequence| && 0 <= j < |another.sequence| && condition(sequence[i], another.sequence[j]) ==>
        construct(sequence[i], another.sequence[j]) in r.sequence
    {
      var joined := JoinAll(sequence, another.sequence, condition, construct);
      JoinMembers(sequence, another.sequence, condition, construct);
      QueryableSequence(joined)
    }

    /** `aggregate(aggFn)`: the function applied to the elements read into a list. */
    function Aggregate<R>(aggFn: seq<T> -> R): (r: R)
      ensures r == aggFn(ToList())
    {
      aggFn(sequence)
    }

    /**
     * `count()`: the number of elements, counted in an `Int`; counting past the largest `Int`
     * fails with an `ArithmeticException`.
     */
    function Count(): (r: Outcome<int>)
      ensures r.Ok? <==> |ToList()| <= IntMax
      ensures r.Ok? ==> r.value == |ToList()|
    {
      if |sequence| > IntMax then Throw(Some("Count overflow has happened.")) else Ok(|sequence|)
    }
  }

  const IntMax: int := 0x7fff_ffff

  // ---------------------------------------------------------------------------
  // filter / map
  // ---------------------------------------------------------------------------

  /** The elements of `s` that satisfy `p`, in their order. */
  function Kept<T>(s: seq<T>, p: T -> bool): (r: seq<T>)
    ensures |r| <= |s|
    decreases |s|
  {
    if s == [] then [] else (if p(s[0]) then [s[0]] else []) + Kept(s[1..], p)
  }

  /** Every kept element is an element that satisfies `p`, and every element that satisfies `p` is kept. */
  lemma {:induction false} KeptMembers<T>(s: seq<T>, p: T -> bool)
    ensures forall k :: 0 <= k < |Kept(s, p)| ==> Kept(s, p)[k] in s && p(Kept(s, p)[k])
    ensures forall i :: 0 <= i < |s| && p(s[i]) ==> s[i] in Kept(s, p)
    ensures multiset(Kept(s, p)) <= multiset(s)
    decreases |s|
  {
    if s != [] {
      KeptMembers(s[1..], p);
      assert s == [s[0]] + s[1..];
      var r := Kept(s, p);
      var head := if p(s[0]) then [s[0]] else [];
      assert r == head + Kept(s[1..], p);
      forall k | 0 <= k < |r|
        ensures r[k] in s && p(r[k])
      {
        if k >= |head| {
          assert r[k] == Kept(s[1..], p)[k - |head|];
        }
      }
      forall i | 0 <= i < |s| && p(s[i])
        ensures s[i] in r
      {
        if i > 0 {
          assert s[i] == s[1..][i - 1];
        }
      }
    }
  }

  /** Filtering works piece by piece, so the kept elements stay in their order. */
  lemma {:induction false} KeptAppend<T>(a: seq<T>, b: seq<T>, p: T -> bool)
    ensures Kept(a + b, p) == Kept(a, p) + Kept(b, p)
    decreases |a|
  {
    if a == [] {
      assert a + b == b;
    } else {
      KeptAppend(a[1..], b, p);
      assert (a + b)[0] == a[0] && (a + b)[1..] == a[1..] + b;
      var head := if p(a[0]) then [a[0]] else [];
      assert Kept(a + b, p) == head + (Kept(a[1..], p) + Kept(b, p));
      assert Kept(a, p) == head + Kept(a[1..], p);
    }
  }

  /** An element that satisfies `p` is kept as often as it occurs. */
  lemma {:induction false} KeptAll<T>(s: seq<T>, p: T -> bool, x: T)
    requires p(x)
    ensures multiset(Kept(s, p))[x] == multiset(s)[x]
    decreases |s|
  {
    if s != [] {
      KeptAll(s[1..], p, x);
      assert s == [s[0]] + s[1..];
    }
  }

  /** `mapper` applied to each element, in order. */
  function Mapped<T, R>(s: seq<T>, mapper: T -> R): (r: seq<R>)
    ensures |r| == |s|
    ensures forall i :: 0 <= i < |s| ==> r[i] == mapper(s[i])
    decreases |s|
  {
    if s == [] then [] else [mapper(s[0])] + Mapped(s[1..], mapper)
  }

  /** Mapping works piece by piece. */
  lemma MappedAppend<T, R>(a: seq<T>, b: seq<T>, mapper: T -> R)
    ensures Mapped(a + b, mapper) == Mapped(a, mapper) + Mapped(b, mapper)
  {
    assert forall i :: 0 <= i < |a| + |b| ==> (a + b)[i] == if i < |a| then a[i] else b[i - |a|];
  }

  // ---------------------------------------------------------------------------
  // drop / take
  // ---------------------------------------------------------------------------

  /** The message of the `IllegalArgumentException` a negative count raises. */
  function NegativeCount(n: int): string
  {
    "Requested element count " + IntToString(n) + " is less than zero."
  }

  /** What `take(n)` keeps and what `drop(n)` keeps make up the whole sequence again. */
  lemma TakeDrop<T>(q: QueryableSequence<T>, n: int)
    requires n >= 0
    ensures q.Take(n).Ok? && q.Drop(n).Ok?
    ensures q.Take(n).value.sequence + q.Drop(n).value.sequence == q.sequence
  {
    var t := q.Take(n).value.sequence;
    var d := q.Drop(n).value.sequence;
    assert t + d == q.sequence by {
      assert |t + d| == |q.sequence|;
      forall i | 0 <= i < |q.sequence|
        ensures (t + d)[i] == q.sequence[i]
      {
        if i >= |t| {
          assert (t + d)[i] == d[i - |t|];
        }
      }
    }
  }

  // ---------------------------------------------------------------------------
  // join
  // ---------------------------------------------------------------------------

  /** `u` is `construct(l, r)` for some left `l` and right `r` that satisfy the condition. */
  ghost predicate MatchedPair<T, R, U>(lefts: seq<T>, rights: seq<R>, condition: (T, R) -> bool, construct: (T, R) -> U, u: U)
  {
    exists i, j :: 0 <= i < |lefts| && 0 <= j < |rights| && condition(lefts[i], rights[j]) && u == construct(lefts[i], rights[j])
  }

  /** The results for one left element: the matching right elements in order, each constructed with it. */
  function JoinRow<T, R, U>(left: T, rights: seq<R>, condition: (T, R) -> bool, construct: (T, R) -> U): seq<U>
  {
    Mapped(Kept(rights, right => condition(left, right)), right => construct(left, right))
  }

  /** A row holds exactly `construct(left, right)` for the matching right elements. */
  lemma JoinRowMembers<T, R, U>(left: T, rights: seq<R>, condition: (T, R) -> bool, construct: (T, R) -> U)
    ensures forall k :: 0 <= k < |JoinRow(left, rights, condition, construct)| ==>
      MatchedPair([left], rights, condition, construct, JoinRow(left, rights, condition, construct)[k])
    ensures forall j :: 0 <= j < |rights| && condition(left, rights[j]) ==>
      construct(left, rights[j]) in JoinRow(left, rights, condition, construct)
  {
    var keep := right => condition(left, right);
    var matching := Kept(rights, keep);
    KeptMembers(rights, keep);
    var r := JoinRow(left, rights, condition, construct);
    assert forall k :: 0 <= k < |r| ==> r[k] == construct(left, matching[k]);
    forall k | 0 <= k < |r|
      ensures MatchedPair([left], rights, condition, construct, r[k])
    {
      assert matching[k] in rights && keep(matching[k]);
      var j :| 0 <= j < |rights| && rights[j] == matching[k];
      assert condition([left][0], rights[j]) && r[k] == construct([left][0], rights[j]);
    }
    forall j | 0 <= j < |rights| && condition(left, rights[j])
      ensures construct(left, rights[j]) in r
    {
      assert keep(rights[j]);
      assert rights[j] in matching;
      var k :| 0 <= k < |matching| && matching[k] == rights[j];
      assert r[k] == construct(left, rights[j]);
    }
  }

  /** `flatMap`: the results of `f` for the elements of `s`, one after the other. */
  function FlatMap<T, U>(s: seq<T>, f: T -> seq<U>): seq<U>
    decreases |s|
  {
    if s == [] then [] else f(s[0]) + FlatMap(s[1..], f)
  }

  /** Flat-mapping works piece by piece, so the results follow the order of the elements. */
  lemma {:induction false} FlatMapAppend<T, U>(a: seq<T>, b: seq<T>, f: T -> seq<U>)
    ensures FlatMap(a + b, f) == FlatMap(a, f) + FlatMap(b, f)
    decreases |a|
  {
    if a == [] {
      assert a + b == b;
    } else {
      FlatMapAppend(a[1..], b, f);
      assert (a + b)[0] == a[0] && (a + b)[1..] == a[1..] + b;
      assert FlatMap(a + b, f) == f(a[0]) + FlatMap(a[1..] + b, f);
    }
  }

  /** The rows of the left elements, one after the other. */
  function JoinAll<T, R, U>(lefts: seq<T>, rights: seq<R>, condition: (T, R) -> bool, construct: (T, R) -> U): seq<U>
  {
    FlatMap(lefts, left => JoinRow(left, rights, condition, construct))
  }

  /** Within a row the results follow the order of the right elements. */
  lemma JoinRowAppend<T, R, U>(left: T, a: seq<R>, b: seq<R>, condition: (T, R) -> bool, construct: (T, R) -> U)
    ensures JoinRow(left, a + b, condition, construct) ==
      JoinRow(left, a, condition, construct) + JoinRow(left, b, condition, construct)
  {
    var keep := right => condition(left, right);
    KeptAppend(a, b, keep);
    MappedAppend(Kept(a, keep), Kept(b, keep), right => construct(left, right));
  }

  /**
   * The join of one left and one right element: their construction when they match, nothing
   * otherwise. With `JoinAllAppend` and `JoinRowAppend` this fixes every joined sequence: the
   * pairs in left-major order, each matching pair exactly once.
   */
  lemma JoinPair<T, R, U>(left: T, right: R, condition: (T, R) -> bool, construct: (T, R) -> U)
    ensures JoinAll([left], [right], condition, construct) ==
      if condition(left, right) then [construct(left, right)] else []
  {
    var keep := r => condition(left, r);
    assert [right][1..] == [];
    assert Kept([right], keep) == (if condition(left, right) then [right] else []);
    assert JoinRow(left, [right], condition, construct) == Mapped(Kept([right], keep), r => construct(left, r));
    assert [left][1..] == [];
    var row := l => JoinRow(l, [right], condition, construct);
    assert FlatMap([left], row) == row(left) + FlatMap([], row);
  }

  /** Joining with no right elements gives nothing. */
  lemma {:induction false} JoinEmpty<T, R, U>(lefts: seq<T>, condition: (T, R) -> bool, construct: (T, R) -> U)
    ensures JoinAll(lefts, [], condition, construct) == []
    decreases |lefts|
  {
    if lefts != [] {
      JoinEmpty(lefts[1..], condition, construct);
    }
  }

  /** The rows of the left elements follow each other in the left elements' order. */
  lemma JoinAllAppend<T, R, U>(a: seq<T>, b: seq<T>, rights: seq<R>, condition: (T, R) -> bool, construct: (T, R) -> U)
    ensures JoinAll(a + b, rights, condition, construct) == JoinAll(a, rights, condition, construct) + JoinAll(b, rights, condition, construct)
  {
    FlatMapAppend(a, b, left => JoinRow(left, rights, condition, construct));
  }

  /** A joined element is exactly `construct(l, r)` for a left `l` and a right `r` that match. */
  lemma {:induction false} JoinMembers<T, R, U>(lefts: seq<T>, rights: seq<R>, condition: (T, R) -> bool, construct: (T, R) -> U)
    ensures forall k :: 0 <= k < |JoinAll(lefts, rights, condition, construct)| ==>
      MatchedPair(lefts, rights, condition, construct, JoinAll(lefts, rights, condition, construct)[k])
    ensures forall i, j :: 0 <= i < |lefts| && 0 <= j < |rights| && condition(lefts[i], rights[j]) ==>
      construct(lefts[i], rights[j]) in JoinAll(lefts, rights, condition, construct)
    decreases |lefts|
  {
    if lefts != [] {
      var tail := lefts[1..];
      JoinMembers(tail, rights, condition, construct);
      JoinRowMembers(lefts[0], rights, condition, construct);
      var row := JoinRow(lefts[0], rights, condition, construct);
      var rest := JoinAll(tail, rights, condition, construct);
      var r := row + rest;
      assert JoinAll(lefts, rights, condition, construct) == r;
      forall k | 0 <= k < |r|
        ensures MatchedPair(lefts, rights, condition, construct, r[k])
      {
        if k < |row| {
          assert MatchedPair([lefts[0]], rights, condition, construct, row[k]);
          var i, j :| 0 <= i < 1 && 0 <= j < |rights| && condition([lefts[0]][i], rights[j]) && row[k] == construct([lefts[0]][i], rights[j]);
          assert r[k] == construct(lefts[0], rights[j]);
        } else {
          var m := k - |row|;
          assert r[k] == rest[m];
          assert MatchedPair(tail, rights, condition, construct, rest[m]);
          var i, j :| 0 <= i < |tail| && 0 <= j < |rights| && condition(tail[i], rights[j]) && rest[m] == construct(tail[i], rights[j]);
          assert tail[i] == lefts[i + 1];
        }
      }
      forall i, j | 0 <= i < |lefts| && 0 <= j < |rights| && condition(lefts[i], rights[j])
        ensures construct(lefts[i], rights[j]) in r
      {
        if i > 0 {
          assert tail[i - 1] == lefts[i];
        }
      }
    }
  }

  // ---------------------------------------------------------------------------
  // extensions
  // ---------------------------------------------------------------------------

  function AsQueryable<T>(s: seq<T>): QueryableSequence<T>
  {
    QueryableSequence(s)
  }

  function AsSequence<T>(q: QueryableSequence<T>): seq<T>
  {
    q.sequence
  }

  /** Wrapping a sequence and unwrapping it again gives it back, and the other way round. */
  lemma WrapRoundTrip<T>(s: seq<T>, q: QueryableSequence<T>)
    ensures AsSequence(AsQueryable(s)) == s
    ensures AsQueryable(AsSequence(q)) == q
  {
  }

  function QueryableSequenceOf<T>(items: seq<T>): (r: QueryableSequence<T>)
    ensures r.ToList() == items
  {
    AsQueryable(items)
  }

  /** `first()`: element 0 of `take(1).toList()`; an empty source has no element 0. */
  function First<T>(q: QueryableSequence<T>): (r: Outcome<T>)
    ensures r.Ok? <==> q.sequence != []
    ensures r.Ok? ==> r.value == q.sequence[0]
  {
    var taken := q.Take(1).value.ToList();
    if |taken| == 0 then Throw(Some("Empty list doesn't contain element at index 0."))
    else Ok(taken[0])
  }
}
