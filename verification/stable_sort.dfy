/** Stable sorting, the contract of LINQ's `OrderBy` / `OrderByDescending`:
    the result is ordered by the key, and items with equal keys keep the
    order they had in the input. */
module StableSort {

  /** `lt` is a strict weak order: irreflexive, transitive, and whenever
      `a` is below `c`, any `b` is above `a` or below `c`. Ordering by a key
      with a total order on keys always has this shape. */
  ghost predicate StrictWeakOrder<T(!new)>(lt: (T, T) -> bool)
  {
    && (forall a :: !lt(a, a))
    && (forall a, b, c :: lt(a, b) && lt(b, c) ==> lt(a, c))
    && (forall a, b, c :: lt(a, c) ==> lt(a, b) || lt(b, c))
  }

  /** No later item is strictly below an earlier one. */
  ghost predicate Sorted<T>(s: seq<T>, lt: (T, T) -> bool)
  {
    forall i, j | 0 <= i < j < |s| :: !lt(s[j], s[i])
  }

  /** Neither item is below the other: they have equal keys. */
  predicate Tied<T>(lt: (T, T) -> bool, a: T, b: T)
  {
    !lt(a, b) && !lt(b, a)
  }

  /** The items of `s` tied with `x`, in their order in `s`. */
  function Peers<T>(s: seq<T>, x: T, lt: (T, T) -> bool): seq<T>
  {
    if |s| == 0 then []
    else (if Tied(lt, s[0], x) then [s[0]] else []) + Peers(s[1..], x, lt)
  }

  /** The tie group of a list with a known head. */
  lemma {:induction false} PeersCons<T>(x: T, t: seq<T>, q: T, lt: (T, T) -> bool)
    ensures Peers([x] + t, q, lt) == (if Tied(lt, x, q) then [x] else []) + Peers(t, q, lt)
  {
    assert ([x] + t)[1..] == t;
  }

  /** Inserts `x` after the leading items strictly below it, so it lands in
      front of the items it is tied with. */
  function Insert<T>(x: T, s: seq<T>, lt: (T, T) -> bool): (r: seq<T>)
    ensures multiset(r) == multiset(s) + multiset{x}
  {
    if |s| == 0 then [x]
    else if lt(s[0], x) then
      assert s == [s[0]] + s[1..];
      [s[0]] + Insert(x, s[1..], lt)
    else [x] + s
  }

  /** Putting an item in front of a sorted list that has nothing below it keeps it sorted. */
  lemma {:induction false} SortedCons<T>(x: T, s: seq<T>, lt: (T, T) -> bool)
    requires Sorted(s, lt)
    requires forall k | 0 <= k < |s| :: !lt(s[k], x)
    ensures Sorted([x] + s, lt)
  {
    var r := [x] + s;
    forall i, j | 0 <= i < j < |r|
      ensures !lt(r[j], r[i])
    {
      assert r[j] == s[j - 1];
      if i > 0 {
        assert r[i] == s[i - 1];
      }
    }
  }

  /** Insertion into a sorted list keeps it sorted. */
  lemma {:induction false} InsertSorted<T(!new)>(x: T, s: seq<T>, lt: (T, T) -> bool)
    requires StrictWeakOrder(lt)
    requires Sorted(s, lt)
    ensures Sorted(Insert(x, s, lt), lt)
  {
    if |s| == 0 {
    } else if lt(s[0], x) {
      var rest := Insert(x, s[1..], lt);
      assert Sorted(s[1..], lt);
      InsertSorted(x, s[1..], lt);
      forall k | 0 <= k < |rest|
        ensures !lt(rest[k], s[0])
      {
        assert rest[k] in multiset(s[1..]) + multiset{x};
        if rest[k] != x {
          assert rest[k] in s[1..];
        }
      }
      SortedCons(s[0], rest, lt);
    } else {
      forall k | 0 <= k < |s|
        ensures !lt(s[k], x)
      {
        if k > 0 {
          assert !lt(s[k], s[0]);
        }
      }
      SortedCons(x, s, lt);
    }
  }

  /** Insertion adds `x` to the front of its own tie group and leaves every
      other tie group alone. */
  lemma {:induction false} InsertPeers<T(!new)>(x: T, s: seq<T>, lt: (T, T) -> bool, y: T)
    requires StrictWeakOrder(lt)
    ensures Peers(Insert(x, s, lt), y, lt) == if Tied(lt, x, y) then [x] + Peers(s, y, lt) else Peers(s, y, lt)
  {
    if |s| > 0 && lt(s[0], x) {
      InsertPeers(x, s[1..], lt, y);
      var rest := Insert(x, s[1..], lt);
      assert Insert(x, s, lt) == [s[0]] + rest;
      PeersCons(s[0], rest, y, lt);
      assert s == [s[0]] + s[1..];
      PeersCons(s[0], s[1..], y, lt);
      if Tied(lt, x, y) {
        assert lt(s[0], y) || lt(y, x);
        assert !Tied(lt, s[0], y);
      }
    } else {
      assert Insert(x, s, lt) == [x] + s;
      PeersCons(x, s, y, lt);
    }
  }

  /** Insertion sort, inserting from the back, so that earlier items end up
      in front of later items they are tied with: a stable sort. */
  function Sort<T(!new)>(s: seq<T>, lt: (T, T) -> bool): (r: seq<T>)
    requires StrictWeakOrder(lt)
    ensures Sorted(r, lt)
    ensures multiset(r) == multiset(s)
    ensures forall y :: Peers(r, y, lt) == Peers(s, y, lt)
  {
    if |s| == 0 then []
    else
      var rest := Sort(s[1..], lt);
      InsertSorted(s[0], rest, lt);
      assert s == [s[0]] + s[1..];
      forall y
        ensures Peers(Insert(s[0], rest, lt), y, lt) == Peers(s, y, lt)
      {
        InsertPeers(s[0], rest, lt, y);
      }
      Insert(s[0], rest, lt)
  }

  /** Sorting an already sorted list changes nothing; in particular sorting is idempotent. */
  lemma {:induction false} SortOfSorted<T(!new)>(s: seq<T>, lt: (T, T) -> bool)
    requires StrictWeakOrder(lt)
    requires Sorted(s, lt)
    ensures Sort(s, lt) == s
  {
    if |s| > 0 {
      assert Sorted(s[1..], lt);
      SortOfSorted(s[1..], lt);
      if |s| > 1 {
        assert !lt(s[1], s[0]);
      }
    }
  }
}
