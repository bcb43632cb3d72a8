/** List operations of the .NET base library used by the application, on Dafny sequences. */
module Seqs {

  /** No element occurs twice. */
  ghost predicate NoDup<T>(s: seq<T>)
  {
    forall i, j | 0 <= i < j < |s| :: s[i] != s[j]
  }

  /** Position of the first occurrence of `x` (`List.IndexOf`). */
  function IndexOf<T(==)>(s: seq<T>, x: T): (k: nat)
    requires x in s
    ensures k < |s| && s[k] == x
    ensures x !in s[..k]
  {
    if s[0] == x then 0
    else
      var k := 1 + IndexOf(s[1..], x);
      assert s[..k] == [s[0]] + s[1..][..k - 1];
      k
  }

  /** The first occurrence in a concatenation is found in the left part when it is there. */
  lemma {:induction false} IndexOfAppend<T>(p: seq<T>, q: seq<T>, x: T)
    requires x in p
    ensures IndexOf(p + q, x) == IndexOf(p, x)
  {
    if p[0] != x {
      assert (p + q)[1..] == p[1..] + q;
      IndexOfAppend(p[1..], q, x);
    }
  }

  /** `List.Remove`: deletes the first occurrence of `x`, if there is one. */
  function RemoveFirst<T(==)>(s: seq<T>, x: T): (r: seq<T>)
    ensures x !in s ==> r == s
    ensures x in s ==> r == s[..IndexOf(s, x)] + s[IndexOf(s, x) + 1..]
  {
    if |s| == 0 then s
    else if s[0] == x then s[1..]
    else
      var r := [s[0]] + RemoveFirst(s[1..], x);
      assert x in s[1..] ==> s[..IndexOf(s, x)] == [s[0]] + s[1..][..IndexOf(s[1..], x)];
      r
  }

  /** Deleting the first occurrence removes exactly one copy of `x`. */
  lemma {:induction false} RemoveFirstMultiset<T>(s: seq<T>, x: T)
    ensures multiset(RemoveFirst(s, x)) == multiset(s) - multiset{x}
  {
    if x in s {
      var k := IndexOf(s, x);
      assert s == s[..k] + [x] + s[k + 1..];
    }
  }

  /** Every other element keeps its membership. */
  lemma {:induction false} RemoveFirstMembers<T>(s: seq<T>, x: T, y: T)
    requires y != x
    ensures y in RemoveFirst(s, x) <==> y in s
  {
    RemoveFirstMultiset(s, x);
    assert y in RemoveFirst(s, x) <==> y in multiset(RemoveFirst(s, x));
  }

  /** On a list without duplicates the deleted element is gone for good. */
  lemma {:induction false} RemoveFirstNoDup<T>(s: seq<T>, x: T)
    requires NoDup(s)
    ensures NoDup(RemoveFirst(s, x))
    ensures x !in RemoveFirst(s, x)
  {
    if x in s {
      var k := IndexOf(s, x);
      var r := RemoveFirst(s, x);
      forall i, j | 0 <= i < j < |r|
        ensures r[i] != r[j]
      {
        var i' := if i < k then i else i + 1;
        var j' := if j < k then j else j + 1;
        assert r[i] == s[i'] && r[j] == s[j'];
      }
      forall i | 0 <= i < |r|
        ensures r[i] != x
      {
        var i' := if i < k then i else i + 1;
        assert r[i] == s[i'];
      }
    }
  }

  /** Deleting the first occurrence shortens the list by one exactly when `x` occurs. */
  lemma {:induction false} RemoveFirstLength<T>(s: seq<T>, x: T)
    ensures |RemoveFirst(s, x)| == if x in s then |s| - 1 else |s|
  {
  }

  /** Moving an element to the front of a list without duplicates keeps it
      without duplicates. */
  lemma {:induction false} MoveToFrontNoDup<T>(s: seq<T>, x: T)
    requires NoDup(s)
    ensures NoDup([x] + RemoveFirst(s, x))
  {
    RemoveFirstNoDup(s, x);
    ConsNoDup(x, RemoveFirst(s, x));
  }

  /** Putting a new element in front of a list without duplicates keeps it
      without duplicates. */
  lemma {:induction false} ConsNoDup<T>(x: T, rest: seq<T>)
    requires NoDup(rest) && x !in rest
    ensures NoDup([x] + rest)
  {
    var full := [x] + rest;
    forall i, j | 0 <= i < j < |full|
      ensures full[i] != full[j]
    {
      assert full[j] == rest[j - 1];
      if i > 0 {
        assert full[i] == rest[i - 1];
      }
    }
  }

  /** A prefix of a list without duplicates has none. */
  lemma {:induction false} PrefixNoDup<T>(s: seq<T>, n: nat)
    requires NoDup(s) && n <= |s|
    ensures NoDup(s[..n])
  {
    forall i, j | 0 <= i < j < n
      ensures s[..n][i] != s[..n][j]
    {
      assert s[..n][i] == s[i] && s[..n][j] == s[j];
    }
  }

  /** In a list without duplicates, `IndexOf` finds the position an element is at. */
  lemma {:induction false} NoDupIndexOf<T>(s: seq<T>, k: nat)
    requires NoDup(s) && k < |s|
    ensures IndexOf(s, s[k]) == k
  {
  }

  /** Where an element of the list with `x` deleted came from: the same
      position before the deleted copy, one further on after it. */
  lemma {:induction false} RemoveFirstAt<T>(s: seq<T>, x: T, i: nat) returns (a: nat)
    requires i < |RemoveFirst(s, x)|
    ensures a < |s| && RemoveFirst(s, x)[i] == s[a]
    ensures a == if x in s && IndexOf(s, x) <= i then i + 1 else i
  {
    if x in s {
      var k := IndexOf(s, x);
      var r := RemoveFirst(s, x);
      assert r == s[..k] + s[k + 1..];
      a := if i < k then i else i + 1;
      assert r[i] == s[a];
    } else {
      a := i;
    }
  }

  /** Deleting an element keeps the others in their relative order. */
  lemma {:induction false} RemoveFirstKeepsOrder<T>(s: seq<T>, x: T, i: nat, j: nat)
    requires NoDup(s) && i < j < |RemoveFirst(s, x)|
    ensures RemoveFirst(s, x)[i] in s && RemoveFirst(s, x)[j] in s
    ensures IndexOf(s, RemoveFirst(s, x)[i]) < IndexOf(s, RemoveFirst(s, x)[j])
  {
    var a := RemoveFirstAt(s, x, i);
    var b := RemoveFirstAt(s, x, j);
    NoDupIndexOf(s, a);
    NoDupIndexOf(s, b);
  }

  /** `Where`: the elements satisfying `keep`, in their original order. */
  function Filter<T>(s: seq<T>, keep: T -> bool): (r: seq<T>)
    ensures |r| <= |s|
  {
    if |s| == 0 then []
    else (if keep(s[0]) then [s[0]] else []) + Filter(s[1..], keep)
  }

  /** `Filter` keeps exactly the elements that pass, with their multiplicities. */
  lemma {:induction false} FilterMultiset<T>(s: seq<T>, keep: T -> bool)
    ensures forall x :: multiset(Filter(s, keep))[x] == if keep(x) then multiset(s)[x] else 0
  {
    if |s| > 0 {
      FilterMultiset(s[1..], keep);
      assert s == [s[0]] + s[1..];
    }
  }

  /** Membership in a filtered list. */
  lemma {:induction false} FilterMembers<T>(s: seq<T>, keep: T -> bool, x: T)
    ensures x in Filter(s, keep) <==> x in s && keep(x)
  {
    FilterMultiset(s, keep);
    assert x in Filter(s, keep) <==> multiset(Filter(s, keep))[x] > 0;
  }

  /** Filtering a list with a known head. */
  lemma {:induction false} FilterCons<T>(x: T, t: seq<T>, keep: T -> bool)
    ensures Filter([x] + t, keep) == (if keep(x) then [x] else []) + Filter(t, keep)
  {
    assert ([x] + t)[1..] == t;
  }

  /** Filtering distributes over concatenation. */
  lemma {:induction false} FilterAppend<T>(a: seq<T>, b: seq<T>, keep: T -> bool)
    ensures Filter(a + b, keep) == Filter(a, keep) + Filter(b, keep)
  {
    if |a| > 0 {
      FilterAppend(a[1..], b, keep);
      assert (a + b)[0] == a[0] && (a + b)[1..] == a[1..] + b;
      var h := if keep(a[0]) then [a[0]] else [];
      assert Filter(a + b, keep) == h + Filter(a[1..] + b, keep);
      assert h + (Filter(a[1..], keep) + Filter(b, keep)) == (h + Filter(a[1..], keep)) + Filter(b, keep);
    } else {
      assert a + b == b;
    }
  }

  /** `Distinct`: one copy of each element, in order of first occurrence. */
  function Distinct<T(==,!new)>(s: seq<T>): (r: seq<T>)
    ensures NoDup(r)
    ensures forall x :: x in r <==> x in s
    ensures forall i, j | 0 <= i < j < |r| :: IndexOf(s, r[i]) < IndexOf(s, r[j])
    decreases |s|
  {
    if |s| == 0 then []
    else
      var init := s[..|s| - 1];
      var last := s[|s| - 1];
      var r := Distinct(init);
      assert s == init + [last];
      forall x | x in init
        ensures IndexOf(s, x) == IndexOf(init, x)
      {
        IndexOfAppend(init, [last], x);
      }
      if last in r then r else r + [last]
  }

  /** A sequence without duplicates is its own `Distinct`. */
  lemma {:induction false} DistinctOfNoDup<T(!new)>(s: seq<T>)
    requires NoDup(s)
    ensures Distinct(s) == s
    decreases |s|
  {
    if |s| > 0 {
      var init, last := s[..|s| - 1], s[|s| - 1];
      PrefixNoDup(s, |s| - 1);
      DistinctOfNoDup(init);
      forall i | 0 <= i < |init|
        ensures init[i] != last
      {
        assert init[i] == s[i];
      }
      assert s == init + [last];
      DistinctSnoc(init, last);
    }
  }

  /** Appending one element extends `Distinct` by it exactly when it is new. */
  lemma {:induction false} DistinctSnoc<T(!new)>(s: seq<T>, x: T)
    ensures Distinct(s + [x]) == if x in s then Distinct(s) else Distinct(s) + [x]
  {
    assert (s + [x])[..|s + [x]| - 1] == s;
  }
}
