/**
 Specification of the library sorts: a sorted rearrangement. `Sort` is one function that meets it; what
 callers rely on is that the result is sorted, is a permutation, and is the only such sequence.
 */
module Sorting {
  // Total and transitive: what sort.Slice and slices.SortFunc ask of a comparison.
  ghost predicate Preorder<T(!new)>(le: (T, T) -> bool) {
    && (forall a, b :: le(a, b) || le(b, a))
    && (forall a, b, c :: le(a, b) && le(b, c) ==> le(a, c))
  }

  ghost predicate Antisymmetric<T(!new)>(le: (T, T) -> bool) {
    forall a, b :: le(a, b) && le(b, a) ==> a == b
  }

  predicate SortedBy<T>(s: seq<T>, le: (T, T) -> bool) {
    forall i, j :: 0 <= i < j < |s| ==> le(s[i], s[j])
  }

  function Insert<T>(x: T, s: seq<T>, le: (T, T) -> bool): seq<T> {
    if s == [] then [x]
    else if le(x, s[0]) then [x] + s
    else [s[0]] + Insert(x, s[1..], le)
  }

  function Sort<T>(s: seq<T>, le: (T, T) -> bool): seq<T> {
    if s == [] then [] else Insert(s[0], Sort(s[1..], le), le)
  }

  lemma {:induction false} InsertPermutes<T>(x: T, s: seq<T>, le: (T, T) -> bool)
    ensures multiset(Insert(x, s, le)) == multiset(s) + multiset{x}
  {
    if s == [] {
    } else {
      assert s == [s[0]] + s[1..];
      if !le(x, s[0]) { InsertPermutes(x, s[1..], le); }
    }
  }

  // A lower bound of x and of s is one of the result.
  lemma {:induction false} InsertKeepsBound<T>(b: T, x: T, s: seq<T>, le: (T, T) -> bool)
    requires le(b, x) && forall i :: 0 <= i < |s| ==> le(b, s[i])
    ensures forall i :: 0 <= i < |Insert(x, s, le)| ==> le(b, Insert(x, s, le)[i])
  {
    if s != [] && !le(x, s[0]) { InsertKeepsBound(b, x, s[1..], le); }
  }

  lemma {:induction false} InsertSorts<T(!new)>(x: T, s: seq<T>, le: (T, T) -> bool)
    requires Preorder(le) && SortedBy(s, le)
    ensures SortedBy(Insert(x, s, le), le)
  {
    if s == [] {
    } else {
      if le(x, s[0]) {
        assert forall i :: 0 <= i < |s| ==> le(x, s[i]) by { assert le(s[0], s[0]); }
      } else {
        InsertSorts(x, s[1..], le);
        InsertKeepsBound(s[0], x, s[1..], le);
      }
    }
  }

  lemma {:induction false} SortPermutes<T>(s: seq<T>, le: (T, T) -> bool)
    ensures multiset(Sort(s, le)) == multiset(s)
  {
    if s == [] {
    } else {
      SortPermutes(s[1..], le);
      InsertPermutes(s[0], Sort(s[1..], le), le);
      assert s == [s[0]] + s[1..];
    }
  }

  lemma {:induction false} SortOrders<T(!new)>(s: seq<T>, le: (T, T) -> bool)
    requires Preorder(le)
    ensures SortedBy(Sort(s, le), le)
  {
    if s == [] {
    } else {
      SortOrders(s[1..], le);
      InsertSorts(s[0], Sort(s[1..], le), le);
    }
  }

  lemma SortSorts<T(!new)>(s: seq<T>, le: (T, T) -> bool)
    requires Preorder(le)
    ensures SortedBy(Sort(s, le), le)
    ensures multiset(Sort(s, le)) == multiset(s)
    ensures |Sort(s, le)| == |s|
    ensures forall x :: x in Sort(s, le) <==> x in s
  {
    SortOrders(s, le);
    SortPermutes(s, le);
    SameMembers(Sort(s, le), s);
  }

  lemma SameMembers<T>(a: seq<T>, b: seq<T>)
    requires multiset(a) == multiset(b)
    ensures |a| == |b|
    ensures forall x :: x in a <==> x in b
  {
    assert |multiset(a)| == |a| && |multiset(b)| == |b|;
    forall x
      ensures x in a <==> x in b
    {
      assert x in a <==> x in multiset(a);
      assert x in b <==> x in multiset(b);
    }
  }

  // Two sorted rearrangements of the same elements are equal when only equal elements tie.
  lemma {:induction false} SortedUnique<T(!new)>(a: seq<T>, b: seq<T>, le: (T, T) -> bool)
    requires Preorder(le) && Antisymmetric(le)
    requires SortedBy(a, le) && SortedBy(b, le) && multiset(a) == multiset(b)
    ensures a == b
  {
    SameMembers(a, b);
    if a == [] {
    } else {
      FirstBelow(a, b[0], le);
      FirstBelow(b, a[0], le);
      SameTail(a, b);
      SortedUnique(a[1..], b[1..], le);
    }
  }

  lemma FirstBelow<T(!new)>(s: seq<T>, x: T, le: (T, T) -> bool)
    requires Preorder(le) && SortedBy(s, le) && x in s
    ensures le(s[0], x)
  {
    assert le(x, x);
  }

  lemma SameTail<T>(a: seq<T>, b: seq<T>)
    requires a != [] && b != [] && a[0] == b[0] && multiset(a) == multiset(b)
    ensures multiset(a[1..]) == multiset(b[1..])
  {
    assert a == [a[0]] + a[1..] && b == [b[0]] + b[1..];
    assert multiset(a[1..]) == multiset(a) - multiset{a[0]};
  }

  // Sequences without repetition that have the same elements have the same multiset.
  predicate Distinct<T(==)>(s: seq<T>) {
    forall i, j :: 0 <= i < j < |s| ==> s[i] != s[j]
  }

  lemma {:induction false} DistinctCounts<T>(s: seq<T>, x: T)
    requires Distinct(s)
    ensures multiset(s)[x] == if x in s then 1 else 0
  {
    if s == [] {
    } else {
      assert s == [s[0]] + s[1..];
      DistinctCounts(s[1..], x);
    }
  }

  lemma DistinctSameElements<T(!new)>(a: seq<T>, b: seq<T>)
    requires Distinct(a) && Distinct(b)
    requires forall x :: x in a <==> x in b
    ensures multiset(a) == multiset(b)
  {
    forall x
      ensures multiset(a)[x] == multiset(b)[x]
    {
      DistinctCounts(a, x);
      DistinctCounts(b, x);
    }
  }

  lemma SortKeepsDistinct<T(!new)>(s: seq<T>, le: (T, T) -> bool)
    requires Preorder(le) && Distinct(s)
    ensures Distinct(Sort(s, le))
  {
    SortSorts(s, le);
    var r := Sort(s, le);
    forall i, j | 0 <= i < j < |r|
      ensures r[i] != r[j]
    {
      if r[i] == r[j] {
        RepeatCounts(r, i, j);
        DistinctCounts(s, r[i]);
      }
    }
  }

  lemma RepeatCounts<T>(s: seq<T>, i: nat, j: nat)
    requires i < j < |s| && s[i] == s[j]
    ensures multiset(s)[s[i]] >= 2
  {
    assert s == s[..j] + s[j..];
    assert s[..j][i] == s[i] && s[j..][0] == s[i];
    assert s[i] in multiset(s[..j]) && s[i] in multiset(s[j..]);
  }

  // The elements of a set, each once, in order.
  ghost predicate Lists<T(!new)>(l: seq<T>, s: set<T>, le: (T, T) -> bool) {
    SortedBy(l, le) && Distinct(l) && forall x :: x in l <==> x in s
  }

  lemma ListIsUnique<T(!new)>(a: seq<T>, b: seq<T>, s: set<T>, le: (T, T) -> bool)
    requires Preorder(le) && Antisymmetric(le) && Lists(a, s, le) && Lists(b, s, le)
    ensures a == b
  {
    DistinctSameElements(a, b);
    SortedUnique(a, b, le);
  }

  lemma ListSize<T(!new)>(l: seq<T>, s: set<T>, le: (T, T) -> bool)
    requires Lists(l, s, le)
    ensures |l| == |s|
  {
    assert s == (set x | x in l);
    DistinctSize(l);
  }

  lemma {:induction false} DistinctSize<T(!new)>(l: seq<T>)
    requires Distinct(l)
    ensures |set x | x in l| == |l|
  {
    if l == [] {
    } else {
      var init, last := l[..|l| - 1], l[|l| - 1];
      DistinctSize(init);
      assert (set x | x in l) == (set x | x in init) + {last};
    }
  }

  lemma SubsetSize<T>(a: set<T>, b: set<T>)
    requires a <= b
    ensures |a| <= |b|
  {
    assert b == a + (b - a);
  }

  // Every finite set can be listed.
  ghost function ListOf<T(!new)>(s: set<T>, le: (T, T) -> bool): (l: seq<T>)
    requires Preorder(le)
    ensures Lists(l, s, le)
  {
    var found := Enumeration(s);
    SortSorts(found, le);
    SortKeepsDistinct(found, le);
    Sort(found, le)
  }

  ghost function Enumeration<T(!new)>(s: set<T>): (l: seq<T>)
    ensures Distinct(l) && forall x :: x in l <==> x in s
  {
    if s == {} then []
    else
      var x :| x in s;
      Enumeration(s - {x}) + [x]
  }

  predicate IntLeq(a: int, b: int) {
    a <= b
  }

  lemma IntLeqIsOrder()
    ensures Preorder(IntLeq) && Antisymmetric(IntLeq) && forall a, b :: IntLeq(a, b) <==> a <= b
  {
  }
}
