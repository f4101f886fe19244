/** Sorting by a key, in place.  The library sorts are represented by their
    contract: an ordered permutation, with ties in any order. */
module Sorting {
  ghost predicate Ordered<T>(s: seq<T>, key: T -> int) {
    forall i, j :: 0 <= i < j < |s| ==> key(s[i]) <= key(s[j])
  }

  function Insert<T>(s: seq<T>, x: T, key: T -> int): seq<T> {
    if s == [] || key(s[|s| - 1]) <= key(x) then s + [x]
    else Insert(s[..|s| - 1], x, key) + [s[|s| - 1]]
  }

  function Sorted<T>(s: seq<T>, key: T -> int): seq<T> {
    if s == [] then [] else Insert(Sorted(s[..|s| - 1], key), s[|s| - 1], key)
  }

  lemma AppendOrdered<T>(s: seq<T>, x: T, key: T -> int)
    requires Ordered(s, key)
    requires forall y :: y in s ==> key(y) <= key(x)
    ensures Ordered(s + [x], key)
  {
  }

  lemma {:induction false} InsertSorts<T>(s: seq<T>, x: T, key: T -> int)
    requires Ordered(s, key)
    ensures Ordered(Insert(s, x, key), key)
    ensures multiset(Insert(s, x, key)) == multiset(s) + multiset{x}
  {
    if s == [] || key(s[|s| - 1]) <= key(x) {
      AppendOrdered(s, x, key);
    } else {
      var n := |s| - 1;
      InsertSorts(s[..n], x, key);
      var front := Insert(s[..n], x, key);
      assert s == s[..n] + [s[n]];
      forall y | y in front ensures key(y) <= key(s[n]) {
        assert y in multiset(front);
        assert y == x || y in s[..n];
      }
      AppendOrdered(front, s[n], key);
    }
  }

  lemma {:induction false} SortedSorts<T>(s: seq<T>, key: T -> int)
    ensures Ordered(Sorted(s, key), key) && multiset(Sorted(s, key)) == multiset(s)
    ensures |Sorted(s, key)| == |s|
  {
    if s != [] {
      var n := |s| - 1;
      SortedSorts(s[..n], key);
      InsertSorts(Sorted(s[..n], key), s[n], key);
      assert s == s[..n] + [s[n]];
    }
    assert |multiset(Sorted(s, key))| == |Sorted(s, key)|;
  }

  method SortInPlace<T>(a: array<T>, key: T -> int)
    modifies a
    ensures Ordered(a[..], key)
    ensures multiset(a[..]) == multiset(old(a[..]))
  {
    hide Ordered, Sorted;
    var result := Sorted(a[..], key);
    SortedSorts(a[..], key);
    forall i | 0 <= i < a.Length {
      a[i] := result[i];
    }
    assert a[..] == result;
  }

  lemma InTwice<T>(s: seq<T>, i: nat, j: nat)
    requires i < j < |s| && s[i] == s[j]
    ensures multiset(s)[s[i]] >= 2
  {
    assert s == s[..j] + [s[j]] + s[j + 1..];
    assert s[..j][i] in multiset(s[..j]);
  }

  lemma {:induction false} InOnce<T>(s: seq<T>, x: T)
    requires forall i, j :: 0 <= i < j < |s| ==> s[i] != s[j]
    ensures multiset(s)[x] <= 1
  {
    if s != [] {
      var n := |s| - 1;
      assert s == s[..n] + [s[n]];
      InOnce(s[..n], x);
      if x == s[n] {
        assert x !in s[..n];
      }
    }
  }

  ghost predicate DistinctKeys<T>(s: seq<T>, key: T -> int) {
    forall i, j :: 0 <= i < j < |s| ==> key(s[i]) != key(s[j])
  }

  /** A permutation keeps the elements and the distinctness of their keys. */
  lemma PermutedElements<T>(s: seq<T>, p: seq<T>, key: T -> int)
    requires multiset(s) == multiset(p) && DistinctKeys(s, key)
    ensures |p| == |s| && DistinctKeys(p, key)
    ensures forall x :: x in p <==> x in s
  {
    assert |p| == |multiset(p)| == |multiset(s)| == |s|;
    assert forall x :: x in p <==> x in multiset(p);
    assert forall x :: x in s <==> x in multiset(s);
    forall i, j | 0 <= i < j < |p| ensures key(p[i]) != key(p[j]) {
      if key(p[i]) == key(p[j]) {
        assert p[i] in s && p[j] in s;
        InTwice(p, i, j);
        InOnce(s, p[i]);
      }
    }
  }
}
