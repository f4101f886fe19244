/** Sizes of finite sets. */
module Counting {
  lemma Element<T>(s: set<T>) returns (x: T)
    requires s != {}
    ensures x in s
  {
    x :| x in s;
  }

  lemma SubsetSize<T>(small: set<T>, large: set<T>)
    requires small <= large
    ensures |small| <= |large|
  {
    assert large == small + (large - small);
  }

  lemma ProperSubsetSize<T>(small: set<T>, large: set<T>, x: T)
    requires small <= large && x in large && x !in small
    ensures |small| < |large|
  {
    assert large == small + (large - small);
    assert x in large - small;
  }

  lemma DisjointSize<T>(a: set<T>, b: set<T>)
    requires a !! b
    ensures |a + b| == |a| + |b|
  {
  }

  function UpTo(n: nat): (s: set<nat>)
    ensures forall g: nat :: g in s <==> g < n
  {
    if n == 0 then {} else UpTo(n - 1) + {n - 1}
  }

  function Range(n: nat): (s: set<int>)
    ensures forall p :: p in s <==> 0 <= p < n
  {
    if n == 0 then {} else Range(n - 1) + {n - 1}
  }

  lemma {:induction false} RangeSize(n: nat)
    ensures |Range(n)| == n
  {
    if n > 0 {
      RangeSize(n - 1);
    }
  }

  function Image(s: set<int>, vals: seq<int>): set<int>
    requires forall p :: p in s ==> 0 <= p < |vals|
  {
    set p | p in s :: vals[p]
  }

  /** An injective image is as large as its source. */
  lemma {:induction false} ImageSize(s: set<int>, vals: seq<int>)
    requires forall p :: p in s ==> 0 <= p < |vals|
    requires forall p, q :: p in s && q in s && vals[p] == vals[q] ==> p == q
    ensures |s| == |Image(s, vals)|
    decreases |s|
  {
    if s != {} {
      var p := Element(s);
      ImageSize(s - {p}, vals);
      assert Image(s, vals) == Image(s - {p}, vals) + {vals[p]};
    }
  }

  lemma {:induction false} FlatSize(slots: set<(nat, nat)>, flat: set<nat>)
    requires forall p :: p in flat <==> (0, p) in slots
    requires forall s :: s in slots ==> s.0 == 0
    ensures |slots| == |flat|
    decreases |flat|
  {
    assert forall s :: s in slots ==> s == (0, s.1);
    if flat != {} {
      var p :| p in flat;
      FlatSize(slots - {(0, p)}, flat - {p});
    }
  }
}
