/** Routing of the value shares to the buckets without looking at the indices:
    sort the buckets by index, attach share k to the k-th smallest, and sort
    back by bucket. */
module BetaRouting {
  import opened Blocks
  import opened Counting
  import opened Sorting

  datatype Row = Row(index: int, bucket: int, payload: Block)

  /** The first comparator looks at the first column, the second at the second. */
  function ByIndex(): Row -> int {
    (r: Row) => r.index
  }

  function ByBucket(): Row -> int {
    (r: Row) => r.bucket
  }

  function BucketSet(s: seq<Row>): set<int> {
    if s == [] then {} else BucketSet(s[..|s| - 1]) + {s[|s| - 1].bucket}
  }

  lemma {:induction false} BucketSetMember(s: seq<Row>, x: int)
    ensures x in BucketSet(s) <==> exists j :: 0 <= j < |s| && s[j].bucket == x
  {
    if s != [] {
      BucketSetMember(s[..|s| - 1], x);
    }
  }

  lemma {:induction false} BucketSetSize(s: seq<Row>)
    requires DistinctKeys(s, ByBucket())
    ensures |BucketSet(s)| == |s|
  {
    if s != [] {
      BucketSetSize(s[..|s| - 1]);
      BucketSetMember(s[..|s| - 1], s[|s| - 1].bucket);
    }
  }

  // ---- Ranks ----

  /** Buckets without an index. */
  function Unused(vals: seq<int>): set<int> {
    set p | 0 <= p < |vals| && vals[p] == -1
  }

  /** Buckets with an index below v. */
  function Smaller(vals: seq<int>, v: int): set<int> {
    set p | 0 <= p < |vals| && 0 <= vals[p] < v
  }

  /** How many indices are smaller than v. */
  function Rank(vals: seq<int>, v: int): nat {
    |Smaller(vals, v)|
  }

  /** Indices are -1 or distinct and non-negative; t of them are indices. */
  ghost predicate Matched(vals: seq<int>, t: nat) {
    && (forall p :: 0 <= p < |vals| ==> vals[p] >= -1)
    && (forall p, q :: 0 <= p < q < |vals| && vals[p] == vals[q] ==> vals[p] == -1)
    && t <= |vals| && |Unused(vals)| == |vals| - t
  }

  /** Rows that pair every bucket with its index. */
  ghost predicate PairsAll(rows: seq<Row>, vals: seq<int>) {
    && |rows| == |vals| && DistinctKeys(rows, ByBucket())
    && (forall j :: 0 <= j < |rows| ==> 0 <= rows[j].bucket < |vals| && rows[j].index == vals[rows[j].bucket])
    && (forall q :: 0 <= q < |vals| ==> q in BucketSet(rows))
  }

  /** After sorting by index, the row of a matched bucket stands at its rank
      behind all unused buckets, which come first in any order. */
  lemma SortedPosition(rows: seq<Row>, vals: seq<int>, t: nat, i: nat)
    requires Matched(vals, t) && PairsAll(rows, vals) && Ordered(rows, ByIndex()) && i < |rows|
    ensures rows[i].index == -1 ==> i < |vals| - t
    ensures rows[i].index >= 0 ==> i == |vals| - t + Rank(vals, rows[i].index)
  {
    var v := rows[i].index;
    if v == -1 {
      BucketSetSize(rows[..i + 1]);
      forall x | x in BucketSet(rows[..i + 1]) ensures x in Unused(vals) {
        BucketSetMember(rows[..i + 1], x);
        var j :| 0 <= j < i + 1 && rows[..i + 1][j].bucket == x;
        assert rows[j].index <= rows[i].index;
      }
      SubsetSize(BucketSet(rows[..i + 1]), Unused(vals));
    } else {
      BucketSetSize(rows[..i]);
      BeforeIsSmaller(rows, vals, t, i);
      DisjointSize(Unused(vals), Smaller(vals, v));
    }
  }

  lemma BeforeIsSmaller(rows: seq<Row>, vals: seq<int>, t: nat, i: nat)
    requires Matched(vals, t) && PairsAll(rows, vals) && Ordered(rows, ByIndex()) && i < |rows| && rows[i].index >= 0
    ensures BucketSet(rows[..i]) == Unused(vals) + Smaller(vals, rows[i].index)
  {
    hide *;
    forall x ensures x in BucketSet(rows[..i]) <==> x in Unused(vals) + Smaller(vals, rows[i].index) {
      OneBefore(rows, vals, t, i, x);
    }
  }

  lemma OneBefore(rows: seq<Row>, vals: seq<int>, t: nat, i: nat, x: int)
    requires Matched(vals, t) && PairsAll(rows, vals) && Ordered(rows, ByIndex()) && i < |rows| && rows[i].index >= 0
    ensures x in BucketSet(rows[..i]) <==> x in Unused(vals) || x in Smaller(vals, rows[i].index)
  {
    hide BucketSet;
    BucketSetMember(rows, x);
    BucketSetMember(rows[..i], x);
    if j :| 0 <= j < |rows| && rows[j].bucket == x {
      assert j < i ==> rows[..i][j].bucket == x;
    }
  }

  /** After sorting back, row i belongs to bucket i. */
  lemma SortedBack(rows: seq<Row>, i: nat)
    requires Ordered(rows, ByBucket()) && DistinctKeys(rows, ByBucket()) && i < |rows|
    requires forall j :: 0 <= j < |rows| ==> 0 <= rows[j].bucket < |rows|
    ensures rows[i].bucket == i
  {
    AtLeast(rows, i);
    AtMost(rows, i);
  }

  lemma {:induction false} AtLeast(rows: seq<Row>, i: nat)
    requires Ordered(rows, ByBucket()) && DistinctKeys(rows, ByBucket()) && i < |rows|
    requires forall j :: 0 <= j < |rows| ==> 0 <= rows[j].bucket
    ensures rows[i].bucket >= i
  {
    if i > 0 {
      AtLeast(rows, i - 1);
      assert rows[i - 1].bucket <= rows[i].bucket;
    }
  }

  lemma {:induction false} AtMost(rows: seq<Row>, i: nat)
    requires Ordered(rows, ByBucket()) && DistinctKeys(rows, ByBucket()) && i < |rows|
    requires forall j :: 0 <= j < |rows| ==> rows[j].bucket < |rows|
    ensures rows[i].bucket <= i
    decreases |rows| - i
  {
    if i + 1 < |rows| {
      AtMost(rows, i + 1);
      assert rows[i].bucket <= rows[i + 1].bucket;
    }
  }

  // ---- The routing ----

  /** The value of a bucket: the shares of its index's rank, or zero. */
  function Beta(vals: seq<int>, shareA: seq<Block>, shareB: seq<Block>, p: nat): Block
    requires p < |vals| && |shareA| == |shareB|
  {
    var k := Rank(vals, vals[p]);
    if vals[p] == -1 || k >= |shareA| then ZERO else Xor(shareA[k], shareB[k])
  }

  /** Both parties' shares behind b - t zero blocks, combined. */
  method CombineShares(b: nat, t: nat, shareA: seq<Block>, shareB: seq<Block>) returns (shareXor: seq<Block>)
    requires |shareA| == |shareB| == t <= b
    ensures |shareXor| == b
    ensures forall i :: 0 <= i < b - t ==> shareXor[i] == ZERO
    ensures forall i :: b - t <= i < b ==> shareXor[i] == Xor(shareA[i - (b - t)], shareB[i - (b - t)])
  {
    hide Xor;
    shareXor := [];
    var unused := b - t;
    for i := 0 to b
      invariant |shareXor| == i
      invariant forall k :: 0 <= k < i && k < b - t ==> shareXor[k] == ZERO
      invariant forall k :: b - t <= k < i ==> shareXor[k] == Xor(shareA[k - (b - t)], shareB[k - (b - t)])
    {
      var share1, share2 := ZERO, ZERO;
      if i >= unused {
        share1, share2 := shareA[i - unused], shareB[i - unused];
      }
      XorZero(ZERO);
      shareXor := shareXor + [Xor(share1, share2)];
    }
  }

  method CreateBetaVals(b: nat, t: nat, vals: seq<int>, shareA: seq<Block>, shareB: seq<Block>)
    returns (betas: seq<Block>)
    requires |vals| == b && |shareA| == |shareB| == t && Matched(vals, t)
    ensures |betas| == b
    ensures forall p :: 0 <= p < b ==>
      (vals[p] != -1 ==> Rank(vals, vals[p]) < t) && betas[p] == Beta(vals, shareA, shareB, p)
  {
    hide Xor, Ordered, DistinctKeys, PairsAll, Unused, Rank;
    var shareXor := CombineShares(b, t, shareA, shareB);
    var list := new Row[b](i requires 0 <= i < b => Row(vals[i], i, ZERO));
    ghost var rows0 := list[..];
    SortInPlace(list, ByIndex());
    ghost var rows1 := list[..];
    SortedPairs(rows0, rows1, vals);
    forall i | 0 <= i < b {
      list[i] := list[i].(payload := shareXor[i]);
    }
    ghost var rows2 := list[..];
    SortInPlace(list, ByBucket());
    ghost var rows3 := list[..];
    betas := seq(b, i requires 0 <= i < b && list.Length == b reads list => list[i].payload);
    forall p | 0 <= p < b
      ensures (vals[p] != -1 ==> Rank(vals, vals[p]) < t) && betas[p] == Beta(vals, shareA, shareB, p)
    {
      RoutedBack(rows1, rows2, rows3, vals, t, shareXor, p);
    }
  }

  /** Where the payload of bucket p comes from. */
  lemma RoutedBack(rows1: seq<Row>, rows2: seq<Row>, rows3: seq<Row>, vals: seq<int>, t: nat,
                   payloads: seq<Block>, p: nat)
    requires Matched(vals, t) && PairsAll(rows1, vals) && Ordered(rows1, ByIndex())
    requires |payloads| == |vals| && p < |vals|
    requires |rows2| == |rows1|
    requires forall i :: 0 <= i < |rows1| ==> rows2[i] == Row(rows1[i].index, rows1[i].bucket, payloads[i])
    requires multiset(rows2) == multiset(rows3) && Ordered(rows3, ByBucket())
    ensures |rows3| == |vals|
    ensures vals[p] == -1 ==> exists i :: 0 <= i < |vals| - t && rows3[p].payload == payloads[i]
    ensures vals[p] != -1 ==>
      Rank(vals, vals[p]) < t && rows3[p].payload == payloads[|vals| - t + Rank(vals, vals[p])]
  {
    hide Ordered, Unused, Rank, BucketSet;
    PermutedElements(rows2, rows3, ByBucket());
    forall j | 0 <= j < |rows3| ensures 0 <= rows3[j].bucket < |rows3| {
      assert rows3[j] in rows2;
    }
    SortedBack(rows3, p);
    assert rows3[p] in rows2;
    var j :| 0 <= j < |rows2| && rows2[j] == rows3[p];
    SortedPosition(rows1, vals, t, j);
  }

  lemma SortedPairs(rows0: seq<Row>, rows1: seq<Row>, vals: seq<int>)
    requires |rows0| == |vals| && multiset(rows0) == multiset(rows1)
    requires forall i :: 0 <= i < |rows0| ==> rows0[i].index == vals[i] && rows0[i].bucket == i
    ensures PairsAll(rows1, vals)
  {
    PermutedElements(rows0, rows1, ByBucket());
    forall q | 0 <= q < |vals| ensures q in BucketSet(rows1) {
      assert rows0[q] in rows1;
      BucketSetMember(rows1, q);
    }
    forall j | 0 <= j < |rows1|
      ensures 0 <= rows1[j].bucket < |vals| && rows1[j].index == vals[rows1[j].bucket]
    {
      assert rows1[j] in rows0;
    }
  }
}
