/** The two protocols: one distributed point function per bucket of a cuckoo
    assignment, and the naive one with a full-size function per index. */
module Mpfss {
  import opened Blocks
  import opened Counting
  import opened DpfWithBeta
  import opened Cuckoo
  import opened Buckets
  import opened Sorting
  import opened BetaRouting
  import opened Assembly
  import Parallelize

  /** How many indices are smaller than x. */
  function Below(indices: set<int>, x: int): nat {
    |set k | k in indices && k < x|
  }

  /** The values combine to the combined share of the rank of the index at an
      index, and to zero elsewhere. */
  ghost predicate SharesValues(a: Share, b: Share, size: nat, indices: set<int>,
                               shareA: seq<Block>, shareB: seq<Block>)
  {
    && |a.bits| == |b.bits| == |a.values| == |b.values| == size
    && |shareA| == |shareB| == |indices|
    && forall x :: 0 <= x < size ==>
         if x in indices then
           Below(indices, x) < |indices| &&
           Xor(a.values[x], b.values[x]) == Xor(shareA[Below(indices, x)], shareB[Below(indices, x)])
         else Xor(a.values[x], b.values[x]) == ZERO
  }

  /** What both protocols are for: also, the bits combine to the indicator of
      the index set. */
  ghost predicate SharesFunction(a: Share, b: Share, size: nat, indices: set<int>,
                                 shareA: seq<Block>, shareB: seq<Block>)
  {
    && SharesValues(a, b, size, indices, shareA, shareB)
    && forall x :: 0 <= x < size ==> (a.bits[x] != b.bits[x] <==> x in indices)
  }

  /** What the second party's stale copies leave of it: the values, and the
      indicator up to the bits they flip. */
  ghost predicate SharesUpToFlips(a: Share, b: Share, size: nat, indices: set<int>,
                                  shareA: seq<Block>, shareB: seq<Block>, rows: seq<seq<int>>, stales: nat -> Stale)
    requires AllFlipsFit(rows, stales)
  {
    && SharesValues(a, b, size, indices, shareA, shareB)
    && forall x :: 0 <= x < size ==>
         (a.bits[x] != b.bits[x] <==> (x in indices) != OddFlips(rows, stales, x, |rows|))
  }

  /** No position is flipped an odd number of times. */
  ghost predicate FlipsCancel(rows: seq<seq<int>>, stales: nat -> Stale, size: nat)
    requires AllFlipsFit(rows, stales)
  {
    forall x :: 0 <= x < size ==> !OddFlips(rows, stales, x, |rows|)
  }

  lemma SharesUnlessFlipped(a: Share, b: Share, size: nat, indices: set<int>,
                            shareA: seq<Block>, shareB: seq<Block>, rows: seq<seq<int>>, stales: nat -> Stale)
    requires AllFlipsFit(rows, stales) && SharesUpToFlips(a, b, size, indices, shareA, shareB, rows, stales)
    ensures SharesFunction(a, b, size, indices, shareA, shareB) <==> FlipsCancel(rows, stales, size)
  {
    hide SharesValues, OddFlips;
  }

  lemma {:induction false} NobodyFlips(rows: seq<seq<int>>, stales: nat -> Stale, x: int, m: nat)
    requires m <= |rows| && AllFlipsFit(rows, stales) && forall i :: 0 <= i < m ==> !Misfires(stales(i))
    ensures !OddFlips(rows, stales, x, m)
  {
    if m > 0 {
      NobodyFlips(rows, stales, x, m - 1);
    }
  }

  lemma BelowBound(indices: set<int>, x: int)
    requires x in indices
    ensures Below(indices, x) < |indices|
  {
    var below := set k | k in indices && k < x;
    ProperSubsetSize(below, indices, x);
  }

  /** Ranks grow with the indices, so they are 0, 1, .. in order of size. */
  lemma BelowGrows(indices: set<int>, x: int, y: int)
    requires x in indices && y in indices && x < y
    ensures Below(indices, x) < Below(indices, y)
  {
    var belowX, belowY := (set k | k in indices && k < x), (set k | k in indices && k < y);
    ProperSubsetSize(belowX, belowY, x);
  }

  // ---- Matches and ranks ----

  function Values(matches: seq<Match>): seq<int> {
    seq(|matches|, i requires 0 <= i < |matches| => matches[i].val)
  }

  function IndexSet(keys: seq<int>): set<int> {
    set k | k in keys
  }

  ghost predicate DistinctInts(keys: seq<int>) {
    forall i, j :: 0 <= i < j < |keys| ==> keys[i] != keys[j]
  }

  /** The result of a successful assignment of keys. */
  ghost predicate IsAssignment(matches: seq<Match>, buckets: seq<seq<int>>, keys: seq<int>) {
    && AllPointInto(matches, buckets)
    && (forall x :: x != -1 ==> |Holders(matches, x)| == multiset(keys)[x])
    && |UsedBuckets(matches)| == |keys|
    && (forall p, x :: 0 <= p < |buckets| && x in buckets[p] ==> x >= 0)
  }

  lemma {:induction false} DistinctSize(keys: seq<int>)
    requires DistinctInts(keys)
    ensures |IndexSet(keys)| == |keys|
  {
    if keys != [] {
      var n := |keys| - 1;
      DistinctSize(keys[..n]);
      assert IndexSet(keys) == IndexSet(keys[..n]) + {keys[n]};
    }
  }

  lemma HeldByOne(matches: seq<Match>, buckets: seq<seq<int>>, keys: seq<int>, p: nat, q: nat)
    requires IsAssignment(matches, buckets, keys) && DistinctInts(keys)
    requires p < q < |matches| && matches[p].val == matches[q].val
    ensures matches[p].val == -1
  {
    var x := matches[p].val;
    if x != -1 {
      InOnce(keys, x);
      assert {p, q} <= Holders(matches, x);
      SubsetSize({p, q}, Holders(matches, x));
    }
  }

  /** An index is a key exactly when some bucket is matched with it. */
  lemma MatchedWithKeys(matches: seq<Match>, buckets: seq<seq<int>>, keys: seq<int>, x: int)
    requires IsAssignment(matches, buckets, keys) && x != -1
    ensures x in keys <==> exists p :: 0 <= p < |matches| && matches[p].val == x
  {
    assert forall p :: 0 <= p < |matches| && matches[p].val == x ==> p in Holders(matches, x);
    if x in keys {
      assert multiset(keys)[x] > 0;
      assert Holders(matches, x) != {};
      var p :| p in Holders(matches, x);
    }
  }

  lemma UsedOrUnused(matches: seq<Match>, vals: seq<int>)
    requires vals == Values(matches)
    ensures |Unused(vals)| + |UsedBuckets(matches)| == |matches|
  {
    var used := set p: int | 0 <= p < |matches| && matches[p].val != -1;
    assert used == UsedBuckets(matches);
    RangeSize(|matches|);
    assert Unused(vals) + used == Range(|matches|);
    DisjointSize(Unused(vals), used);
  }

  lemma AssignmentMatches(matches: seq<Match>, buckets: seq<seq<int>>, keys: seq<int>)
    requires IsAssignment(matches, buckets, keys) && DistinctInts(keys)
    ensures Matched(Values(matches), |keys|)
  {
    var vals := Values(matches);
    UsedOrUnused(matches, vals);
    forall p | 0 <= p < |vals| ensures vals[p] >= -1 {
      assert PointsInto(matches[p], p, buckets[p]);
      assert matches[p].val == -1 || buckets[p][matches[p].indexInBucket] in buckets[p];
    }
    forall p, q | 0 <= p < q < |vals| && vals[p] == vals[q] ensures vals[p] == -1 {
      HeldByOne(matches, buckets, keys, p, q);
    }
  }

  /** Counting buckets with a smaller index is counting smaller indices. */
  lemma RankIsBelow(matches: seq<Match>, buckets: seq<seq<int>>, keys: seq<int>, x: int)
    requires IsAssignment(matches, buckets, keys) && DistinctInts(keys)
    requires forall i :: 0 <= i < |keys| ==> keys[i] >= 0
    ensures Rank(Values(matches), x) == Below(IndexSet(keys), x)
  {
    var vals := Values(matches);
    AssignmentMatches(matches, buckets, keys);
    var small := set k | k in IndexSet(keys) && k < x;
    forall k ensures k in small <==> k in Image(Smaller(vals, x), vals) {
      if k != -1 {
        MatchedWithKeys(matches, buckets, keys, k);
      }
      if k in small {
        var p :| 0 <= p < |matches| && matches[p].val == k;
        assert p in Smaller(vals, x) && vals[p] == k;
      }
    }
    assert small == Image(Smaller(vals, x), vals);
    ImageSize(Smaller(vals, x), vals);
  }

  // ---- One distributed point function per bucket ----

  /** The inputs of all runs: domains of at least two positions, indices inside
      them, and value zero for unused buckets. */
  ghost predicate Ready(matches: seq<Match>, betas: seq<Block>, buckets: seq<seq<int>>) {
    && |matches| == |betas| == |buckets|
    && forall i :: 0 <= i < |buckets| ==>
         && |buckets[i]| >= 2 && -1 <= matches[i].indexInBucket < |buckets[i]|
         && (matches[i].indexInBucket == -1 ==> betas[i] == ZERO)
  }

  lemma SharesArePointRow(row: seq<int>, a: Share, b: Share, index: int, cprg: bool, beta: Block)
    requires |row| >= 2 && -1 <= index < |row| && (index == -1 ==> beta == ZERO)
    requires SharesPoint(a, b, |row|, index, Target(|row|, index, cprg), beta)
    ensures PointRow(row, a, b, index, beta)
  {
    hide Target, Xor;
    if index != -1 {
      TargetInRange(|row|, index, cprg);
    }
  }

  /** A bucket's shares: they are shares of its point up to the bit that stale
      copies flip, hence exactly if these do not pass the test. */
  ghost predicate SharedRow(row: seq<int>, a: Share, b: Share, idx: int, beta: Block, stale: Stale) {
    && |b.bits| == |row| && FlipFits(stale, |row|)
    && PointRow(row, a, Undone(b, stale), idx, beta)
    && (PointRow(row, a, b, idx, beta) <==> !Misfires(stale))
  }

  lemma RunSharesRow(row: seq<int>, a: Share, b: Share, index: int, cprg: bool, beta: Block, stale: Stale)
    requires |row| >= 2 && -1 <= index < |row| && (index == -1 ==> beta == ZERO)
    requires FlipFits(stale, |row|) && |b.bits| == |row|
    requires SharesPoint(a, Undone(b, stale), |row|, index, Target(|row|, index, cprg), beta)
    ensures SharedRow(row, a, b, index, beta, stale)
  {
    SharesArePointRow(row, a, Undone(b, stale), index, cprg, beta);
    if Misfires(stale) {
      FlipBreaksRow(row, a, b, index, beta, stale.position);
    }
  }

  lemma FlipBreaksRow(row: seq<int>, a: Share, b: Share, idx: int, beta: Block, position: nat)
    requires position < |b.bits| && PointRow(row, a, Flip(b, position), idx, beta)
    ensures !PointRow(row, a, b, idx, beta)
  {
    hide Xor;
    assert LeafXor(Leaf(a.bits[position], a.values[position]),
                   Leaf(Flip(b, position).bits[position], b.values[position])).bit
        != LeafXor(Leaf(a.bits[position], a.values[position]), Leaf(b.bits[position], b.values[position])).bit;
  }

  /** The shares, party by party, are those of the run for the bucket. */
  ghost predicate RowRun(row: seq<int>, a: Share, b: Share, idx: int, beta: Block, stale: Stale, coins: RunCoins,
                         cprg: bool)
    requires |row| >= 2 && -1 <= idx
  {
    SharedRow(row, a, b, idx, beta, stale) && IsRunOf(a, Undone(b, stale), coins, |row|, idx, beta, cprg)
  }

  /** Both parties' runs for one bucket. */
  method RunRow(coins: RunCoins, row: seq<int>, index: int, beta: Block, cprg: bool, stale: Stale)
    returns (a: Share, b: Share)
    requires |row| >= 2 && -1 <= index < |row| && (index == -1 ==> beta == ZERO) && FlipFits(stale, |row|)
    ensures RowRun(row, a, b, index, beta, stale, coins, cprg)
  {
    hide IsRunOf, Xor, SharesPoint, SharedRow, Target;
    a, b := DpfWithBeta.DpfWithBeta(coins, |row|, index, beta, cprg, stale);
    RunSharesRow(row, a, b, index, cprg, beta, stale);
  }

  /** One thread's share of the buckets. */
  method CallRange(matches: seq<Match>, betas: seq<Block>, buckets: seq<seq<int>>, coins: nat -> RunCoins, cprg: bool,
                   stales: nat -> Stale, min: nat, max: nat, dpfA: array<Share>, dpfB: array<Share>)
    requires Ready(matches, betas, buckets) && min <= max <= |buckets| && AllFlipsFit(buckets, stales)
    requires dpfA != dpfB && dpfA.Length == dpfB.Length == |buckets|
    modifies dpfA, dpfB
    ensures forall i :: min <= i < max ==>
      RowRun(buckets[i], dpfA[i], dpfB[i], matches[i].indexInBucket, betas[i], stales(i), coins(i), cprg)
    ensures forall i :: 0 <= i < |buckets| && !(min <= i < max) ==> dpfA[i] == old(dpfA[i]) && dpfB[i] == old(dpfB[i])
  {
    hide RowRun;
    for i := min to max
      invariant forall k :: min <= k < i ==>
        RowRun(buckets[k], dpfA[k], dpfB[k], matches[k].indexInBucket, betas[k], stales(k), coins(k), cprg)
      invariant forall k :: 0 <= k < |buckets| && !(min <= k < i) ==> dpfA[k] == old(dpfA[k]) && dpfB[k] == old(dpfB[k])
    {
      var a, b := RunRow(coins(i), buckets[i], matches[i].indexInBucket, betas[i], cprg, stales(i));
      dpfA[i], dpfB[i] := a, b;
    }
  }

  /** All buckets, on one thread or split over several; with several threads
      the online variant is used whatever cprg says. */
  method CallDpfFromMatches(matches: seq<Match>, betas: seq<Block>, buckets: seq<seq<int>>, coins: nat -> RunCoins,
                            cprg: bool, threads: int, stales: nat -> Stale)
    returns (dpfA: array<Share>, dpfB: array<Share>)
    requires Ready(matches, betas, buckets) && AllFlipsFit(buckets, stales)
    ensures fresh(dpfA) && fresh(dpfB) && dpfA.Length == dpfB.Length == |buckets|
    ensures forall i :: 0 <= i < |buckets| ==>
      RowRun(buckets[i], dpfA[i], dpfB[i], matches[i].indexInBucket, betas[i], stales(i), coins(i), cprg && threads <= 1)
  {
    hide RowRun, Parallelize.IsSplit;
    var b := |buckets|;
    dpfA, dpfB := new Share[b](_ => Share([], [])), new Share[b](_ => Share([], []));
    if threads > 1 {
      var minArr, maxArr, usedThreads := Parallelize.Ranges(threads, b);
      ghost var mins, maxs := minArr[..], maxArr[..];
      SplitBounds(mins, maxs, usedThreads, b);
      var todo := UpTo(usedThreads);
      while todo != {}
        invariant todo <= UpTo(usedThreads) && minArr[..] == mins && maxArr[..] == maxs
        invariant forall k, i :: 0 <= k < usedThreads && k !in todo && mins[k] <= i < maxs[k] ==>
          RowRun(buckets[i], dpfA[i], dpfB[i], matches[i].indexInBucket, betas[i], stales(i), coins(i), false)
      {
        var k :| k in todo;
        if minArr[k] < maxArr[k] {
          CallRange(matches, betas, buckets, coins, false, stales, minArr[k], maxArr[k], dpfA, dpfB);
        }
        todo := todo - {k};
      }
      forall i | 0 <= i < b
        ensures RowRun(buckets[i], dpfA[i], dpfB[i], matches[i].indexInBucket, betas[i], stales(i), coins(i), false)
      {
        Parallelize.ExactlyOneOwner(mins, maxs, usedThreads, b, i);
      }
    } else {
      CallRange(matches, betas, buckets, coins, cprg, stales, 0, b, dpfA, dpfB);
    }
  }

  lemma ReadyLengths(matches: seq<Match>, betas: seq<Block>, buckets: seq<seq<int>>)
    requires Ready(matches, betas, buckets)
    ensures |matches| == |betas| == |buckets|
  {
  }

  lemma SplitBounds(mins: seq<nat>, maxs: seq<nat>, used: nat, b: nat)
    requires Parallelize.IsSplit(mins, maxs, used, b) && |mins| == b
    ensures used <= b && |maxs| == b && forall k :: 0 <= k < used ==> mins[k] < maxs[k] <= b
  {
    forall k | 0 <= k < used ensures maxs[k] <= b {
      if k < used - 1 {
        Parallelize.RangesAscend(mins, maxs, used, b, k, used - 1);
      }
    }
  }

  // ---- Assembly and the result of the batch protocol ----

  /** One party's vectors over the whole domain. */
  method CreateMpfssVector(size: nat, rows: seq<seq<int>>, shares: seq<Share>) returns (out: Share)
    requires AllFit(rows, shares)
    requires forall i, j :: 0 <= i < |rows| && 0 <= j < |rows[i]| ==> 0 <= rows[i][j] < size
    ensures |out.bits| == |out.values| == size
    ensures forall x :: 0 <= x < size ==> At(out.bits, out.values, x) == AddRows(NOTHING, rows, shares, x, |rows|)
  {
    hide AddRows, AllFit;
    var bits, values := new bool[size](_ => false), new Block[size](_ => ZERO);
    Scatter(bits, values, rows, shares);
    out := Share(bits[..], values[..]);
  }

  function Indices(matches: seq<Match>): seq<int> {
    seq(|matches|, i requires 0 <= i < |matches| => matches[i].indexInBucket)
  }

  /** A bucket's point is for the index it is matched with. */
  lemma PointsAtValue(matches: seq<Match>, buckets: seq<seq<int>>, i: nat, x: int)
    requires AllPointInto(matches, buckets) && i < |matches| && x != -1
    ensures PointsAt(buckets, Indices(matches), i, x) <==> matches[i].val == x
  {
  }

  lemma BatchAt(matches: seq<Match>, buckets: seq<seq<int>>, keys: seq<int>, dpfA: seq<Share>, dpfB: seq<Share>,
                betas: seq<Block>, x: int) returns (owner: int)
    requires IsAssignment(matches, buckets, keys) && DistinctInts(keys) && x >= 0
    requires PointRows(buckets, dpfA, dpfB, Indices(matches), betas)
    ensures AllFit(buckets, dpfA) && AllFit(buckets, dpfB)
    ensures x in keys ==> 0 <= owner < |matches| && owner < |betas| && matches[owner].val == x
    ensures LeafXor(AddRows(NOTHING, buckets, dpfA, x, |buckets|), AddRows(NOTHING, buckets, dpfB, x, |buckets|))
         == if x in keys then Leaf(true, betas[owner]) else NOTHING
  {
    hide LeafXor, AddRows, PointsAt, PointRow, AllFit;
    var n := |buckets|;
    MatchedWithKeys(matches, buckets, keys, x);
    forall i | 0 <= i < n ensures PointsAt(buckets, Indices(matches), i, x) <==> matches[i].val == x {
      PointsAtValue(matches, buckets, i, x);
    }
    owner := -1;
    if x in keys {
      owner :| 0 <= owner < |matches| && matches[owner].val == x;
      forall i | 0 <= i < n && i != owner ensures matches[i].val != x {
        if matches[i].val == x {
          HeldByOne(matches, buckets, keys, if i < owner then i else owner, if i < owner then owner else i);
        }
      }
      OneRowPoints(buckets, dpfA, dpfB, Indices(matches), betas, x, owner, n);
    } else {
      NobodyPoints(buckets, dpfA, dpfB, Indices(matches), betas, x, n);
    }
  }

  lemma BatchShares(matches: seq<Match>, buckets: seq<seq<int>>, keys: seq<int>, dpfA: seq<Share>, dpfB: seq<Share>,
                    betas: seq<Block>, outA: Share, outB: Share, size: nat, shareA: seq<Block>, shareB: seq<Block>)
    requires IsAssignment(matches, buckets, keys) && DistinctInts(keys)
    requires forall i :: 0 <= i < |keys| ==> 0 <= keys[i] < size
    requires |shareA| == |shareB| == |keys|
    requires PointRows(buckets, dpfA, dpfB, Indices(matches), betas)
    requires forall p :: 0 <= p < |betas| ==> p < |matches| && betas[p] == Beta(Values(matches), shareA, shareB, p)
    requires AllFit(buckets, dpfA) && AllFit(buckets, dpfB)
    requires |outA.bits| == |outA.values| == |outB.bits| == |outB.values| == size
    requires forall x :: 0 <= x < size ==>
      At(outA.bits, outA.values, x) == AddRows(NOTHING, buckets, dpfA, x, |buckets|)
    requires forall x :: 0 <= x < size ==>
      At(outB.bits, outB.values, x) == AddRows(NOTHING, buckets, dpfB, x, |buckets|)
    ensures SharesFunction(outA, outB, size, IndexSet(keys), shareA, shareB)
  {
    hide Xor, AddRows, PointRows, IsAssignment, AllFit, Rank, Below;
    DistinctSize(keys);
    var indices := IndexSet(keys);
    forall x | 0 <= x < size
      ensures outA.bits[x] != outB.bits[x] <==> x in indices
      ensures if x in indices then
                Below(indices, x) < |indices| &&
                Xor(outA.values[x], outB.values[x]) == Xor(shareA[Below(indices, x)], shareB[Below(indices, x)])
              else Xor(outA.values[x], outB.values[x]) == ZERO
    {
      var owner := BatchAt(matches, buckets, keys, dpfA, dpfB, betas, x);
      assert LeafXor(At(outA.bits, outA.values, x), At(outB.bits, outB.values, x))
          == if x in keys then Leaf(true, betas[owner]) else NOTHING;
      if x in keys {
        BelowBound(indices, x);
        RankIsBelow(matches, buckets, keys, x);
      }
    }
  }

  lemma AssignmentIsReady(matches: seq<Match>, betas: seq<Block>, buckets: seq<seq<int>>, keys: seq<int>,
                          shareA: seq<Block>, shareB: seq<Block>)
    requires IsAssignment(matches, buckets, keys) && |betas| == |matches| && |shareA| == |shareB|
    requires forall p :: 0 <= p < |buckets| ==> |buckets[p]| >= 2
    requires forall p :: 0 <= p < |betas| ==> betas[p] == Beta(Values(matches), shareA, shareB, p)
    ensures Ready(matches, betas, buckets)
  {
  }

  /** One bucket of the new pipeline, which routes all values again for itself.
      The second party's index starts as zero, so no stale copy flips a bit. */
  method MpfssSingleBucket(t: nat, matches: seq<Match>, buckets: seq<seq<int>>, bucketNo: nat,
                           shareA: seq<Block>, shareB: seq<Block>, cprg: bool, coins: RunCoins, stale: Stale,
                           ghost keys: seq<int>)
    returns (a: Share, b: Share)
    requires IsAssignment(matches, buckets, keys) && DistinctInts(keys) && |keys| == t
    requires |shareA| == |shareB| == t && bucketNo < |buckets|
    requires forall p :: 0 <= p < |buckets| ==> |buckets[p]| >= 2
    ensures PointRow(buckets[bucketNo], a, b, matches[bucketNo].indexInBucket,
                     Beta(Values(matches), shareA, shareB, bucketNo))
  {
    hide Xor, PointRow, Rank, DistinctInts, Holders, UsedBuckets, Matched, Beta, IsRunOf;
    AssignmentMatches(matches, buckets, keys);
    var betas := CreateBetaVals(|matches|, t, Values(matches), shareA, shareB);
    AssignmentIsReady(matches, betas, buckets, keys, shareA, shareB);
    var index := matches[bucketNo].indexInBucket;
    a, b := DpfWithBeta.DpfWithBeta(coins, |buckets[bucketNo]|, index, betas[bucketNo], cprg, stale.(index := 0));
    SharesArePointRow(buckets[bucketNo], a, b, index, cprg, betas[bucketNo]);
  }

  /** The batch protocol on a successful assignment of distinct indices: the
      parties' values share the multi-point function, and their bits exactly if
      the flips of stale copies cancel. */
  method MpfssBatchCuckoo(size: nat, t: nat, matches: seq<Match>, buckets: seq<seq<int>>,
                          shareA: seq<Block>, shareB: seq<Block>, threads: int, cprg: bool,
                          coins: nat -> RunCoins, stales: nat -> Stale, ghost keys: seq<int>)
    returns (outA: Share, outB: Share)
    requires IsAssignment(matches, buckets, keys) && DistinctInts(keys) && |keys| == t
    requires AllFlipsFit(buckets, stales)
    requires forall i :: 0 <= i < t ==> 0 <= keys[i] < size
    requires |shareA| == |shareB| == t
    requires forall p :: 0 <= p < |buckets| ==> |buckets[p]| >= 2
    requires forall p, j :: 0 <= p < |buckets| && 0 <= j < |buckets[p]| ==> 0 <= buckets[p][j] < size
    ensures SharesUpToFlips(outA, outB, size, IndexSet(keys), shareA, shareB, buckets, stales)
    ensures SharesFunction(outA, outB, size, IndexSet(keys), shareA, shareB) <==> FlipsCancel(buckets, stales, size)
  {
    hide Xor, PointRow, SharesFunction, SharesUpToFlips, FlipsCancel, AddRows, Rank, DistinctInts, Holders;
    hide UsedBuckets, Matched, Undone, IsRunOf;
    AssignmentMatches(matches, buckets, keys);
    var betas := CreateBetaVals(|matches|, t, Values(matches), shareA, shareB);
    AssignmentIsReady(matches, betas, buckets, keys, shareA, shareB);
    var dpfA, dpfB := CallDpfFromMatches(matches, betas, buckets, coins, cprg, threads, stales);
    RowsUndone(buckets, dpfA[..], dpfB[..], Indices(matches), betas, stales);
    ghost var undone := AllUndone(buckets, dpfB[..], stales);
    outA := CreateMpfssVector(size, buckets, dpfA[..]);
    outB := CreateMpfssVector(size, buckets, dpfB[..]);
    ghost var ideal := Assembled(size, buckets, undone);
    BatchShares(matches, buckets, keys, dpfA[..], undone, betas, outA, ideal, size, shareA, shareB);
    FlippedOutput(buckets, dpfB[..], stales, outA, outB, ideal, size, IndexSet(keys), shareA, shareB);
    SharesUnlessFlipped(outA, outB, size, IndexSet(keys), shareA, shareB, buckets, stales);
  }

  /** Without the stray flips every bucket shares its point. */
  lemma RowsUndone(rows: seq<seq<int>>, a: seq<Share>, b: seq<Share>, idxs: seq<int>, betas: seq<Block>,
                   stales: nat -> Stale)
    requires |rows| == |a| == |b| == |idxs| == |betas| && AllFlipsFit(rows, stales)
    requires forall i :: 0 <= i < |rows| ==>
      -1 <= idxs[i] < |rows[i]| && SharedRow(rows[i], a[i], b[i], idxs[i], betas[i], stales(i))
    ensures AllFit(rows, a) && AllFit(rows, b) && PointRows(rows, a, AllUndone(rows, b, stales), idxs, betas)
    ensures AllFit(rows, AllUndone(rows, b, stales))
  {
    hide PointRow, Undone;
    forall i | 0 <= i < |rows| ensures Fits(rows[i], a[i]) && Fits(rows[i], b[i]) {
      UndoneFits(rows[i], a[i], b[i], idxs[i], betas[i], stales(i));
    }
    assert AllFit(rows, b);
    RowsFit(rows, a, AllUndone(rows, b, stales), idxs, betas);
  }

  lemma UndoneFits(row: seq<int>, a: Share, b: Share, idx: int, beta: Block, stale: Stale)
    requires SharedRow(row, a, b, idx, beta, stale)
    ensures Fits(row, a) && Fits(row, b)
  {
    PointRowFits(row, a, Undone(b, stale), idx, beta);
  }

  /** The outputs differ from the ideal ones by the stray flips only. */
  lemma FlippedOutput(rows: seq<seq<int>>, dpfB: seq<Share>, stales: nat -> Stale, outA: Share, outB: Share,
                      ideal: Share, size: nat, indices: set<int>, shareA: seq<Block>, shareB: seq<Block>)
    requires AllFit(rows, dpfB) && AllFlipsFit(rows, stales) && AllFit(rows, AllUndone(rows, dpfB, stales))
    requires |outB.bits| == |outB.values| == size && ideal == Assembled(size, rows, AllUndone(rows, dpfB, stales))
    requires forall x :: 0 <= x < size ==>
      At(outB.bits, outB.values, x) == AddRows(NOTHING, rows, dpfB, x, |rows|)
    requires SharesFunction(outA, ideal, size, indices, shareA, shareB)
    ensures SharesUpToFlips(outA, outB, size, indices, shareA, shareB, rows, stales)
  {
    hide AddRows, AllUndone, AllFlipsFit, OddFlips, AllFit, Below, Xor;
    forall x | 0 <= x < size
      ensures outB.values[x] == ideal.values[x]
      ensures outB.bits[x] != ideal.bits[x] <==> OddFlips(rows, stales, x, |rows|)
    {
      FlipRows(rows, dpfB, stales, x, |rows|);
      assert At(outB.bits, outB.values, x) == AddRows(NOTHING, rows, dpfB, x, |rows|);
      assert At(ideal.bits, ideal.values, x) == AddRows(NOTHING, rows, AllUndone(rows, dpfB, stales), x, |rows|);
    }
  }

  lemma RowsFit(rows: seq<seq<int>>, a: seq<Share>, b: seq<Share>, idxs: seq<int>, betas: seq<Block>)
    requires PointRows(rows, a, b, idxs, betas)
    ensures AllFit(rows, a) && AllFit(rows, b)
  {
  }

  // ---- The naive protocol ----

  function Self(): int -> int {
    (k: int) => k
  }

  function Identity(size: nat): seq<int> {
    seq(size, i requires 0 <= i => i)
  }

  /** In an ordered list of distinct indices, position is rank. */
  lemma PositionIsRank(sorted: seq<int>, k: nat)
    requires Ordered(sorted, Self()) && DistinctInts(sorted) && k < |sorted|
    ensures Below(IndexSet(sorted), sorted[k]) == k
  {
    DistinctSize(sorted[..k]);
    var below := set y | y in IndexSet(sorted) && y < sorted[k];
    forall y ensures y in below <==> y in IndexSet(sorted[..k]) {
      if y in below {
        var j :| 0 <= j < |sorted| && sorted[j] == y;
        assert sorted[..k][j] == y;
      }
    }
    assert below == IndexSet(sorted[..k]);
  }

  /** The combined vectors at x after the first n points. */
  function PointSum(idxs: seq<int>, betas: seq<Block>, x: int, n: nat): Leaf
    requires n <= |idxs| == |betas|
  {
    if n == 0 then NOTHING
    else
      var prev := PointSum(idxs, betas, x, n - 1);
      if idxs[n - 1] == x then LeafXor(prev, Leaf(true, betas[n - 1])) else prev
  }

  lemma {:induction false} PointSumIs(idxs: seq<int>, betas: seq<Block>, x: int, n: nat)
    requires n <= |idxs| == |betas| && DistinctInts(idxs)
    ensures (forall k :: 0 <= k < n ==> idxs[k] != x) ==> PointSum(idxs, betas, x, n) == NOTHING
    ensures forall k :: 0 <= k < n && idxs[k] == x ==> PointSum(idxs, betas, x, n) == Leaf(true, betas[k])
  {
    hide LeafXor;
    if n > 0 {
      PointSumIs(idxs, betas, x, n - 1);
      LeafNothing(Leaf(true, betas[n - 1]));
    }
  }

  /** Both parties' vectors combined at x. */
  function Combined(bitsA: seq<bool>, valuesA: seq<Block>, bitsB: seq<bool>, valuesB: seq<Block>, x: nat): Leaf
    requires x < |bitsA| == |valuesA| && x < |bitsB| == |valuesB|
  {
    LeafXor(At(bitsA, valuesA, x), At(bitsB, valuesB, x))
  }

  /** One full-size function is added to both parties' vectors. */
  method AddPoint(bitsA: array<bool>, valuesA: array<Block>, bitsB: array<bool>, valuesB: array<Block>,
                  a: Share, b: Share, size: nat, idx: int, beta: Block)
    requires bitsA.Length == valuesA.Length == bitsB.Length == valuesB.Length == size
    requires bitsA != bitsB && valuesA != valuesB
    requires 0 <= idx < size && PointRow(Identity(size), a, b, idx, beta)
    modifies bitsA, valuesA, bitsB, valuesB
    ensures forall x :: 0 <= x < size ==>
      var before := Combined(old(bitsA[..]), old(valuesA[..]), old(bitsB[..]), old(valuesB[..]), x);
      Combined(bitsA[..], valuesA[..], bitsB[..], valuesB[..], x)
      == if idx == x then LeafXor(before, Leaf(true, beta)) else before
  {
    hide LeafXor, AddRow, PointRow;
    ghost var oldA, oldB := Share(bitsA[..], valuesA[..]), Share(bitsB[..], valuesB[..]);
    assert Fits(Identity(size), a) && Fits(Identity(size), b) by { PointRowFits(Identity(size), a, b, idx, beta); }
    ScatterRow(bitsA, valuesA, Identity(size), a);
    ScatterRow(bitsB, valuesB, Identity(size), b);
    forall x | 0 <= x < size
      ensures var before := Combined(oldA.bits, oldA.values, oldB.bits, oldB.values, x);
        Combined(bitsA[..], valuesA[..], bitsB[..], valuesB[..], x)
        == if idx == x then LeafXor(before, Leaf(true, beta)) else before
    {
      AddPointRow(At(oldA.bits, oldA.values, x), At(oldB.bits, oldB.values, x), Identity(size),
                  a, b, idx, beta, x, size);
    }
  }

  lemma PointRowFits(row: seq<int>, a: Share, b: Share, idx: int, beta: Block)
    requires PointRow(row, a, b, idx, beta)
    ensures Fits(row, a) && Fits(row, b)
  {
  }

  /** One point over the whole domain.  The second party's index is zero. */
  method RunFullRow(coins: RunCoins, size: nat, index: int, beta: Block, cprg: bool, stale: Stale)
    returns (a: Share, b: Share)
    requires size >= 2 && 0 <= index < size
    ensures PointRow(Identity(size), a, b, index, beta)
  {
    hide PointRow, Identity, Target, SharesPoint, IsRunOf, Xor;
    a, b := DpfWithBeta.DpfWithBeta(coins, size, index, beta, cprg, stale.(index := 0));
    FullRow(a, b, size, index, cprg, beta);
  }

  /** The naive protocol: sort the indices, then one full-size function with the
      j-th share for the j-th smallest index.  The second party's array of
      indices holds zeros, so no stale copy flips a bit. */
  method GetMpfssVectors(size: nat, indices: array<int>, shareA: seq<Block>, shareB: seq<Block>, cprg: bool,
                         coins: nat -> RunCoins, stales: nat -> Stale)
    returns (outA: Share, outB: Share)
    requires size >= 2 && |shareA| == |shareB| == indices.Length && DistinctInts(indices[..])
    requires forall i :: 0 <= i < indices.Length ==> 0 <= indices[i] < size
    modifies indices
    ensures SharesFunction(outA, outB, size, IndexSet(old(indices[..])), shareA, shareB)
  {
    hide LeafXor, Xor, PointRow, Identity, SharesFunction, Ordered;
    ghost var given := indices[..];
    SortInPlace(indices, Self());
    ghost var sorted := indices[..];
    SortedIndices(given, sorted, size);
    var t := indices.Length;
    var shareXor := seq(t, i requires 0 <= i < t => Xor(shareA[i], shareB[i]));
    var bitsA, valuesA := new bool[size](_ => false), new Block[size](_ => ZERO);
    var bitsB, valuesB := new bool[size](_ => false), new Block[size](_ => ZERO);
    LeafNothing(NOTHING);
    for j := 0 to t
      invariant indices[..] == sorted
      invariant forall x :: 0 <= x < size ==>
        Combined(bitsA[..], valuesA[..], bitsB[..], valuesB[..], x) == PointSum(sorted, shareXor, x, j)
    {
      var a, b := RunFullRow(coins(j), size, indices[j], shareXor[j], cprg, stales(j));
      AddPoint(bitsA, valuesA, bitsB, valuesB, a, b, size, indices[j], shareXor[j]);
    }
    outA, outB := Share(bitsA[..], valuesA[..]), Share(bitsB[..], valuesB[..]);
    NaiveShares(sorted, shareXor, outA, outB, size, shareA, shareB);
  }

  lemma FullRow(a: Share, b: Share, size: nat, index: int, cprg: bool, beta: Block)
    requires size >= 2 && 0 <= index < size
    requires SharesPoint(a, b, size, index, Target(size, index, cprg), beta)
    ensures PointRow(Identity(size), a, b, index, beta)
  {
    hide PointRow, Target, SharesPoint;
    SharesArePointRow(Identity(size), a, b, index, cprg, beta);
  }

  lemma SortedIndices(given: seq<int>, sorted: seq<int>, size: nat)
    requires multiset(given) == multiset(sorted) && DistinctInts(given)
    requires forall i :: 0 <= i < |given| ==> 0 <= given[i] < size
    ensures DistinctInts(sorted) && |sorted| == |given| && IndexSet(sorted) == IndexSet(given)
    ensures forall i :: 0 <= i < |sorted| ==> 0 <= sorted[i] < size
  {
    PermutedElements(given, sorted, Self());
    forall i, j | 0 <= i < j < |sorted| ensures sorted[i] != sorted[j] {
      assert Self()(sorted[i]) != Self()(sorted[j]);
    }
    forall i | 0 <= i < |sorted| ensures 0 <= sorted[i] < size {
      assert sorted[i] in given;
    }
  }

  lemma NaiveShares(sorted: seq<int>, shareXor: seq<Block>, outA: Share, outB: Share, size: nat,
                    shareA: seq<Block>, shareB: seq<Block>)
    requires Ordered(sorted, Self()) && DistinctInts(sorted)
    requires |sorted| == |shareXor| == |shareA| == |shareB|
    requires forall k :: 0 <= k < |sorted| ==> shareXor[k] == Xor(shareA[k], shareB[k])
    requires |outA.bits| == |outA.values| == |outB.bits| == |outB.values| == size
    requires forall x :: 0 <= x < size ==>
      Combined(outA.bits, outA.values, outB.bits, outB.values, x) == PointSum(sorted, shareXor, x, |sorted|)
    ensures SharesFunction(outA, outB, size, IndexSet(sorted), shareA, shareB)
  {
    hide Xor, Below, PointSum, Ordered;
    DistinctSize(sorted);
    var indices := IndexSet(sorted);
    forall x | 0 <= x < size
      ensures outA.bits[x] != outB.bits[x] <==> x in indices
      ensures if x in indices then
                Below(indices, x) < |indices| &&
                Xor(outA.values[x], outB.values[x]) == Xor(shareA[Below(indices, x)], shareB[Below(indices, x)])
              else Xor(outA.values[x], outB.values[x]) == ZERO
    {
      PointSumIs(sorted, shareXor, x, |sorted|);
      if x in indices {
        var k :| 0 <= k < |sorted| && sorted[k] == x;
        PositionIsRank(sorted, k);
      }
    }
  }

  // ---- Whole runs ----

  datatype Status = Done(a: Share, b: Share) | AssignmentFailed

  /** What the hash family must give: buckets of at least two positions, which
      contain the stray flips. */
  ghost predicate Roomy(size: nat, b: nat, func: HashFn, rands: seq<int>, stales: nat -> Stale)
    requires b > 0
  {
    forall p :: 0 <= p < b ==> Load(func, rands, b, p, size) >= 2 && FlipFits(stales(p), Load(func, rands, b, p, size))
  }

  lemma RoomyBuckets(buckets: seq<seq<int>>, size: nat, b: nat, func: HashFn, rands: seq<int>, stales: nat -> Stale)
    requires b > 0 && IsIndex(buckets, size, b, func, rands) && Roomy(size, b, func, rands, stales)
    ensures |buckets| == b && AllFlipsFit(buckets, stales)
    ensures forall p :: 0 <= p < b ==> |buckets[p]| >= 2
    ensures forall p, j :: 0 <= p < b && 0 <= j < |buckets[p]| ==> 0 <= buckets[p][j] < size
  {
    forall p | 0 <= p < b ensures |buckets[p]| >= 2 && FlipFits(stales(p), |buckets[p]|) {
      BucketLength(buckets, size, b, func, rands, p);
    }
    assert forall p, j :: 0 <= p < b && 0 <= j < |buckets[p]| ==> buckets[p][j] in buckets[p];
  }

  /** A whole run, on buckets that are generated unless the caller provides
      them.  It fails exactly when the cuckoo insertion gives up; otherwise the
      outputs share the function, the bits exactly if stray flips cancel. */
  method RunMpfssCuckoo(size: nat, t: nat, b: nat, w: nat, indices: seq<int>, shareA: seq<Block>, shareB: seq<Block>,
                        bucketsSet: bool, allBuckets: seq<seq<int>>, func: HashFn, rands: seq<int>, threads: int,
                        cprg: bool, draws: nat -> nat, coins: nat -> RunCoins, stales: nat -> Stale)
    returns (status: Status, buckets: seq<seq<int>>)
    requires size >= 2 && w >= 1 && |rands| == w && b >= 1 && |indices| == t == |shareA| == |shareB|
    requires DistinctInts(indices) && forall i :: 0 <= i < t ==> 0 <= indices[i] < size
    requires bucketsSet ==> IsIndex(allBuckets, size, b, func, rands)
    requires Roomy(size, b, func, rands, stales)
    ensures IsIndex(buckets, size, b, func, rands) && AllFlipsFit(buckets, stales)
    ensures var cfg := Config(w, [b], rands, size / 2, func);
      status.Done? <==> InsertAll(cfg, EmptyStore(cfg), indices, draws, 0).Success?
    ensures status.Done? ==>
      && SharesUpToFlips(status.a, status.b, size, IndexSet(indices), shareA, shareB, buckets, stales)
      && (SharesFunction(status.a, status.b, size, IndexSet(indices), shareA, shareB)
          <==> FlipsCancel(buckets, stales, size))
  {
    hide SharesFunction, SharesUpToFlips, FlipsCancel, AllFlipsFit, Roomy, IsIndex;
    hide DistinctInts, Holders, UsedBuckets, AllPointInto;
    buckets := allBuckets;
    if !bucketsSet {
      buckets := GenerateBuckets(size, b, func, rands);
    }
    RoomyBuckets(buckets, size, b, func, rands, stales);
    var maxLoop := size / 2;
    var matches := new Match[b](_ => Match(-1, 0, -1));
    assert indices[..t] == indices;
    var succ, evictions := CreateAssignment(w, b, maxLoop, t, indices, func, buckets, rands, draws, size, matches);
    if succ == -1 {
      return AssignmentFailed, buckets;
    }
    assert IsAssignment(matches[..], buckets, indices) by {
      assert forall p, x :: 0 <= p < b && x in buckets[p] ==> x >= 0;
    }
    var outA, outB :=
      MpfssBatchCuckoo(size, t, matches[..], buckets, shareA, shareB, threads, cprg, coins, stales, indices);
    status := Done(outA, outB);
  }

  // ---- Both protocols compute the same function ----

  /** Two pairs of shares combine to the same values, and to the same bits
      exactly where stray flips of the first pair cancel. */
  ghost predicate CombineAlike(a: Share, b: Share, a': Share, b': Share, size: nat, rows: seq<seq<int>>,
                               stales: nat -> Stale)
    requires AllFlipsFit(rows, stales)
  {
    && |a.bits| == |b.bits| == |a.values| == |b.values| == size
    && |a'.bits| == |b'.bits| == |a'.values| == |b'.values| == size
    && forall x :: 0 <= x < size ==>
         && Xor(a.values[x], b.values[x]) == Xor(a'.values[x], b'.values[x])
         && ((a.bits[x] != b.bits[x]) == (a'.bits[x] != b'.bits[x]) <==> !OddFlips(rows, stales, x, |rows|))
  }

  lemma SameFunction(a: Share, b: Share, a': Share, b': Share, size: nat, indices: set<int>,
                     shareA: seq<Block>, shareB: seq<Block>, rows: seq<seq<int>>, stales: nat -> Stale)
    requires AllFlipsFit(rows, stales)
    requires SharesUpToFlips(a, b, size, indices, shareA, shareB, rows, stales)
    requires SharesFunction(a', b', size, indices, shareA, shareB)
    ensures CombineAlike(a, b, a', b', size, rows, stales)
  {
    hide OddFlips, Xor, Below;
  }

  /** Without a stale copy that passes the test the bits agree everywhere. */
  lemma AlikeWithoutMisfires(a: Share, b: Share, a': Share, b': Share, size: nat, rows: seq<seq<int>>,
                             stales: nat -> Stale)
    requires AllFlipsFit(rows, stales) && CombineAlike(a, b, a', b', size, rows, stales)
    requires forall i :: 0 <= i < |rows| ==> !Misfires(stales(i))
    ensures forall x :: 0 <= x < size ==> (a.bits[x] != b.bits[x]) == (a'.bits[x] != b'.bits[x])
  {
    hide Misfires, OddFlips;
    forall x | 0 <= x < size ensures !OddFlips(rows, stales, x, |rows|) {
      NobodyFlips(rows, stales, x, |rows|);
    }
  }

  /** One run of each protocol on the same indices and shares.  If the first one
      does not fail, the parties' values combine to the same vector, whatever
      the randomness, the hash family and the evictions were, and so do their
      bits wherever stray flips cancel. */
  method RunBoth(size: nat, t: nat, b: nat, w: nat, indices: seq<int>, shareA: seq<Block>, shareB: seq<Block>,
                 func: HashFn, rands: seq<int>, threads: int, cprg: bool, draws: nat -> nat, coins: nat -> RunCoins,
                 stales: nat -> Stale, naiveCprg: bool, naiveCoins: nat -> RunCoins, naiveStales: nat -> Stale)
    returns (status: Status, naiveA: Share, naiveB: Share, buckets: seq<seq<int>>)
    requires size >= 2 && w >= 1 && |rands| == w && b >= 1 && |indices| == t == |shareA| == |shareB|
    requires DistinctInts(indices) && forall i :: 0 <= i < t ==> 0 <= indices[i] < size
    requires Roomy(size, b, func, rands, stales)
    ensures IsIndex(buckets, size, b, func, rands) && AllFlipsFit(buckets, stales)
    ensures var cfg := Config(w, [b], rands, size / 2, func);
      status.Done? <==> InsertAll(cfg, EmptyStore(cfg), indices, draws, 0).Success?
    ensures status.Done? ==> CombineAlike(status.a, status.b, naiveA, naiveB, size, buckets, stales)
  {
    hide SharesFunction, SharesUpToFlips, FlipsCancel, AllFlipsFit, Roomy, IsIndex, DistinctInts;
    hide CombineAlike;
    status, buckets := RunMpfssCuckoo(size, t, b, w, indices, shareA, shareB, false, [], func, rands, threads, cprg,
                                      draws, coins, stales);
    var sorted := new int[t](i requires 0 <= i < t => indices[i]);
    assert sorted[..] == indices;
    naiveA, naiveB := GetMpfssVectors(size, sorted, shareA, shareB, naiveCprg, naiveCoins, naiveStales);
    if status.Done? {
      SameFunction(status.a, status.b, naiveA, naiveB, size, IndexSet(indices), shareA, shareB, buckets, stales);
    }
  }
}
