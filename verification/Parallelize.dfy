/** Splitting b work items over threads. */
module Parallelize {
  /** Contiguous non-empty ranges from 0 to b whose sizes differ by at most one. */
  ghost predicate IsSplit(mins: seq<nat>, maxs: seq<nat>, used: nat, b: nat) {
    && used <= |mins| == |maxs| && (used == 0 <==> b == 0)
    && (used > 0 ==> mins[0] == 0 && maxs[used - 1] == b)
    && (forall i :: 0 <= i < used ==> mins[i] < maxs[i])
    && (forall i :: 0 <= i < used - 1 ==> maxs[i] == mins[i + 1])
    && (forall i, j :: 0 <= i < used && 0 <= j < used ==> maxs[i] + mins[j] <= maxs[j] + mins[i] + 1)
  }

  lemma {:induction false} RangesAscend(mins: seq<nat>, maxs: seq<nat>, used: nat, b: nat, i: nat, j: nat)
    requires IsSplit(mins, maxs, used, b) && i < j < used
    ensures maxs[i] <= mins[j]
    decreases j - i
  {
    if i + 1 < j {
      RangesAscend(mins, maxs, used, b, i + 1, j);
    }
  }

  lemma {:induction false} OwnerUpTo(mins: seq<nat>, maxs: seq<nat>, used: nat, b: nat, k: nat, x: nat)
    returns (i: nat)
    requires IsSplit(mins, maxs, used, b) && k < used && x < maxs[k]
    ensures i <= k && mins[i] <= x < maxs[i]
    decreases k
  {
    if x >= mins[k] {
      i := k;
    } else {
      assert maxs[k - 1] == mins[k];
      i := OwnerUpTo(mins, maxs, used, b, k - 1, x);
    }
  }

  /** Every item belongs to exactly one used thread. */
  lemma ExactlyOneOwner(mins: seq<nat>, maxs: seq<nat>, used: nat, b: nat, x: nat)
    requires IsSplit(mins, maxs, used, b) && x < b
    ensures exists i :: 0 <= i < used && mins[i] <= x < maxs[i]
    ensures forall i, j :: 0 <= i < used && 0 <= j < used && mins[i] <= x < maxs[i] && mins[j] <= x < maxs[j] ==> i == j
  {
    var owner := OwnerUpTo(mins, maxs, used, b, used - 1, x);
    forall i, j | 0 <= i < j < used ensures !(mins[i] <= x < maxs[i] && mins[j] <= x < maxs[j]) {
      RangesAscend(mins, maxs, used, b, i, j);
    }
  }

  function Min(a: nat, b: nat): nat {
    if a < b then a else b
  }

  /** Where range k starts: base items per range, and one more for each of the
      first extra ranges. */
  function Bound(k: nat, base: nat, extra: nat): nat {
    k * base + Min(k, extra)
  }

  lemma BoundStep(k: nat, base: nat, extra: nat)
    ensures Bound(0, base, extra) == 0
    ensures Bound(k + 1, base, extra) == Bound(k, base, extra) + base + if k < extra then 1 else 0
  {
  }

  /** The division the ranges are based on. */
  lemma Division(threads: nat, b: nat)
    requires threads > 0
    ensures var base := b / threads;
      && base * threads <= b < base * threads + threads
      && (b < threads ==> base == 0) && (b >= threads ==> base >= 1)
      && Bound(Min(threads, b), base, b - base * threads) == b
  {
  }

  lemma BoundsSplit(mins: seq<nat>, maxs: seq<nat>, threads: nat, b: nat)
    requires threads > 0 && |mins| == |maxs| == b
    requires var base := b / threads;
      b >= base * threads && forall k :: 0 <= k < b ==>
        mins[k] == Bound(k, base, b - base * threads) && maxs[k] == Bound(k + 1, base, b - base * threads)
    ensures IsSplit(mins, maxs, Min(threads, b), b)
  {
    hide Bound;
    var base := b / threads;
    var extra := b - base * threads;
    Division(threads, b);
    forall k | 0 <= k < b
      ensures maxs[k] == mins[k] + base + if k < extra then 1 else 0
    {
      BoundStep(k, base, extra);
    }
    BoundStep(0, base, extra);
  }

  /** The ranges of the first min(threads, b) threads, also when there are more
      threads than items. */
  method Ranges(threads: nat, b: nat) returns (minArr: array<nat>, maxArr: array<nat>, usedThreads: nat)
    requires threads > 0
    ensures fresh(minArr) && fresh(maxArr) && minArr.Length == maxArr.Length == b
    ensures usedThreads == (if threads < b then threads else b) && IsSplit(minArr[..], maxArr[..], usedThreads, b)
  {
    hide Bound, IsSplit;
    minArr, maxArr := new nat[b], new nat[b];
    Division(threads, b);
    var lastMax, min := 0, 0;
    var base := b / threads;
    var rest := b - base * threads;
    ghost var extra := rest;
    BoundStep(0, base, extra);
    for i := 0 to b
      invariant rest == if i < extra then extra - i else 0
      invariant lastMax == min == Bound(i, base, extra)
      invariant forall k :: 0 <= k < i ==> minArr[k] == Bound(k, base, extra) && maxArr[k] == Bound(k + 1, base, extra)
    {
      var val := base;
      BoundStep(i, base, extra);
      if rest > 0 {
        val := val + 1;
        rest := rest - 1;
      }
      var max := lastMax + val;
      minArr[i], maxArr[i] := min, max;
      min, lastMax := max, max;
    }
    usedThreads := threads;
    if b < threads {
      usedThreads := b;
    }
    BoundsSplit(minArr[..], maxArr[..], threads, b);
  }
}
