/** The buckets of the domain under the hash family, and the assignment of
    indices to buckets that the cuckoo table defines. */
module Buckets {
  import opened Counting
  import opened Cuckoo

  /** How many of the first n hash functions send x to bucket p. */
  function Hits(func: HashFn, rands: seq<int>, b: nat, x: int, p: nat, n: nat): nat
    requires b > 0 && n <= |rands|
  {
    if n == 0 then 0
    else Hits(func, rands, b, x, p, n - 1) + One(HashThis(func, x, rands[n - 1], b) == p)
  }

  ghost predicate Sorted(s: seq<int>) {
    forall i, j :: 0 <= i < j < |s| ==> s[i] <= s[j]
  }

  function TotalLength(ss: seq<seq<int>>): nat {
    if ss == [] then 0 else TotalLength(ss[..|ss| - 1]) + |ss[|ss| - 1]|
  }

  /** Buckets are sorted, and key x of the domain occurs in bucket p once for
      every hash function that sends it there. */
  ghost predicate IsIndex(buckets: seq<seq<int>>, size: nat, b: nat, func: HashFn, rands: seq<int>)
    requires b > 0
  {
    && |buckets| == b
    && (forall p :: 0 <= p < b ==> Sorted(buckets[p]))
    && (forall p, x :: 0 <= p < b && 0 <= x < size ==>
          multiset(buckets[p])[x] == Hits(func, rands, b, x, p, |rands|))
    && (forall p, x :: 0 <= p < b && x in buckets[p] ==> 0 <= x < size)
  }

  lemma {:induction false} GrowOne(ss: seq<seq<int>>, p: nat, x: int)
    requires p < |ss|
    ensures TotalLength(ss[p := ss[p] + [x]]) == TotalLength(ss) + 1
  {
    var n := |ss| - 1;
    if p < n {
      GrowOne(ss[..n], p, x);
      assert ss[p := ss[p] + [x]][..n] == ss[..n][p := ss[..n][p] + [x]];
    } else {
      assert ss[p := ss[p] + [x]][..n] == ss[..n];
    }
  }

  lemma {:induction false} NoLength(ss: seq<seq<int>>)
    requires forall i :: 0 <= i < |ss| ==> ss[i] == []
    ensures TotalLength(ss) == 0
  {
    if ss != [] {
      NoLength(ss[..|ss| - 1]);
    }
  }

  /** The state of the loops: keys below key are complete, and key itself has
      been hashed with the first n functions. */
  ghost predicate Partial(buckets: seq<seq<int>>, b: nat, func: HashFn, rands: seq<int>, key: nat, n: nat)
    requires b > 0 && n <= |rands|
  {
    && |buckets| == b
    && (forall p :: 0 <= p < b ==> Sorted(buckets[p]))
    && (forall p, x :: 0 <= p < b && 0 <= x < key ==>
          multiset(buckets[p])[x] == Hits(func, rands, b, x, p, |rands|))
    && (forall p :: 0 <= p < b ==> multiset(buckets[p])[key] == Hits(func, rands, b, key, p, n))
    && (forall p, x :: 0 <= p < b && x in buckets[p] ==> 0 <= x <= key)
  }

  lemma PushKeepsPartial(buckets: seq<seq<int>>, b: nat, func: HashFn, rands: seq<int>, key: nat, n: nat)
    requires b > 0 && n < |rands| && Partial(buckets, b, func, rands, key, n)
    ensures var p := HashThis(func, key, rands[n], b);
      p < b && Partial(buckets[p := buckets[p] + [key]], b, func, rands, key, n + 1)
  {
    HashIsAbsoluteRemainder(func, key, rands[n], b);
    hide HashThis;
    var p := HashThis(func, key, rands[n], b);
    var after := buckets[p := buckets[p] + [key]];
    assert multiset(buckets[p] + [key]) == multiset(buckets[p]) + multiset{key};
    forall q | 0 <= q < b ensures Sorted(after[q]) {
      assert Sorted(buckets[q]);
      assert forall i :: 0 <= i < |buckets[q]| ==> buckets[q][i] in buckets[q];
    }
    forall q, x | 0 <= q < b && 0 <= x < key
      ensures multiset(after[q])[x] == Hits(func, rands, b, x, q, |rands|)
    {
      assert multiset(buckets[q])[x] == Hits(func, rands, b, x, q, |rands|);
    }
    forall q, x | 0 <= q < b && x in after[q] ensures 0 <= x <= key {
      assert x in buckets[q] || x == key;
    }
  }

  lemma NextKeyPartial(buckets: seq<seq<int>>, b: nat, func: HashFn, rands: seq<int>, key: nat)
    requires b > 0 && Partial(buckets, b, func, rands, key, |rands|)
    ensures Partial(buckets, b, func, rands, key + 1, 0)
  {
    forall p | 0 <= p < b ensures multiset(buckets[p])[key + 1] == 0 {
      assert key + 1 !in buckets[p];
    }
  }

  method GenerateBuckets(size: nat, b: nat, func: HashFn, rands: seq<int>) returns (allBuckets: seq<seq<int>>)
    requires b > 0
    ensures IsIndex(allBuckets, size, b, func, rands)
    ensures TotalLength(allBuckets) == |rands| * size
  {
    hide HashThis, Partial;
    allBuckets := seq(b, _ => []);
    NoLength(allBuckets);
    StartPartial(allBuckets, b, func, rands);
    for key := 0 to size
      invariant Partial(allBuckets, b, func, rands, key, 0)
      invariant TotalLength(allBuckets) == |rands| * key
    {
      for j := 0 to |rands|
        invariant Partial(allBuckets, b, func, rands, key, j)
        invariant TotalLength(allBuckets) == |rands| * key + j
      {
        var bucketNumber := HashThis(func, key, rands[j], b);
        PushKeepsPartial(allBuckets, b, func, rands, key, j);
        PartialLength(allBuckets, b, func, rands, key, j);
        GrowOne(allBuckets, bucketNumber, key);
        allBuckets := allBuckets[bucketNumber := allBuckets[bucketNumber] + [key]];
      }
      NextKeyPartial(allBuckets, b, func, rands, key);
    }
    PartialIsIndex(allBuckets, b, func, rands, size);
  }

  lemma StartPartial(buckets: seq<seq<int>>, b: nat, func: HashFn, rands: seq<int>)
    requires b > 0 && |buckets| == b && forall p :: 0 <= p < b ==> buckets[p] == []
    ensures Partial(buckets, b, func, rands, 0, 0)
  {
  }

  lemma PartialLength(buckets: seq<seq<int>>, b: nat, func: HashFn, rands: seq<int>, key: nat, n: nat)
    requires b > 0 && n <= |rands| && Partial(buckets, b, func, rands, key, n)
    ensures |buckets| == b
  {
  }

  lemma PartialIsIndex(buckets: seq<seq<int>>, b: nat, func: HashFn, rands: seq<int>, size: nat)
    requires b > 0 && Partial(buckets, b, func, rands, size, 0)
    ensures IsIndex(buckets, size, b, func, rands)
  {
  }

  // ---- The length of a bucket ----

  /** How many pairs of a key below n and a hash function lead to bucket p. */
  function Load(func: HashFn, rands: seq<int>, b: nat, p: nat, n: nat): nat
    requires b > 0
  {
    if n == 0 then 0 else Load(func, rands, b, p, n - 1) + Hits(func, rands, b, n - 1, p, |rands|)
  }

  /** How many elements of s are numbers below n. */
  ghost function CountBelow(s: seq<int>, n: nat): nat {
    if n == 0 then 0 else CountBelow(s, n - 1) + multiset(s)[n - 1]
  }

  lemma {:induction false} CountBelowAppend(s: seq<int>, x: int, n: nat)
    ensures CountBelow(s + [x], n) == CountBelow(s, n) + One(0 <= x < n)
  {
    if n > 0 {
      CountBelowAppend(s, x, n - 1);
      assert multiset(s + [x]) == multiset(s) + multiset{x};
    }
  }

  lemma {:induction false} CountBelowEmpty(n: nat)
    ensures CountBelow([], n) == 0
  {
    if n > 0 {
      CountBelowEmpty(n - 1);
    }
  }

  lemma {:induction false} CountBelowAll(s: seq<int>, n: nat)
    requires forall i :: 0 <= i < |s| ==> 0 <= s[i] < n
    ensures CountBelow(s, n) == |s|
  {
    if s == [] {
      CountBelowEmpty(n);
    } else {
      var last := |s| - 1;
      CountBelowAll(s[..last], n);
      CountBelowAppend(s[..last], s[last], n);
      assert s == s[..last] + [s[last]];
    }
  }

  lemma {:induction false} CountBelowIsLoad(buckets: seq<seq<int>>, size: nat, b: nat, func: HashFn, rands: seq<int>,
                                            p: nat, n: nat)
    requires b > 0 && IsIndex(buckets, size, b, func, rands) && p < b && n <= size
    ensures CountBelow(buckets[p], n) == Load(func, rands, b, p, n)
  {
    if n > 0 {
      CountBelowIsLoad(buckets, size, b, func, rands, p, n - 1);
    }
  }

  /** The length of a bucket follows from the hash family alone. */
  lemma BucketLength(buckets: seq<seq<int>>, size: nat, b: nat, func: HashFn, rands: seq<int>, p: nat)
    requires b > 0 && IsIndex(buckets, size, b, func, rands) && p < b
    ensures |buckets[p]| == Load(func, rands, b, p, size)
  {
    forall i | 0 <= i < |buckets[p]| ensures 0 <= buckets[p][i] < size {
      assert buckets[p][i] in buckets[p];
    }
    CountBelowAll(buckets[p], size);
    CountBelowIsLoad(buckets, size, b, func, rands, p, size);
  }

  // ---- Assignment of indices to buckets ----

  /** One bucket's index: value -1 and position -1 for an unused bucket. */
  datatype Match = Match(val: int, bucket: int, indexInBucket: int)

  /** The first position whose element is not less than val. */
  method LowerBound(v: seq<int>, val: int) returns (r: nat)
    requires Sorted(v)
    ensures r <= |v|
    ensures forall i :: 0 <= i < r ==> v[i] < val
    ensures forall i :: r <= i < |v| ==> v[i] >= val
  {
    r := 0;
    var count := |v|;
    while count > 0
      invariant count >= 0 && r + count <= |v|
      invariant forall i :: 0 <= i < r ==> v[i] < val
      invariant forall i :: r + count <= i < |v| ==> v[i] >= val
      decreases count
    {
      var step := count / 2;
      if v[r + step] < val {
        r, count := r + step + 1, count - (step + 1);
      } else {
        count := step;
      }
    }
  }

  /** The match of bucket i points at the first occurrence of its value. */
  predicate PointsInto(m: Match, i: nat, bucket: seq<int>) {
    && m.bucket == i
    && (m.val == -1 ==> m.indexInBucket == -1)
    && (m.val != -1 ==>
          && 0 <= m.indexInBucket < |bucket| && bucket[m.indexInBucket] == m.val
          && forall j :: 0 <= j < m.indexInBucket ==> bucket[j] < m.val)
  }

  ghost predicate AllPointInto(matches: seq<Match>, buckets: seq<seq<int>>) {
    && |matches| == |buckets|
    && forall i :: 0 <= i < |matches| ==> PointsInto(matches[i], i, buckets[i])
  }

  /** The buckets that are matched with x. */
  function Holders(matches: seq<Match>, x: int): set<nat> {
    set i: nat | i < |matches| && matches[i].val == x
  }

  function UsedBuckets(matches: seq<Match>): set<nat> {
    set i: nat | i < |matches| && matches[i].val != -1
  }

  function Is(x: int): int -> bool {
    k => k == x
  }

  lemma {:induction false} CountIsMultiplicity(keys: seq<int>, x: int)
    ensures CountIn(keys, Is(x)) == multiset(keys)[x]
    ensures CountIn(keys, Any()) == |keys|
  {
    if keys != [] {
      var n := |keys| - 1;
      CountIsMultiplicity(keys[..n], x);
      assert keys == keys[..n] + [keys[n]];
    }
  }

  /** What the single table of a successful run says about each bucket. */
  ghost predicate ReadsTable(matches: seq<Match>, st: Store) {
    && |st.tables| == |st.used| == 1 && |matches| == |st.tables[0]| == |st.used[0]|
    && forall i :: 0 <= i < |matches| ==>
         matches[i].val == if st.used[0][i] then st.tables[0][i].first else -1
  }

  /** Every index is matched with as many buckets as it was given, and nothing
      else is matched. */
  lemma MatchesAreIndices(cfg: Config, keys: seq<int>, draws: nat -> nat, matches: seq<Match>, x: int)
    requires cfg.Valid() && |cfg.sizes| == 1 && Shaped(cfg, EmptyStore(cfg))
    requires InsertAll(cfg, EmptyStore(cfg), keys, draws, 0).Success?
    requires ReadsTable(matches, InsertAll(cfg, EmptyStore(cfg), keys, draws, 0).store)
    requires forall i :: 0 <= i < |keys| ==> keys[i] >= 0
    ensures x != -1 ==> |Holders(matches, x)| == multiset(keys)[x]
    ensures |UsedBuckets(matches)| == |keys|
  {
    hide InsertAll, EmptyStore;
    var st := InsertAll(cfg, EmptyStore(cfg), keys, draws, 0).store;
    CountIsMultiplicity(keys, x);
    CountIsMultiplicity(keys, -1);
    SuccessHoldsKeys(cfg, keys, draws, 0, Is(x));
    SuccessHoldsKeys(cfg, keys, draws, 0, Is(-1));
    SuccessHoldsKeys(cfg, keys, draws, 0, Any());
    assert -1 !in keys;
    if x != -1 {
      FlatSize(Held(st, Is(x)), Holders(matches, x));
    }
    assert forall i :: 0 <= i < |matches| && st.used[0][i] && st.tables[0][i].first == -1 ==>
        (0, i) in Held(st, Is(-1));
    FlatSize(Held(st, Any()), UsedBuckets(matches));
  }

  lemma {:induction false} HitsSome(func: HashFn, rands: seq<int>, b: nat, x: int, p: nat, n: nat)
    requires b > 0 && n <= |rands|
    ensures Hits(func, rands, b, x, p, n) > 0 <==> exists j :: 0 <= j < n && HashThis(func, x, rands[j], b) == p
  {
    if n > 0 {
      HitsSome(func, rands, b, x, p, n - 1);
    }
  }

  /** A stored key lies in the bucket of its slot. */
  lemma StoredKeyInBucket(cfg: Config, st: Store, buckets: seq<seq<int>>, size: nat, p: nat)
    requires cfg.Valid() && |cfg.sizes| == 1 && Shaped(cfg, st) && AtHome(cfg, st)
    requires IsIndex(buckets, size, cfg.sizes[0], cfg.func, cfg.rands)
    requires p < cfg.sizes[0] && st.used[0][p] && 0 <= st.tables[0][p].first < size
    ensures st.tables[0][p].first in buckets[p]
  {
    var k, b := st.tables[0][p].first, cfg.sizes[0];
    assert cfg.IsHome(k, 0, p);
    var j :| 0 <= j < cfg.w && cfg.Position(k, 0, j) == p;
    HitsSome(cfg.func, cfg.rands, b, k, p, cfg.w);
    assert multiset(buckets[p])[k] == Hits(cfg.func, cfg.rands, b, k, p, |cfg.rands|) > 0;
  }

  /** The candidate slots of an index are the buckets that list it. */
  lemma HomeIsBucket(cfg: Config, buckets: seq<seq<int>>, size: nat, key: int, p: nat)
    requires cfg.Valid() && |cfg.sizes| == 1 && IsIndex(buckets, size, cfg.sizes[0], cfg.func, cfg.rands)
    requires 0 <= key < size && p < cfg.sizes[0]
    ensures cfg.IsHome(key, 0, p) <==> key in buckets[p]
  {
    var b := cfg.sizes[0];
    HitsSome(cfg.func, cfg.rands, b, key, p, cfg.w);
    assert multiset(buckets[p])[key] == Hits(cfg.func, cfg.rands, b, key, p, |cfg.rands|);
    assert forall j :: 0 <= j < cfg.w ==> cfg.Position(key, 0, j) == HashThis(cfg.func, key, cfg.rands[j], b);
  }

  /** Every key has a bucket of its own that lists it. */
  ghost predicate Matching(buckets: seq<seq<int>>, keys: seq<int>, slots: seq<nat>) {
    && |slots| == |keys|
    && (forall i :: 0 <= i < |keys| ==> slots[i] < |buckets| && keys[i] in buckets[slots[i]])
    && (forall i, j :: 0 <= i < j < |slots| ==> slots[i] != slots[j])
  }

  lemma RepresentsIsMatching(cfg: Config, buckets: seq<seq<int>>, size: nat, keys: seq<int>, slots: seq<nat>)
    requires cfg.Valid() && |cfg.sizes| == 1 && IsIndex(buckets, size, cfg.sizes[0], cfg.func, cfg.rands)
    requires forall i :: 0 <= i < |keys| ==> 0 <= keys[i] < size
    ensures Represents(cfg, keys, slots) <==> Matching(buckets, keys, slots)
  {
    if |slots| == |keys| {
      forall i | 0 <= i < |keys| && slots[i] < cfg.sizes[0]
        ensures cfg.IsHome(keys[i], 0, slots[i]) <==> keys[i] in buckets[slots[i]]
      {
        HomeIsBucket(cfg, buckets, size, keys[i], slots[i]);
      }
    }
  }

  /** An assignment is found under some choice sequence if and only if the
      indices can be matched with different buckets that list them. */
  lemma SomeAssignmentExists(cfg: Config, buckets: seq<seq<int>>, size: nat, keys: seq<int>)
    requires cfg.Valid() && |cfg.sizes| == 1 && IsIndex(buckets, size, cfg.sizes[0], cfg.func, cfg.rands)
    requires forall i :: 0 <= i < |keys| ==> 0 <= keys[i] < size
    ensures (exists draws: nat -> nat :: InsertAll(cfg, EmptyStore(cfg), keys, draws, 0).Success?)
       <==> exists slots :: Matching(buckets, keys, slots)
  {
    hide InsertAll, EmptyStore, Matching, Represents;
    SomeRunSucceeds(cfg, keys);
    forall slots: seq<nat>
      ensures Represents(cfg, keys, slots) <==> Matching(buckets, keys, slots)
    {
      RepresentsIsMatching(cfg, buckets, size, keys, slots);
    }
  }

  /** Every stored value is an index that was given, and its slot's bucket has it. */
  lemma StoredKeysAreIndices(cfg: Config, keys: seq<int>, draws: nat -> nat, buckets: seq<seq<int>>, size: nat, p: nat)
    requires cfg.Valid() && |cfg.sizes| == 1 && Shaped(cfg, EmptyStore(cfg))
    requires InsertAll(cfg, EmptyStore(cfg), keys, draws, 0).Success?
    requires IsIndex(buckets, size, cfg.sizes[0], cfg.func, cfg.rands)
    requires forall i :: 0 <= i < |keys| ==> 0 <= keys[i] < size
    requires p < cfg.sizes[0] && InsertAll(cfg, EmptyStore(cfg), keys, draws, 0).store.used[0][p]
    ensures var v := InsertAll(cfg, EmptyStore(cfg), keys, draws, 0).store.tables[0][p].first;
      0 <= v < size && v in keys && v in buckets[p]
  {
    hide InsertAll, EmptyStore;
    var st := InsertAll(cfg, EmptyStore(cfg), keys, draws, 0).store;
    var v := st.tables[0][p].first;
    SuccessHoldsKeys(cfg, keys, draws, 0, Is(v));
    CountIsMultiplicity(keys, v);
    assert (0, p) in Held(st, Is(v));
    assert v in multiset(keys);
    EmptyHoldsNothing(cfg, Is(v));
    InsertAllKeepsHomes(cfg, EmptyStore(cfg), keys, draws, 0);
    StoredKeyInBucket(cfg, st, buckets, size, p);
  }

  /** Runs the cuckoo insertion on one table with a cell per bucket.  It fails
      exactly when the insertion does; otherwise every matched bucket points at
      the first occurrence of its index, and each index is matched as often as
      it was given. */
  method CreateAssignment(w: nat, b: nat, maxLoop: nat, t: nat, indices: seq<int>, func: HashFn,
                          allBuckets: seq<seq<int>>, rands: seq<int>, draws: nat -> nat,
                          ghost size: nat, matches: array<Match>)
    returns (succ: int, evictions: int)
    requires w >= 1 && |rands| == w && b >= 1 && maxLoop >= 1 && t <= |indices| && matches.Length == b
    requires IsIndex(allBuckets, size, b, func, rands)
    requires forall i :: 0 <= i < t ==> 0 <= indices[i] < size
    modifies matches
    ensures var cfg := Config(w, [b], rands, maxLoop, func);
            var r := InsertAll(cfg, EmptyStore(cfg), indices[..t], draws, 0);
      && succ == (if r.Success? then 1 else -1)
      && evictions == (if r.Success? then r.evictions else -1)
    ensures succ == -1 ==> matches[..] == old(matches[..])
    ensures succ == 1 ==> AllPointInto(matches[..], allBuckets)
    ensures succ == 1 ==> forall x :: x != -1 ==> |Holders(matches[..], x)| == multiset(indices[..t])[x]
    ensures succ == 1 ==> |UsedBuckets(matches[..])| == t
  {
    hide InsertAll, EmptyStore, Held;
    var cfg := Config(w, [b], rands, maxLoop, func);
    var c := new CuckooHashing(cfg);
    EmptyHoldsNothing(cfg, Any());
    evictions := c.Cuckoo(indices, t, draws);
    if evictions == -1 {
      return -1, evictions;
    }
    ghost var st := c.State();
    var table, usage := c.tables[0], c.tableUsage[0];
    for i := 0 to b
      invariant forall k :: 0 <= k < i ==>
        && PointsInto(matches[k], k, allBuckets[k])
        && matches[k].val == if st.used[0][k] then st.tables[0][k].first else -1
    {
      if !usage[i] {
        matches[i] := Match(-1, i, -1);
      } else {
        var val := table[i].first;
        StoredKeysAreIndices(cfg, indices[..t], draws, allBuckets, size, i);
        var lower := LowerBound(allBuckets[i], val);
        matches[i] := Match(val, i, lower);
      }
    }
    forall x ensures x != -1 ==> |Holders(matches[..], x)| == multiset(indices[..t])[x] {
      MatchesAreIndices(cfg, indices[..t], draws, matches[..], x);
    }
    MatchesAreIndices(cfg, indices[..t], draws, matches[..], 0);
    succ := 1;
  }
}
