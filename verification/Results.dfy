/** From the parties' block vectors to vectors of the caller's type: unpacking
    once at the end, or unpacking every bucket entry and XORing the numbers. */
module Results {
  import opened Blocks
  import opened DpfWithBeta
  import opened Assembly
  import opened Packing
  import opened Buckets
  import opened BetaRouting
  import opened Counting
  import opened Mpfss

  /** Number x after the first n entries of a row were added to acc. */
  function AddRowNum(acc: nat, row: seq<int>, s: Share, x: int, n: nat, width: nat): nat
    requires Fits(row, s) && n <= |row|
  {
    if n == 0 then acc
    else
      var prev := AddRowNum(acc, row, s, x, n - 1, width);
      if row[n - 1] == x then XorNum(prev, Unpacked(0, s.values[n - 1], width), width) else prev
  }

  ghost function AddRowsNum(rows: seq<seq<int>>, shares: seq<Share>, x: int, m: nat, width: nat): nat
    requires AllFit(rows, shares) && m <= |rows|
  {
    if m == 0 then 0
    else AddRowNum(AddRowsNum(rows, shares, x, m - 1, width), rows[m - 1], shares[m - 1], x, |rows[m - 1]|, width)
  }

  /** The loops of the new pipeline: unpack every entry, then XOR; bits are
      XORed as they are. */
  method PrepareResultsNew(size: nat, rows: seq<seq<int>>, shares: seq<Share>, width: nat)
    returns (values: array<nat>, bits: array<bool>)
    requires AllFit(rows, shares)
    requires forall i, j :: 0 <= i < |rows| && 0 <= j < |rows[i]| ==> 0 <= rows[i][j] < size
    ensures fresh(values) && fresh(bits) && values.Length == bits.Length == size
    ensures forall x :: 0 <= x < size ==> values[x] == AddRowsNum(rows, shares, x, |rows|, width)
    ensures forall x :: 0 <= x < size ==> bits[x] == AddRows(NOTHING, rows, shares, x, |rows|).bit
  {
    hide Shifted, Unpacked, XorNum, Xor;
    values, bits := new nat[size](_ => 0), new bool[size](_ => false);
    for i := 0 to |rows|
      invariant forall x :: 0 <= x < size ==> values[x] == AddRowsNum(rows, shares, x, i, width)
      invariant forall x :: 0 <= x < size ==> bits[x] == AddRows(NOTHING, rows, shares, x, i).bit
    {
      var bucket, s := rows[i], shares[i];
      assert Fits(bucket, s);
      ghost var before := values[..];
      for j := 0 to |bucket|
        invariant forall x :: 0 <= x < size ==> values[x] == AddRowNum(before[x], bucket, s, x, j, width)
        invariant forall x :: 0 <= x < size ==>
          bits[x] == AddRow(AddRows(NOTHING, rows, shares, x, i), bucket, s, x, j).bit
      {
        var position := bucket[j];
        bits[position] := bits[position] != s.bits[j];
        var value := UnpackEntry(s.values[j], 0, width);
        values[position] := XorNum(values[position], value, width);
      }
    }
  }

  /** value = (value << 8) | byte over the last bytes of a block. */
  method UnpackEntry(block: Block, init: nat, width: nat) returns (value: nat)
    ensures value == Unpacked(init, block, width)
  {
    value := init;
    var bytes := block[BLOCK_SIZE - Limit(width)..];
    for ii := 0 to |bytes|
      invariant value == Shifted(init, bytes[..ii], width)
    {
      assert bytes[..ii + 1][..ii] == bytes[..ii];
      value := (value * 256 + ToNat(bytes[ii])) % Pow256(width);
    }
    assert bytes[..|bytes|] == bytes;
  }

  /** The loop of the old pipeline: unpack the assembled vector.  stale holds
      what the uninitialised variable happens to contain at each position. */
  method PrepareResults(out: Share, width: nat, stale: nat -> nat) returns (values: array<nat>, bits: array<bool>)
    requires |out.bits| == |out.values|
    ensures fresh(values) && values.Length == |out.values|
    ensures forall x :: 0 <= x < |out.values| ==> values[x] == Unpacked(stale(x), out.values[x], width)
    ensures fresh(bits) && bits[..] == out.bits
  {
    hide Unpacked;
    values, bits := new nat[|out.values|], new bool[|out.values|];
    for i := 0 to |out.values|
      invariant forall x :: 0 <= x < i ==> values[x] == Unpacked(stale(x), out.values[x], width)
      invariant bits[..i] == out.bits[..i]
    {
      values[i] := UnpackEntry(out.values[i], stale(i), width);
      bits[i] := out.bits[i];
    }
  }

  lemma {:induction false} RowUnpacks(acc: Leaf, row: seq<int>, s: Share, x: int, n: nat, width: nat)
    requires Fits(row, s) && n <= |row| && width <= BLOCK_SIZE
    ensures AddRowNum(Unpacked(0, acc.value, width), row, s, x, n, width)
         == Unpacked(0, AddRow(acc, row, s, x, n).value, width)
  {
    hide Unpacked, XorNum, Xor;
    if n > 0 {
      RowUnpacks(acc, row, s, x, n - 1, width);
      UnpackXor(AddRow(acc, row, s, x, n - 1).value, s.values[n - 1], width, 0);
    }
  }

  /** Unpack-then-XOR equals XOR-then-unpack, whatever the stale contents were,
      for every type of at most sixteen bytes. */
  lemma {:induction false} BothPipelinesAgree(rows: seq<seq<int>>, shares: seq<Share>, x: int, m: nat, width: nat,
                                              stale: nat)
    requires AllFit(rows, shares) && m <= |rows| && width <= BLOCK_SIZE && stale < Pow256(width)
    ensures AddRowsNum(rows, shares, x, m, width)
         == Unpacked(stale, AddRows(NOTHING, rows, shares, x, m).value, width)
  {
    hide AddRow, AddRowNum, Unpacked, Pow256;
    var block := AddRows(NOTHING, rows, shares, x, m).value;
    UnpackForgetsInit(stale, block, width);
    UnpackForgetsInit(0, block, width);
    if m == 0 {
      ZeroUnpacks(width);
    } else {
      BothPipelinesAgree(rows, shares, x, m - 1, width, 0);
      RowUnpacks(AddRows(NOTHING, rows, shares, x, m - 1), rows[m - 1], shares[m - 1], x, |rows[m - 1]|, width);
    }
  }

  lemma ZeroUnpacks(width: nat)
    requires width <= BLOCK_SIZE
    ensures Unpacked(0, ZERO, width) == 0
  {
    UnpackForgetsInit(0, ZERO, width);
    ZeroNum(ZERO[BLOCK_SIZE - width..]);
  }

  lemma {:induction false} ZeroNum(bytes: seq<bv8>)
    requires forall i :: 0 <= i < |bytes| ==> bytes[i] == 0
    ensures Num(bytes) == 0
  {
    if bytes != [] {
      ZeroNum(bytes[..|bytes| - 1]);
      ByteRoundTrip(0);
      NatRoundTrip(0);
    }
  }

  function PackAll(values: seq<nat>, width: nat): seq<Block> {
    seq(|values|, i requires 0 <= i < |values| => Packed(values[i], width))
  }

  /** Two numbers combine to the callers' values of the rank of x, or to zero. */
  ghost predicate NumberAt(a: nat, b: nat, indices: set<int>, yA: seq<nat>, yB: seq<nat>, width: nat, x: int) {
    var k := Below(indices, x);
    if x in indices then k < |yA| && k < |yB| && XorNum(a, b, width) == XorNum(yA[k], yB[k], width)
    else XorNum(a, b, width) == 0
  }

  /** In the caller's type: what the parties put in for the k-th smallest index
      is what their outputs combine to at that index; elsewhere they combine to
      zero. */
  lemma ResultsShareFunction(a: Share, b: Share, size: nat, indices: set<int>, yA: seq<nat>, yB: seq<nat>,
                             width: nat, staleA: nat, staleB: nat, x: nat)
    requires width <= BLOCK_SIZE && staleA < Pow256(width) && staleB < Pow256(width)
    requires |yA| == |yB| && forall k :: 0 <= k < |yA| ==> yA[k] < Pow256(width) && yB[k] < Pow256(width)
    requires SharesValues(a, b, size, indices, PackAll(yA, width), PackAll(yB, width)) && x < size
    ensures NumberAt(Unpacked(staleA, a.values[x], width), Unpacked(staleB, b.values[x], width),
                     indices, yA, yB, width, x)
  {
    hide Unpacked, XorNum, Xor, Packed, Below, Pow256;
    UnpackForgetsInit(staleA, a.values[x], width);
    UnpackForgetsInit(staleB, b.values[x], width);
    UnpackForgetsInit(0, a.values[x], width);
    UnpackForgetsInit(0, b.values[x], width);
    UnpackXor(a.values[x], b.values[x], width, 0);
    if x in indices {
      var k := Below(indices, x);
      PackUnpack(yA[k], width, 0);
      PackUnpack(yB[k], width, 0);
      UnpackXor(Packed(yA[k], width), Packed(yB[k], width), width, 0);
    } else {
      ZeroUnpacks(width);
    }
  }

  // ---- The new pipeline from the caller's values to the caller's results ----

  /** this_beta: the low bytes of the value, big-endian, at the end of a block. */
  method PackEntry(value: nat, width: nat) returns (block: Block)
    ensures block == Packed(value, width)
  {
    hide ByteAt;
    var bytes := new bv8[BLOCK_SIZE](_ => ToByte(0));
    for j := 0 to Limit(width)
      invariant forall i :: 0 <= i < BLOCK_SIZE ==>
        bytes[i] == if i >= BLOCK_SIZE - j then ToByte(ByteAt(value, BLOCK_SIZE - 1 - i)) else ToByte(0)
    {
      bytes[BLOCK_SIZE - 1 - j] := ToByte(ByteAt(value, j));
    }
    block := bytes[..];
  }

  method PackEntries(values: seq<nat>, width: nat) returns (blocks: seq<Block>)
    ensures blocks == PackAll(values, width)
  {
    hide Packed;
    blocks := [];
    for i := 0 to |values|
      invariant |blocks| == i && forall k :: 0 <= k < i ==> blocks[k] == Packed(values[k], width)
    {
      var block := PackEntry(values[i], width);
      blocks := blocks + [block];
    }
  }

  lemma AssignmentBounds(matches: seq<Match>, buckets: seq<seq<int>>, keys: seq<int>)
    requires IsAssignment(matches, buckets, keys)
    ensures |matches| == |buckets|
    ensures forall i :: 0 <= i < |matches| ==> -1 <= matches[i].indexInBucket < |buckets[i]|
  {
  }

  /** One protocol run per bucket, in any order. */
  method RunBuckets(t: nat, matches: seq<Match>, buckets: seq<seq<int>>, shareA: seq<Block>, shareB: seq<Block>,
                    cprg: bool, coins: nat -> RunCoins, stales: nat -> Stale, ghost keys: seq<int>)
    returns (dpfA: array<Share>, dpfB: array<Share>)
    requires IsAssignment(matches, buckets, keys) && DistinctInts(keys) && |keys| == t
    requires |shareA| == |shareB| == t && |matches| == |buckets|
    requires forall p :: 0 <= p < |buckets| ==> |buckets[p]| >= 2
    ensures fresh(dpfA) && fresh(dpfB) && dpfA.Length == dpfB.Length == |buckets|
    ensures forall i :: 0 <= i < |buckets| ==>
      PointRow(buckets[i], dpfA[i], dpfB[i], matches[i].indexInBucket, Beta(Values(matches), shareA, shareB, i))
  {
    hide PointRow, IsAssignment, DistinctInts, Beta;
    var b := |buckets|;
    dpfA, dpfB := new Share[b](_ => Share([], [])), new Share[b](_ => Share([], []));
    var todo := UpTo(b);
    while todo != {}
      invariant todo <= UpTo(b)
      invariant forall i :: 0 <= i < b && i !in todo ==>
        PointRow(buckets[i], dpfA[i], dpfB[i], matches[i].indexInBucket, Beta(Values(matches), shareA, shareB, i))
    {
      var i :| i in todo;
      var a, b' := MpfssSingleBucket(t, matches, buckets, i, shareA, shareB, cprg, coins(i), stales(i), keys);
      dpfA[i], dpfB[i] := a, b';
      todo := todo - {i};
    }
  }

  /** What both parties' loops leave at one position. */
  lemma NumbersAt(buckets: seq<seq<int>>, dpfA: seq<Share>, dpfB: seq<Share>, outA: Share, outB: Share, size: nat,
                  indices: set<int>, yA: seq<nat>, yB: seq<nat>, width: nat, x: nat)
    requires AllFit(buckets, dpfA) && AllFit(buckets, dpfB) && width <= BLOCK_SIZE && x < size
    requires outA == Assembled(size, buckets, dpfA) && outB == Assembled(size, buckets, dpfB)
    requires |yA| == |yB| && forall k :: 0 <= k < |yA| ==> yA[k] < Pow256(width) && yB[k] < Pow256(width)
    requires SharesFunction(outA, outB, size, indices, PackAll(yA, width), PackAll(yB, width))
    ensures NumberAt(AddRowsNum(buckets, dpfA, x, |buckets|, width), AddRowsNum(buckets, dpfB, x, |buckets|, width),
                     indices, yA, yB, width, x)
    ensures AddRows(NOTHING, buckets, dpfA, x, |buckets|).bit != AddRows(NOTHING, buckets, dpfB, x, |buckets|).bit
       <==> x in indices
  {
    hide Pow256, AddRows, AddRowsNum, NumberAt, SharesValues, AllFit, Unpacked, PackAll;
    assert At(outA.bits, outA.values, x) == AddRows(NOTHING, buckets, dpfA, x, |buckets|);
    assert At(outB.bits, outB.values, x) == AddRows(NOTHING, buckets, dpfB, x, |buckets|);
    BothPipelinesAgree(buckets, dpfA, x, |buckets|, width, 0);
    BothPipelinesAgree(buckets, dpfB, x, |buckets|, width, 0);
    ResultsShareFunction(outA, outB, size, indices, yA, yB, width, 0, 0, x);
  }

  /** The new pipeline: the parties' numbers combine to the caller's values at
      the indices and to zero elsewhere, their bits to the indicator of the
      indices. */
  method RunMpfssNew(size: nat, t: nat, matches: seq<Match>, buckets: seq<seq<int>>, yA: seq<nat>, yB: seq<nat>,
                     width: nat, cprg: bool, coins: nat -> RunCoins, stales: nat -> Stale, ghost keys: seq<int>)
    returns (valuesA: array<nat>, bitsA: array<bool>, valuesB: array<nat>, bitsB: array<bool>)
    requires IsAssignment(matches, buckets, keys) && DistinctInts(keys) && |keys| == t == |yA| == |yB|
    requires forall i :: 0 <= i < t ==> 0 <= keys[i] < size
    requires width <= BLOCK_SIZE && forall k :: 0 <= k < t ==> yA[k] < Pow256(width) && yB[k] < Pow256(width)
    requires forall p :: 0 <= p < |buckets| ==> |buckets[p]| >= 2
    requires forall p, j :: 0 <= p < |buckets| && 0 <= j < |buckets[p]| ==> 0 <= buckets[p][j] < size
    ensures valuesA.Length == valuesB.Length == bitsA.Length == bitsB.Length == size
    ensures forall x :: 0 <= x < size ==> NumberAt(valuesA[x], valuesB[x], IndexSet(keys), yA, yB, width, x)
    ensures forall x :: 0 <= x < size ==> (bitsA[x] != bitsB[x] <==> x in IndexSet(keys))
  {
    hide PointRow, IsAssignment, DistinctInts, Pow256, AddRows, AddRowsNum, Beta, PackAll, SharesFunction, NumberAt;
    var shareA := PackEntries(yA, width);
    var shareB := PackEntries(yB, width);
    PackedLengths(yA, yB, width);
    AssignmentBounds(matches, buckets, keys);
    var b := |buckets|;
    var dpfA, dpfB := RunBuckets(t, matches, buckets, shareA, shareB, cprg, coins, stales, keys);
    ghost var betas := seq(b, i requires 0 <= i < |Values(matches)| => Beta(Values(matches), shareA, shareB, i));
    RowsFit(buckets, dpfA[..], dpfB[..], Indices(matches), betas);
    valuesA, bitsA := PrepareResultsNew(size, buckets, dpfA[..], width);
    valuesB, bitsB := PrepareResultsNew(size, buckets, dpfB[..], width);
    ghost var outA, outB := Assembled(size, buckets, dpfA[..]), Assembled(size, buckets, dpfB[..]);
    BatchShares(matches, buckets, keys, dpfA[..], dpfB[..], betas, outA, outB, size, shareA, shareB);
    forall x | 0 <= x < size
      ensures NumberAt(valuesA[x], valuesB[x], IndexSet(keys), yA, yB, width, x)
      ensures bitsA[x] != bitsB[x] <==> x in IndexSet(keys)
    {
      NumbersAt(buckets, dpfA[..], dpfB[..], outA, outB, size, IndexSet(keys), yA, yB, width, x);
    }
  }

  lemma PackedLengths(yA: seq<nat>, yB: seq<nat>, width: nat)
    ensures |PackAll(yA, width)| == |yA| && |PackAll(yB, width)| == |yB|
  {
  }
}
