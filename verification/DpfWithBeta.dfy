/** A distributed point function with a chosen value: either variant, the value
    correction, and the repair of the control bits for a dummy index. */
module DpfWithBeta {
  import opened Blocks
  import opened TreeShape
  import opened DpfTree
  import opened DpfRuns
  import FssCprg
  import FssOnline

  /** The largest size_t; the index -1 of an unused bucket becomes this value. */
  const SIZE_MAX: nat := Pow2(64) - 1

  function ToSizeT(index: int): nat
    requires -1 <= index
  {
    if index == -1 then SIZE_MAX else index
  }

  /** The index of an unused bucket has all bits set. */
  lemma DummyIsAllOnes()
    ensures ToSizeT(-1) == 0xFFFF_FFFF_FFFF_FFFF
  {
    hide Pow2;
    Pow2Sixteen(0);
    Pow2Sixteen(16);
    Pow2Sixteen(32);
    Pow2Sixteen(48);
    Pow2Zero();
  }

  lemma Pow2Zero()
    ensures Pow2(0) == 1
  {
  }

  lemma Pow2Sixteen(n: nat)
    ensures Pow2(n + 16) == 0x1_0000 * Pow2(n)
  {
    hide Pow2;
    Pow2Nibble(n);
    Pow2Nibble(n + 4);
    Pow2Nibble(n + 8);
    Pow2Nibble(n + 12);
  }

  lemma Pow2Nibble(n: nat)
    ensures Pow2(n + 4) == 0x10 * Pow2(n)
  {
    assert Pow2(n + 4) == 2 * Pow2(n + 3);
    assert Pow2(n + 3) == 2 * Pow2(n + 2);
    assert Pow2(n + 2) == 2 * Pow2(n + 1);
  }

  /** The leaf both variants steer towards. */
  function Target(size: nat, index: int, cprg: bool): nat
    requires size >= 2 && -1 <= index
  {
    if cprg then CprgLeaf(size, ToSizeT(index)) else ToSizeT(index)
  }

  /** Everything random in one run: keys, root seeds, both parties' top bytes. */
  datatype Coins = Coins(prg: Prg, seedA: Block, seedB: Block, topA: seq<Block>, topB: seq<Block>)

  type RunCoins = c: Coins | |c.topA| == 3 && |c.topB| == 3
    witness Coins(Prg(x => x, x => x), ZERO, ZERO, [ZERO, ZERO, ZERO], [ZERO, ZERO, ZERO])

  /** One party's output: a bit and a block per position. */
  datatype Share = Share(bits: seq<bool>, values: seq<Block>)

  lemma TargetInRange(size: nat, index: int, cprg: bool)
    requires size >= 2 && 0 <= index < size
    ensures Target(size, index, cprg) == index
  {
    EndLevelBounds(size);
    DivideUnique(index, Pow2(EndLevel(size)), 0, index);
  }

  lemma {:induction false} OnesShift(m: nat, d: nat)
    requires d <= m
    ensures ShiftRight(Pow2(m) - 1, d) == Pow2(m - d) - 1
  {
    if d > 0 {
      OnesShift(m, d - 1);
    }
  }

  lemma OddBelowEven(half: nat)
    requires half >= 1
    ensures (2 * half - 1) % 2 == 1
  {
  }

  lemma Pow2Doubles(n: nat)
    requires n > 0
    ensures Pow2(n) == 2 * Pow2(n - 1)
  {
  }

  /** With all bits set every step goes right. */
  lemma OnesStepRight(m: nat, e: nat, k: nat)
    requires k <= e < m
    ensures StepsRight(Pow2(m) - 1, e, k)
  {
    hide Pow2, ShiftRight;
    OnesShift(m, e - k);
    Pow2Doubles(m - (e - k));
    OddBelowEven(Pow2(m - (e - k) - 1));
  }

  lemma {:induction false} OnesWalk(m: nat, e: nat, k: nat)
    requires k <= e < m
    ensures WalkPosition(Pow2(m) - 1, e, k) == Pow2(k) - 1
    decreases k
  {
    hide StepsRight;
    if k > 0 {
      OnesWalk(m, e, k - 1);
      OnesStepRight(m, e, k);
    }
  }

  /** A dummy index walks to the last leaf of a full tree, which exists exactly
      when the size is a power of two; the online variant has no active path. */
  lemma DummyTarget(size: nat, cprg: bool)
    requires 2 <= size < Pow2(63)
    ensures Target(size, -1, cprg) < size <==> cprg && size == Pow2(EndLevel(size))
    ensures Target(size, -1, cprg) < size ==> Target(size, -1, cprg) == size - 1
  {
    hide Target, CprgLeaf;
    EndLevelBounds(size);
    Pow2Grows(63, 64);
    var e := EndLevel(size);
    if e > 63 {
      Pow2Grows(63, e - 1);
      assert false;
    }
    DummyLeaf(size);
  }

  lemma DummyLeaf(size: nat)
    requires 2 <= size && EndLevel(size) <= 63
    ensures Target(size, -1, true) == Pow2(EndLevel(size)) - 1
    ensures Target(size, -1, false) == SIZE_MAX
  {
    var e := EndLevel(size);
    OnesWalk(64, e, e);
    WalkEndsAtLowBits(SIZE_MAX, e);
  }

  lemma {:induction false} Pow2Grows(m: nat, n: nat)
    requires m <= n
    ensures Pow2(m) <= Pow2(n)
    ensures m < n ==> 2 * Pow2(m) <= Pow2(n)
    decreases n - m
  {
    if m < n {
      Pow2Grows(m, n - 1);
    }
  }

  // ---- One run ----

  lemma TopBlocksBound(size: nat)
    requires size >= 2
    ensures Pow2(FssOnline.StartLevel(size)) + 1 <= 3
  {
    assert Pow2(1) == 2;
  }

  /** Both parties' leaves, and the block difference both learn. */
  function RawPair(coins: RunCoins, size: nat, index: int, cprg: bool): (p: Pair)
    requires size >= 2 && -1 <= index
    ensures IsLevel(p.a, size) && IsLevel(p.b, size)
  {
    if cprg then
      CprgLevels(coins.prg, FssCprg.RootSeed(coins.seedA, 1), FssCprg.RootSeed(coins.seedB, 2), size, ToSizeT(index),
                 EndLevel(size))
    else
      TopBlocksBound(size);
      var n := Pow2(FssOnline.StartLevel(size)) + 1;
      FssOnline.OnlinePair(coins.prg, size, ToSizeT(index), FssOnline.Combine(coins.topA[..n], coins.topB[..n]))
  }

  function RawDelta(coins: RunCoins, size: nat, index: int, cprg: bool): Block
    requires size >= 2 && -1 <= index
  {
    if cprg then
      var p := RawPair(coins, size, index, cprg);
      Xor(AccAll(p.a.blocks), AccAll(p.b.blocks))
    else
      TopBlocksBound(size);
      var n := Pow2(FssOnline.StartLevel(size)) + 1;
      FssOnline.OnlineDelta(coins.prg, size, ToSizeT(index), FssOnline.Combine(coins.topA[..n], coins.topB[..n]))
  }

  /** Both parties' raw outputs, and the block difference at the target. */
  method RunVariant(coins: RunCoins, size: nat, index: int, cprg: bool)
    returns (outA: array<Block>, bitsA: array<bool>, outB: array<Block>, bitsB: array<bool>, delta: Block)
    requires size >= 2 && -1 <= index
    ensures fresh(outA) && fresh(bitsA) && fresh(outB) && fresh(bitsB)
    ensures outA != outB && bitsA != bitsB
    ensures outA.Length == bitsA.Length == outB.Length == bitsB.Length == size
    ensures var target := Target(size, index, cprg);
      && OnPath(Pair(Level(outA[..], bitsA[..]), Level(outB[..], bitsB[..])), target)
      && (target < size ==> delta == Xor(outA[target], outB[target]))
    ensures Pair(Level(outA[..], bitsA[..]), Level(outB[..], bitsB[..])) == RawPair(coins, size, index, cprg)
    ensures delta == RawDelta(coins, size, index, cprg)
  {
    hide Xor, EndLevel, Pow2, OnPath, CprgLevels, AccAll;
    var wide := ToSizeT(index);
    if cprg {
      outA, bitsA := new Block[size](_ => ZERO), new bool[size];
      outB, bitsB := new Block[size](_ => ZERO), new bool[size];
      var a := new FssCprg.FssCprgOffline(size, coins.prg, outA, bitsA);
      var b := new FssCprg.FssCprgOffline(size, coins.prg, outB, bitsB);
      delta := FssCprg.TraverseLevels(a, b, coins.seedA, coins.seedB, wide);
      FssCprg.RootSeedsOpposite(coins.seedA, coins.seedB);
      CprgResult(coins.prg, FssCprg.RootSeed(coins.seedA, 1), FssCprg.RootSeed(coins.seedB, 2), size, wide);
    } else {
      var n := TopBlocks(size);
      outA, bitsA, outB, bitsB, delta :=
        FssOnline.GetBlockVector(coins.prg, size, wide, coins.topA[..n], coins.topB[..n]);
    }
  }

  method TopBlocks(size: nat) returns (n: nat)
    requires size >= 2
    ensures n == Pow2(FssOnline.StartLevel(size)) + 1 <= 3
  {
    TopBlocksBound(size);
    n := Pow2(FssOnline.StartLevel(size)) + 1;
  }

  /** The revealed mask is added wherever the control bit is set. */
  method AddMask(out: array<Block>, bits: array<bool>, mask: Block)
    requires out.Length == bits.Length
    modifies out
    ensures forall i :: 0 <= i < out.Length ==> out[i] == if bits[i] then Xor(old(out[i]), mask) else old(out[i])
  {
    hide Xor;
    for ii := 0 to out.Length
      invariant forall i :: 0 <= i < ii ==> out[i] == if bits[i] then Xor(old(out[i]), mask) else old(out[i])
      invariant forall i :: ii <= i < out.Length ==> out[i] == old(out[i])
    {
      XorZero(out[ii]);
      out[ii] := Xor(out[ii], if bits[ii] then mask else ZERO);
    }
  }

  /** How often the two bit vectors differ, and where they differ last. */
  method FindDifference(bitsA: seq<bool>, bitsB: seq<bool>) returns (sum: nat, last: int)
    requires |bitsA| == |bitsB|
    ensures sum == 0 <==> bitsA == bitsB
    ensures sum == 0 <==> last == -1
    ensures last != -1 ==> 0 <= last < |bitsA| && bitsA[last] != bitsB[last]
    ensures forall i :: last < i < |bitsA| && 0 <= i ==> bitsA[i] == bitsB[i]
  {
    sum, last := 0, -1;
    for i := 0 to |bitsA|
      invariant -1 <= last < i
      invariant sum == 0 <==> last == -1
      invariant last != -1 ==> bitsA[last] != bitsB[last]
      invariant forall k :: last < k < i && 0 <= k ==> bitsA[k] == bitsB[k]
    {
      if bitsA[i] != bitsB[i] {
        sum := sum + 1;
        last := i;
      }
    }
  }

  /** Masking with delta ^ beta turns the difference delta at the target into
      beta and leaves equal positions equal. */
  lemma MaskGivesBeta(a: Block, b: Block, bitA: bool, bitB: bool, beta: Block)
    ensures var mask := Xor(Xor(a, b), beta);
      && (bitA && !bitB ==> Xor(Xor(a, mask), b) == beta)
      && (!bitA && bitB ==> Xor(a, Xor(b, mask)) == beta)
  {
  }

  /** The two shares combine to a bit at the index and beta at the target, and
      to nothing elsewhere.  A dummy index combines to no bit at all. */
  ghost predicate SharesPoint(a: Share, b: Share, size: nat, index: int, target: nat, beta: Block) {
    && |a.bits| == |b.bits| == |a.values| == |b.values| == size
    && (forall i :: 0 <= i < size ==> (a.bits[i] != b.bits[i] <==> index != -1 && i == target))
    && (forall i :: 0 <= i < size ==> Xor(a.values[i], b.values[i]) == if i == target then beta else ZERO)
  }

  lemma CorrectedShares(rawA: Level, rawB: Level, a: Share, b: Share, size: nat, target: nat,
                        delta: Block, beta: Block)
    requires IsLevel(rawA, size) && IsLevel(rawB, size) && OnPath(Pair(rawA, rawB), target)
    requires target < size ==> delta == Xor(rawA.blocks[target], rawB.blocks[target])
    requires |a.bits| == |b.bits| == |a.values| == |b.values| == size
    requires a.bits == rawA.bits && b.bits == rawB.bits
    requires forall i :: 0 <= i < size ==>
      a.values[i] == if rawA.bits[i] then Xor(rawA.blocks[i], Xor(delta, beta)) else rawA.blocks[i]
    requires forall i :: 0 <= i < size ==>
      b.values[i] == if rawB.bits[i] then Xor(rawB.blocks[i], Xor(delta, beta)) else rawB.blocks[i]
    ensures forall i :: 0 <= i < size ==> (a.bits[i] != b.bits[i] <==> i == target)
    ensures forall i :: 0 <= i < size ==> Xor(a.values[i], b.values[i]) == if i == target then beta else ZERO
  {
    hide Xor;
    forall i | 0 <= i < size
      ensures Xor(a.values[i], b.values[i]) == if i == target then beta else ZERO
    {
      if i == target {
        MaskGivesBeta(rawA.blocks[i], rawB.blocks[i], rawA.bits[i], rawB.bits[i], beta);
      } else {
        XorZero(a.values[i]);
      }
    }
  }

  // ---- The repair, as both parties run it ----

  /** What the second party's copies of the index, the count and the position
      hold: count and position are revealed to the first party only. */
  datatype Stale = Stale(index: int, sum: int, position: int)

  /** The stale copies pass the test of the repair. */
  predicate Misfires(stale: Stale) {
    stale.index == -1 && stale.sum > 0
  }

  /** A flip that the stale copies cause lands inside the vector. */
  predicate FlipFits(stale: Stale, size: nat) {
    Misfires(stale) ==> 0 <= stale.position < size
  }

  function Flip(s: Share, position: nat): Share
    requires position < |s.bits|
  {
    s.(bits := s.bits[position := !s.bits[position]])
  }

  /** The second party's share without the flip its stale copies caused. */
  function Undone(s: Share, stale: Stale): Share
    requires FlipFits(stale, |s.bits|)
  {
    if Misfires(stale) then Flip(s, stale.position) else s
  }

  lemma FlipTwice(s: Share, position: nat)
    requires position < |s.bits|
    ensures Flip(Flip(s, position), position) == s
  {
  }

  lemma FlipBreaksPoint(a: Share, b: Share, position: nat, size: nat, index: int, target: nat, beta: Block)
    requires position < |b.bits| && SharesPoint(a, Flip(b, position), size, index, target, beta)
    ensures !SharesPoint(a, b, size, index, target, beta)
  {
    assert a.bits[position] != Flip(b, position).bits[position] <==> index != -1 && position == target;
  }

  /** Party by party before the repair: the bits are the run's, and the values
      are its leaves with the mask added where the bit is set. */
  ghost predicate IsMasked(a: Share, b: Share, coins: RunCoins, size: nat, index: int, beta: Block, cprg: bool)
    requires size >= 2 && -1 <= index
  {
    var raw, mask := RawPair(coins, size, index, cprg), Xor(RawDelta(coins, size, index, cprg), beta);
    && |a.values| == |b.values| == size && a.bits == raw.a.bits && b.bits == raw.b.bits
    && forall i :: 0 <= i < size ==>
         && a.values[i] == (if raw.a.bits[i] then Xor(raw.a.blocks[i], mask) else raw.a.blocks[i])
         && b.values[i] == (if raw.b.bits[i] then Xor(raw.b.blocks[i], mask) else raw.b.blocks[i])
  }

  /** The same after the first party's repair, which only a dummy index needs. */
  ghost predicate IsRunOf(a: Share, b: Share, coins: RunCoins, size: nat, index: int, beta: Block, cprg: bool)
    requires size >= 2 && -1 <= index
  {
    exists bits :: (index != -1 ==> bits == a.bits) && IsMasked(Share(bits, a.values), b, coins, size, index, beta, cprg)
  }

  /** The bits still combine to the target of a dummy index, too. */
  ghost predicate SharesTarget(a: Share, b: Share, size: nat, target: nat, beta: Block) {
    && |a.bits| == |b.bits| == |a.values| == |b.values| == size
    && forall i :: 0 <= i < size ==>
         && (a.bits[i] != b.bits[i] <==> i == target)
         && Xor(a.values[i], b.values[i]) == if i == target then beta else ZERO
  }

  /** Both parties' runs up to the repair. */
  method MaskedRun(coins: RunCoins, size: nat, index: int, beta: Block, cprg: bool)
    returns (outA: array<Block>, bitsA: array<bool>, outB: array<Block>, bitsB: array<bool>)
    requires size >= 2 && -1 <= index
    ensures fresh(outA) && fresh(bitsA) && fresh(outB) && fresh(bitsB) && bitsA != bitsB
    ensures outA.Length == bitsA.Length == outB.Length == bitsB.Length == size
    ensures SharesTarget(Share(bitsA[..], outA[..]), Share(bitsB[..], outB[..]), size, Target(size, index, cprg), beta)
    ensures IsMasked(Share(bitsA[..], outA[..]), Share(bitsB[..], outB[..]), coins, size, index, beta, cprg)
  {
    hide Xor, EndLevel, Pow2, Target, OnPath, RawPair, RawDelta;
    var delta;
    outA, bitsA, outB, bitsB, delta := RunVariant(coins, size, index, cprg);
    ghost var rawA, rawB := Level(outA[..], bitsA[..]), Level(outB[..], bitsB[..]);
    var mask := Xor(delta, beta);
    AddMask(outA, bitsA, mask);
    AddMask(outB, bitsB, mask);
    CorrectedShares(rawA, rawB, Share(bitsA[..], outA[..]), Share(bitsB[..], outB[..]), size,
                    Target(size, index, cprg), delta, beta);
  }

  /** The repair turns the bits of a dummy index into equal ones. */
  lemma RepairShares(a: Share, b: Share, repaired: Share, size: nat, index: int, target: nat, beta: Block,
                     sum: nat, last: int)
    requires SharesTarget(a, b, size, target, beta)
    requires sum == 0 <==> a.bits == b.bits
    requires sum == 0 <==> last == -1
    requires last != -1 ==> 0 <= last < size && a.bits[last] != b.bits[last]
    requires repaired == if index == -1 && sum > 0 then Flip(a, last) else a
    ensures SharesPoint(repaired, b, size, index, target, beta)
  {
    hide Xor;
  }

  /** Both parties' runs.  Each party's values are its leaves, with the revealed
      mask added where its control bit is set.  The first party's copies are up
      to date, the second party's are stale: the result is right exactly if
      these do not pass the test of the repair, and otherwise it is off by the
      one bit they flip. */
  method DpfWithBeta(coins: RunCoins, size: nat, index: int, beta: Block, cprg: bool, stale: Stale)
    returns (a: Share, b: Share)
    requires size >= 2 && -1 <= index && FlipFits(stale, size)
    ensures |b.bits| == size && SharesPoint(a, Undone(b, stale), size, index, Target(size, index, cprg), beta)
    ensures SharesPoint(a, b, size, index, Target(size, index, cprg), beta) <==> !Misfires(stale)
    ensures IsRunOf(a, Undone(b, stale), coins, size, index, beta, cprg)
  {
    hide Xor, Target, SharesTarget, SharesPoint, IsMasked;
    var outA, bitsA, outB, bitsB := MaskedRun(coins, size, index, beta, cprg);
    a, b := Share(bitsA[..], outA[..]), Share(bitsB[..], outB[..]);
    ghost var target, masked := Target(size, index, cprg), a;
    var sum, last := FindDifference(a.bits, b.bits);
    if index == -1 && sum > 0 {
      bitsA[last] := !bitsA[last];
      a := Share(bitsA[..], outA[..]);
    }
    RepairShares(masked, b, a, size, index, target, beta, sum, last);
    assert Share(masked.bits, a.values) == masked;
    if stale.index == -1 && stale.sum > 0 {
      FlipTwice(b, stale.position);
      bitsB[stale.position] := !bitsB[stale.position];
      b := Share(bitsB[..], outB[..]);
      FlipBreaksPoint(a, b, stale.position, size, index, target, beta);
    }
  }
}
