/** The online variant: one walk down the active path of both parties
    publishes a correction per level; each party expands its own full tree
    from the published corrections only. */
module FssOnline {
  import opened Blocks
  import opened TreeShape
  import opened DpfTree
  import opened DpfRuns
  import opened LevelExpansion

  /** The level of the random top blocks: MIN(1, endLevel - 1). */
  function StartLevel(size: nat): nat
    requires size >= 2
  {
    if EndLevel(size) >= 2 then 1 else 0
  }

  lemma StartLevelBounds(size: nat)
    requires size >= 2
    ensures StartLevel(size) < EndLevel(size)
    ensures Width(size, EndLevel(size), StartLevel(size)) == Pow2(StartLevel(size))
  {
    WidthRoot(size);
  }

  lemma StartLevelOfSize(size: nat)
    requires size >= 2
    ensures StartLevel(size) == if size > 2 then 1 else 0
  {
    EndLevelBounds(size);
    var e := EndLevel(size);
    assert Pow2(1) == 2;
    if e >= 2 {
      Pow2AtLeast(e - 1);
    }
  }

  lemma {:induction false} Pow2AtLeast(n: nat)
    requires n >= 1
    ensures Pow2(n) >= 2
  {
    if n > 1 {
      Pow2AtLeast(n - 1);
    }
  }

  // ---- The walk ----

  class Fss {
    const prg: Prg
    const startLevel: nat
    const endLevel: nat
    var activeA: Block
    var activeB: Block
    const z: array<Block>
    const advice: array<bool>
    var readyCount: nat

    ghost predicate Shaped() {
      && startLevel <= endLevel
      && z.Length == endLevel - startLevel && advice.Length == 2 * (endLevel - startLevel)
    }

    constructor (size: nat, prg: Prg)
      requires size >= 2
      ensures Shaped() && this.prg == prg && startLevel == StartLevel(size) && endLevel == EndLevel(size)
      ensures fresh(z) && fresh(advice) && activeA == activeB == ZERO && readyCount == 0
    {
      this.prg := prg;
      StartLevelBounds(size);
      var slots := EndLevel(size) - StartLevel(size);
      startLevel, endLevel := StartLevel(size), EndLevel(size);
      z := new Block[slots](_ => ZERO);
      advice := new bool[2 * slots];
      activeA, activeB, readyCount := ZERO, ZERO, 0;
    }

    function Slot(j: nat): Correction
      requires j < z.Length && 2 * j + 1 < advice.Length
      reads z, advice
    {
      Correction(z[j], advice[2 * j], advice[2 * j + 1])
    }

    /** One step down.  controlA and controlB are the control bits of the
        nodes the walk stands on. */
    method StepDown(right: bool, j: nat, controlA: bool, controlB: bool) returns (nextA: bool, nextB: bool)
      requires Shaped() && j < z.Length
      modifies this`activeA, this`activeB, this`readyCount, z, advice
      ensures var w := Walk(old(activeA), old(activeB), controlA, controlB);
        && Slot(j) == WalkCorrection(prg, w, right)
        && Walk(activeA, activeB, nextA, nextB) == WalkStep(prg, w, right)
      ensures forall k :: 0 <= k < z.Length && k != j ==> Slot(k) == old(Slot(k))
      ensures readyCount == old(readyCount) + 1
    {
      hide Xor, Lsb;
      var leftA, rightA := prg.left(activeA), prg.right(activeA);
      var leftB, rightB := prg.left(activeB), prg.right(activeB);
      LsbLinear(leftA, leftB);
      LsbLinear(rightA, rightB);
      if !right {
        activeA, activeB := leftA, leftB;
        z[j] := Xor(rightA, rightB);
      } else {
        activeA, activeB := rightA, rightB;
        z[j] := Xor(leftA, leftB);
      }
      advice[2 * j] := ((Lsb(leftA) != Lsb(leftB)) != right) != true;
      advice[2 * j + 1] := (Lsb(rightA) != Lsb(rightB)) != right;
      readyCount := readyCount + 1;
      nextA, nextB := controlA, controlB;
      if !right {
        nextA, nextB := nextA && advice[2 * j], nextB && advice[2 * j];
      } else {
        nextA, nextB := nextA && advice[2 * j + 1], nextB && advice[2 * j + 1];
      }
      nextA, nextB := nextA != Lsb(activeA), nextB != Lsb(activeB);
      if controlA {
        activeA := Xor(activeA, z[j]);
      }
      if controlB {
        activeB := Xor(activeB, z[j]);
      }
    }

    /** The whole walk: every slot holds the correction of its level, and the
        active blocks end as the walk's. */
    method TraverseLevels(index: nat)
      requires Shaped()
      modifies this`activeA, this`activeB, this`readyCount, z, advice
      ensures var top := Walk(old(activeA), old(activeB), Lsb(old(activeA)), Lsb(old(activeB)));
        && (forall j :: 0 <= j < z.Length ==> Slot(j) == Published(prg, top, index, endLevel, startLevel, j))
        && WalkAt(prg, top, index, endLevel, startLevel, endLevel).a == activeA
        && WalkAt(prg, top, index, endLevel, startLevel, endLevel).b == activeB
      ensures readyCount == old(readyCount) + (endLevel - startLevel)
    {
      hide WalkStep, WalkCorrection, StepsRight;
      var controlA, controlB := Lsb(activeA), Lsb(activeB);
      ghost var top := Walk(activeA, activeB, controlA, controlB);
      var ii := startLevel + 1;
      while ii <= endLevel
        invariant startLevel + 1 <= ii <= endLevel + 1
        invariant forall j :: 0 <= j < ii - startLevel - 1 ==>
          Slot(j) == Published(prg, top, index, endLevel, startLevel, j)
        invariant Walk(activeA, activeB, controlA, controlB) == WalkAt(prg, top, index, endLevel, startLevel, ii - 1)
        invariant readyCount == old(readyCount) + (ii - startLevel - 1)
      {
        var right := StepsRight(index, endLevel, ii);
        controlA, controlB := StepDown(right, ii - startLevel - 1, controlA, controlB);
        ii := ii + 1;
      }
    }
  }

  // ---- The full expansion ----

  class FssOffline {
    const prg: Prg
    const size: nat
    const startLevel: nat
    const endLevel: nat
    const z: array<Block>
    const adviceL: array<bool>
    const adviceR: array<bool>
    const levelData: array<Block>
    const levelBits: array<bool>
    var readyCount: nat

    ghost predicate Shaped() {
      && size >= 2 && endLevel == EndLevel(size) && startLevel == StartLevel(size) < endLevel
      && z.Length == adviceL.Length == adviceR.Length == endLevel - startLevel && adviceL != adviceR
      && levelData.Length == Pow2(endLevel) && size <= Pow2(endLevel) && levelBits.Length == size
      && Pow2(startLevel) == Width(size, endLevel, startLevel) <= size
      && z != levelData && adviceL != levelBits && adviceR != levelBits
    }

    constructor (size: nat, prg: Prg)
      requires size >= 2
      ensures Shaped() && this.size == size && this.prg == prg
      ensures fresh(z) && fresh(adviceL) && fresh(adviceR) && fresh(levelData) && fresh(levelBits)
    {
      StartLevelBounds(size);
      EndLevelBounds(size);
      WidthBounds(size, EndLevel(size), StartLevel(size));
      this.size, this.prg := size, prg;
      startLevel, endLevel := StartLevel(size), EndLevel(size);
      z := new Block[EndLevel(size) - StartLevel(size)](_ => ZERO);
      adviceL := new bool[EndLevel(size) - StartLevel(size)];
      adviceR := new bool[EndLevel(size) - StartLevel(size)];
      levelData := new Block[Pow2(EndLevel(size))](_ => ZERO);
      levelBits := new bool[size];
      readyCount := 0;
    }

    function Slots(): (cs: seq<Correction>)
      requires z.Length == adviceL.Length == adviceR.Length
      reads z, adviceL, adviceR
      ensures |cs| == z.Length
    {
      seq(z.Length, j requires 0 <= j < z.Length && z.Length == adviceL.Length == adviceR.Length
                      reads z, adviceL, adviceR
                    => Correction(z[j], adviceL[j], adviceR[j]))
    }

    method Start(blocks: seq<Block>)
      requires Shaped() && |blocks| == Pow2(startLevel)
      modifies this`readyCount, levelData
      ensures levelData[..Pow2(startLevel)] == blocks && readyCount == 0
    {
      for i := 0 to |blocks|
        invariant levelData[..i] == blocks[..i]
      {
        levelData[i] := blocks[i];
      }
      readyCount := 0;
    }

    /** Slot level - startLevel - 1 is written, the others are kept. */
    method PushZ(block: Block, adviceBitL: bool, adviceBitR: bool, level: nat)
      requires Shaped() && startLevel < level <= endLevel
      modifies this`readyCount, z, adviceL, adviceR
      ensures Slots() == old(Slots())[level - startLevel - 1 := Correction(block, adviceBitL, adviceBitR)]
      ensures readyCount == old(readyCount) + 1
    {
      z[level - startLevel - 1] := block;
      adviceL[level - startLevel - 1] := adviceBitL;
      adviceR[level - startLevel - 1] := adviceBitR;
      readyCount := readyCount + 1;
    }

    /** The buffers of a level: lv is corrected in a, its raw children are in b. */
    ghost predicate Holds(a: array<Block>, b: array<Block>, aBits: array<bool>, lv: Level, k: nat)
      requires Shaped()
      reads a, b, aBits
    {
      && startLevel <= k < endLevel
      && var n, m := Width(size, endLevel, k), Width(size, endLevel, k + 1);
      && IsLevel(lv, n) && n == (m + 1) / 2
      && n <= a.Length && m <= b.Length && n <= aBits.Length
      && a[..n] == lv.blocks && aBits[..n] == lv.bits && b[..m] == Children(prg, lv.blocks, m)
    }

    /** The shifted form of the rounded-up quotient gives the width of the next level. */
    lemma NextWidth(k: nat)
      requires Shaped() && startLevel <= k < endLevel
      ensures CeilDiv(size, Pow2(endLevel - k - 1)) == Width(size, endLevel, k + 1)
      ensures Width(size, endLevel, k) == (Width(size, endLevel, k + 1) + 1) / 2
      ensures Width(size, endLevel, k) <= Width(size, endLevel, k + 1) <= size <= Pow2(endLevel)
      ensures k + 1 == endLevel ==> Width(size, endLevel, k + 1) == size
    {
      CeilShiftIsCeilDivision(size, endLevel - k - 1);
      WidthBounds(size, endLevel, k + 1);
    }

    /** The top level is expanded without a correction. */
    method ExpandTop(a: array<Block>, b: array<Block>, aBits: array<bool>, ghost tops: seq<Block>,
                     ghost cs: seq<Correction>)
      returns (m: nat)
      requires Shaped() && a != b
      requires a.Length >= size && b.Length >= size && aBits.Length >= size
      requires |tops| == Pow2(startLevel) && a[..Pow2(startLevel)] == tops
      modifies b, aBits
      ensures m == Width(size, endLevel, startLevel + 1)
      ensures Holds(a, b, aBits, Expanded(prg, tops, size, startLevel, cs, startLevel), startLevel)
      ensures forall i :: 0 <= i < |tops| ==> a[i] == tops[i] && aBits[i] == Lsb(tops[i])
      ensures forall j :: 0 <= j < m ==> b[j] == if j % 2 == 0 then prg.left(tops[j / 2]) else prg.right(tops[j / 2])
    {
      hide Pow2, EndLevel, Lsb, Width, Children;
      m := ExpandTopNodes(a, b, aBits, tops);
      TopHolds(a, b, aBits, tops, cs);
      ChildrenOfParents(prg, tops, m);
    }

    lemma TopHolds(a: array<Block>, b: array<Block>, aBits: array<bool>, tops: seq<Block>, cs: seq<Correction>)
      requires Shaped() && a.Length >= size && b.Length >= size && aBits.Length >= size
      requires |tops| == Pow2(startLevel) && a[..|tops|] == tops
      requires Width(size, endLevel, startLevel + 1) <= 2 * |tops| && Width(size, endLevel, startLevel + 1) <= size
      requires b[..Width(size, endLevel, startLevel + 1)]
            == Children(prg, tops, Width(size, endLevel, startLevel + 1))
      requires forall i :: 0 <= i < |tops| ==> aBits[i] == Lsb(tops[i])
      ensures Holds(a, b, aBits, Expanded(prg, tops, size, startLevel, cs, startLevel), startLevel)
    {
      hide Pow2, EndLevel, Lsb, Width, Children;
      NextWidth(startLevel);
    }

    lemma ChildPair(prg: Prg, parents: seq<Block>, m: nat, ii: nat)
      requires m <= 2 * |parents| && ii < |parents|
      ensures 2 * ii < m ==> Children(prg, parents, m)[2 * ii] == prg.left(parents[ii])
      ensures 2 * ii + 1 < m ==> Children(prg, parents, m)[2 * ii + 1] == prg.right(parents[ii])
    {
    }

    method ExpandTopNodes(a: array<Block>, b: array<Block>, aBits: array<bool>, ghost tops: seq<Block>)
      returns (m: nat)
      requires Shaped() && a != b
      requires a.Length >= size && b.Length >= size && aBits.Length >= size
      requires |tops| == Pow2(startLevel) && a[..Pow2(startLevel)] == tops
      modifies b, aBits
      ensures m == Width(size, endLevel, startLevel + 1) <= size && m <= 2 * |tops|
      ensures a[..|tops|] == tops && b[..m] == Children(prg, tops, m)
      ensures forall i :: 0 <= i < |tops| ==> aBits[i] == Lsb(tops[i])
    {
      hide Pow2, EndLevel, Lsb, Width, Children;
      NextWidth(startLevel);
      var n := Pow2(startLevel);
      m := CeilDiv(size, Pow2(endLevel - startLevel - 1));
      ghost var kids := Children(prg, tops, m);
      var ii := 0;
      while ii < n
        invariant ii <= n && a[..n] == tops
        invariant forall i :: 0 <= i < ii ==> aBits[i] == Lsb(tops[i])
        invariant forall j :: 0 <= j < m && j < 2 * ii ==> b[j] == kids[j]
      {
        ExpandTopNode(a, b, ii, m);
        ChildPair(prg, tops, m, ii);
        aBits[ii] := Lsb(a[ii]);
        ii := ii + 1;
      }
    }

    method ExpandTopNode(a: array<Block>, b: array<Block>, ii: nat, m: nat)
      requires a != b && ii < a.Length && m <= b.Length
      modifies b
      ensures 2 * ii < m ==> b[2 * ii] == prg.left(a[ii])
      ensures 2 * ii + 1 < m ==> b[2 * ii + 1] == prg.right(a[ii])
      ensures forall j :: 0 <= j < b.Length && j < 2 * ii ==> b[j] == old(b[j])
    {
      if (ii + 1) * 2 <= m {
        b[ii * 2] := prg.left(a[ii]);
        b[ii * 2 + 1] := prg.right(a[ii]);
      } else if ii * 2 + 1 <= m {
        b[ii * 2] := prg.left(a[ii]);
      }
    }

    /** One corrected level; the caller has already exchanged the buffers. */
    method ExpandNext(a: array<Block>, b: array<Block>, aBits: array<bool>, bBits: array<bool>,
                      k: nat, n: nat, m: nat, c: Correction, ghost lv: Level)
      requires Shaped() && a != b && aBits != bBits && startLevel < k < endLevel
      requires a.Length >= size && b.Length >= size && aBits.Length >= size && bBits.Length >= size
      requires n == Width(size, endLevel, k) && m == Width(size, endLevel, k + 1)
      requires Holds(b, a, bBits, lv, k - 1)
      modifies a, b, aBits
      ensures Holds(a, b, aBits, NextLevel(prg, lv, n, c), k)
    {
      hide Correct, Children, AccLeft, AccRight, Width, EndLevel, Pow2;
      NextWidth(k);
      CorrectPrefix(a[..n], lv.bits, bBits[..], c);
      var _, _ := ExpandLevel(prg, a, b, aBits, bBits, n, m, c);
    }

    /** nextlevelblocks: the rounded-up quotient, and all leaves on the last level. */
    method NextBlocks(thisLevel: nat) returns (m: nat)
      requires Shaped() && startLevel <= thisLevel < endLevel
      ensures m == Width(size, endLevel, thisLevel + 1)
    {
      NextWidth(thisLevel);
      m := CeilDiv(size, Pow2(endLevel - thisLevel - 1));
      if thisLevel == endLevel - 1 {
        m := size;
      }
    }

    ghost predicate Roles(a: array<Block>, b: array<Block>, aBits: array<bool>, bBits: array<bool>,
                          localOutput: array<Block>, localBits: array<bool>) {
      || (a == levelData && b == localOutput && aBits == levelBits && bBits == localBits)
      || (a == localOutput && b == levelData && aBits == localBits && bBits == levelBits)
    }

    /** The last level: the leaves land in localOutput and localBits, whichever
        buffer holds them. */
    method FinishLevel(a: array<Block>, b: array<Block>, aBits: array<bool>, bBits: array<bool>,
                       localOutput: array<Block>, localBits: array<bool>, n: nat, c: Correction, ghost lv: Level)
      requires Shaped() && localOutput.Length == localBits.Length == size
      requires localOutput != levelData && localBits != levelBits
      requires Roles(a, b, aBits, bBits, localOutput, localBits) && n == size
      requires Holds(b, a, bBits, lv, endLevel - 1)
      modifies levelData, levelBits, localOutput, localBits
      ensures Level(localOutput[..], localBits[..]) == NextLevel(prg, lv, size, c)
    {
      hide Correct, Children, AccAll, EndLevel, Pow2;
      NextWidth(endLevel - 1);
      CorrectPrefix(a[..n], lv.bits, bBits[..], c);
      if b == localOutput {
        var _ := FinishInto(a, b, aBits, bBits, n, c);
        forall i | 0 <= i < n {
          bBits[i] := aBits[i];
        }
        assert bBits[..] == aBits[..n];
      } else {
        var _ := FinishInPlace(a, aBits, bBits, n, c);
      }
      assert localOutput[..] == localOutput[..size] && localBits[..] == localBits[..size];
    }

    /** The consumer of the published corrections: level after level, and the
        result is the pure expansion driven by the slots. */
    method ReadBlockVector(localOutput: array<Block>, localBits: array<bool>, ghost tops: seq<Block>)
      requires Shaped() && localOutput.Length == localBits.Length == size
      requires localOutput != levelData && localBits != levelBits
      requires localOutput != z && localBits != adviceL && localBits != adviceR
      requires |tops| == Pow2(startLevel) && levelData[..Pow2(startLevel)] == tops
      modifies levelData, levelBits, localOutput, localBits
      ensures Level(localOutput[..], localBits[..]) == Expanded(prg, tops, size, startLevel, Slots(), endLevel)
    {
      hide EndLevel, Pow2, NextLevel, Width, Children, Holds;
      ghost var cs := Slots();
      var a, b, aBits, bBits := levelData, localOutput, levelBits, localBits;
      NextWidth(startLevel);
      var m := ExpandTop(a, b, aBits, tops, cs);
      ghost var lv := Expanded(prg, tops, size, startLevel, cs, startLevel);
      var thisLevel := startLevel + 1;
      while thisLevel < endLevel
        invariant startLevel + 1 <= thisLevel <= endLevel
        invariant Roles(a, b, aBits, bBits, localOutput, localBits)
        invariant lv == Expanded(prg, tops, size, startLevel, cs, thisLevel - 1)
        invariant Holds(a, b, aBits, lv, thisLevel - 1) && m == Width(size, endLevel, thisLevel)
      {
        var n := m;
        NextWidth(thisLevel - 1);
        m := NextBlocks(thisLevel);
        var slot := thisLevel - startLevel - 1;
        var c := Correction(z[slot], adviceL[slot], adviceR[slot]);
        a, b, aBits, bBits := b, a, bBits, aBits;
        ExpandNext(a, b, aBits, bBits, thisLevel, n, m, c, lv);
        lv := NextLevel(prg, lv, n, cs[slot]);
        thisLevel := thisLevel + 1;
      }
      var slot := thisLevel - startLevel - 1;
      var c := Correction(z[slot], adviceL[slot], adviceR[slot]);
      NextWidth(endLevel - 1);
      a, b, aBits, bBits := b, a, bBits, aBits;
      FinishLevel(a, b, aBits, bBits, localOutput, localBits, m, c, lv);
    }
  }

  // ---- Top-level blocks ----

  function WithLsb(block: Block, bit: bool): Block {
    block[0 := if bit then block[0] | 1 else block[0] & 0xFE]
  }

  lemma WithLsbSets(block: Block, bit: bool)
    ensures Lsb(WithLsb(block, bit)) == bit
    ensures WithLsb(block, bit)[0] >> 1 == block[0] >> 1
    ensures forall i :: 1 <= i < BLOCK_SIZE ==> WithLsb(block, bit)[i] == block[i]
  {
  }

  /** Where the path starts, and both parties' top blocks and the walk that
      follow from the combined random blocks, of which the last is a spare one. */
  function PathTop(size: nat, index: nat): nat
    requires size >= 2
  {
    StartLevelBounds(size);
    PathAt(index, EndLevel(size), StartLevel(size))
  }

  function Combine(shareA: seq<Block>, shareB: seq<Block>): (blocks: seq<Block>)
    requires |shareA| == |shareB|
    ensures |blocks| == |shareA|
  {
    seq(|shareA|, i requires 0 <= i < |shareA| == |shareB| => Xor(shareA[i], shareB[i]))
  }

  function SecondTops(blocks: seq<Block>, pos: nat): (tops: seq<Block>)
    requires |blocks| >= 1
    ensures |tops| == |blocks| - 1
  {
    var n := |blocks| - 1;
    if pos < n then blocks[..n][pos := WithLsb(blocks[n], !Lsb(blocks[pos]))] else blocks[..n]
  }

  function TopWalk(blocks: seq<Block>, pos: nat): Walk
    requires |blocks| >= 1
  {
    var n := |blocks| - 1;
    var a := if pos < n then blocks[pos] else ZERO;
    var b := if pos < n then WithLsb(blocks[n], !Lsb(a)) else blocks[n];
    Walk(a, b, Lsb(a), Lsb(b))
  }

  /** Both parties' leaves after a run of the online variant. */
  function OnlinePair(prg: Prg, size: nat, index: nat, blocks: seq<Block>): (p: Pair)
    requires size >= 2 && |blocks| == Pow2(StartLevel(size)) + 1
    ensures IsLevel(p.a, size) && IsLevel(p.b, size)
  {
    StartLevelBounds(size);
    var e, start, pos := EndLevel(size), StartLevel(size), PathTop(size, index);
    var top := TopWalk(blocks, pos);
    var cs := seq(e - start, j requires 0 <= j < e - start => Published(prg, top, index, e, start, j));
    ExpandedPair(prg, blocks[..|blocks| - 1], SecondTops(blocks, pos), size, start, cs, e)
  }

  lemma OnlinePairIs(prg: Prg, size: nat, index: nat, blocks: seq<Block>, cs: seq<Correction>)
    requires size >= 2 && |blocks| == Pow2(StartLevel(size)) + 1 && StartLevel(size) <= EndLevel(size)
    requires ArePublished(cs, prg, TopWalk(blocks, PathTop(size, index)), index, EndLevel(size), StartLevel(size))
    requires |blocks| - 1 == Width(size, EndLevel(size), StartLevel(size))
    ensures OnlinePair(prg, size, index, blocks)
         == ExpandedPair(prg, blocks[..|blocks| - 1], SecondTops(blocks, PathTop(size, index)), size, StartLevel(size),
                         cs, EndLevel(size))
  {
    var e, start := EndLevel(size), StartLevel(size);
    var top := TopWalk(blocks, PathTop(size, index));
    assert cs == seq(e - start, j requires 0 <= j < e - start => Published(prg, top, index, e, start, j));
  }

  /** The XOR of the blocks the walk ends with. */
  function OnlineDelta(prg: Prg, size: nat, index: nat, blocks: seq<Block>): Block
    requires size >= 2 && |blocks| >= 1
  {
    StartLevelBounds(size);
    var w := WalkAt(prg, TopWalk(blocks, PathTop(size, index)), index, EndLevel(size), StartLevel(size), EndLevel(size));
    Xor(w.a, w.b)
  }

  /** The parties' random bytes are combined into the top blocks.  Both parties
      receive the same block everywhere except where the path starts; there
      the second party receives the spare block, with the opposite lowest bit. */
  method SetTops(shareA: seq<Block>, shareB: seq<Block>, size: nat, index: nat)
    returns (topsA: seq<Block>, topsB: seq<Block>, activeA: Block, activeB: Block)
    requires size >= 2 && |shareA| == |shareB| == Pow2(StartLevel(size)) + 1
    ensures |topsA| == |topsB| == Pow2(StartLevel(size)) == Width(size, EndLevel(size), StartLevel(size))
    ensures TopsAgree(topsA, topsB, Walk(activeA, activeB, Lsb(activeA), Lsb(activeB)),
                      PathAt(index, EndLevel(size), StartLevel(size)))
    ensures forall i :: 0 <= i < |topsA| ==> topsA[i] == Xor(shareA[i], shareB[i])
    ensures var n := |topsA|;
            var spare := Xor(shareA[n], shareB[n]);
      if PathAt(index, EndLevel(size), StartLevel(size)) < n then activeB == WithLsb(spare, !Lsb(activeA))
      else activeA == ZERO && activeB == spare
    ensures var blocks := Combine(shareA, shareB);
      && topsA == blocks[..|topsA|] && topsB == SecondTops(blocks, PathTop(size, index))
      && Walk(activeA, activeB, Lsb(activeA), Lsb(activeB)) == TopWalk(blocks, PathTop(size, index))
  {
    hide Xor, EndLevel, Lsb, WithLsb;
    StartLevelBounds(size);
    var n := Pow2(StartLevel(size));
    var toplevel := seq(n + 1, i requires 0 <= i < n + 1 => Xor(shareA[i], shareB[i]));
    var levelIndex := PathAt(index, EndLevel(size), StartLevel(size));
    topsA, topsB, activeA := [], [], ZERO;
    var spare: Block := toplevel[n];
    for ii := 0 to n
      invariant |topsA| == |topsB| == ii
      invariant topsA == toplevel[..ii]
      invariant forall i :: 0 <= i < ii && i != levelIndex ==> topsB[i] == toplevel[i]
      invariant levelIndex < ii ==>
        && topsA[levelIndex] == activeA && topsB[levelIndex] == spare && Lsb(spare) == !Lsb(activeA)
        && spare == WithLsb(toplevel[n], !Lsb(activeA))
      invariant levelIndex >= ii ==> activeA == ZERO && spare == toplevel[n]
    {
      topsA := topsA + [toplevel[ii]];
      if levelIndex != ii {
        topsB := topsB + [toplevel[ii]];
      } else {
        activeA := toplevel[ii];
        WithLsbSets(spare, !Lsb(activeA));
        spare := WithLsb(spare, !Lsb(activeA));
        topsB := topsB + [spare];
      }
    }
    activeB := spare;
  }

  /** Every published slot reaches a party's expander. */
  method PushAll(fss: Fss, fsso: FssOffline)
    requires fss.Shaped() && fsso.Shaped()
    requires fss.endLevel == fsso.endLevel && fss.startLevel == fsso.startLevel
    requires fss.z != fsso.z && fss.advice != fsso.adviceL && fss.advice != fsso.adviceR
    modifies fsso`readyCount, fsso.z, fsso.adviceL, fsso.adviceR
    ensures forall j :: 0 <= j < fss.z.Length ==> fsso.Slots()[j] == fss.Slot(j)
  {
    hide EndLevel, Pow2, Width, StartLevel;
    var ii := fss.startLevel + 1;
    while ii <= fss.endLevel
      invariant fss.startLevel + 1 <= ii <= fss.endLevel + 1
      invariant forall j :: 0 <= j < ii - fss.startLevel - 1 ==> fsso.Slots()[j] == fss.Slot(j)
    {
      var slot := ii - fss.startLevel - 1;
      fsso.PushZ(fss.z[slot], fss.advice[2 * slot], fss.advice[2 * slot + 1], ii);
      ii := ii + 1;
    }
  }

  /** One party: receive the top blocks, receive the slots, expand. */
  method ExpandParty(fss: Fss, size: nat, tops: seq<Block>)
    returns (out: array<Block>, bits: array<bool>, ghost cs: seq<Correction>)
    requires size >= 2 && fss.Shaped() && fss.startLevel == StartLevel(size) && fss.endLevel == EndLevel(size)
    requires |tops| == Pow2(StartLevel(size)) == Width(size, EndLevel(size), StartLevel(size))
    ensures fresh(out) && fresh(bits) && out.Length == bits.Length == size
    ensures |cs| == fss.z.Length && forall j :: 0 <= j < fss.z.Length ==> cs[j] == fss.Slot(j)
    ensures Level(out[..], bits[..]) == Expanded(fss.prg, tops, size, StartLevel(size), cs, EndLevel(size))
  {
    hide EndLevel, Pow2, StartLevel, Width, Expanded;
    StartLevelBounds(size);
    var fsso := new FssOffline(size, fss.prg);
    out, bits := new Block[size](_ => ZERO), new bool[size];
    fsso.Start(tops);
    PushAll(fss, fsso);
    cs := fsso.Slots();
    fsso.ReadBlockVector(out, bits, tops);
  }

  /** The whole online variant for both parties. */
  method GetBlockVector(prg: Prg, size: nat, index: nat, shareA: seq<Block>, shareB: seq<Block>)
    returns (outA: array<Block>, bitsA: array<bool>, outB: array<Block>, bitsB: array<bool>, delta: Block)
    requires size >= 2 && |shareA| == |shareB| == Pow2(StartLevel(size)) + 1
    ensures fresh(outA) && fresh(bitsA) && fresh(outB) && fresh(bitsB)
    ensures outA != outB && bitsA != bitsB
    ensures outA.Length == bitsA.Length == outB.Length == bitsB.Length == size
    ensures Pair(Level(outA[..], bitsA[..]), Level(outB[..], bitsB[..]))
         == OnlinePair(prg, size, index, Combine(shareA, shareB))
    ensures delta == OnlineDelta(prg, size, index, Combine(shareA, shareB))
    ensures OnPath(Pair(Level(outA[..], bitsA[..]), Level(outB[..], bitsB[..])), index)
    ensures index < size ==> delta == Xor(outA[index], outB[index])
  {
    hide Xor, EndLevel, Pow2, StartLevel, Width, PathAt, Expanded, TopsAgree, Published, WalkAt, Lsb, OnPath;
    hide Combine, SecondTops, TopWalk;
    StartLevelBounds(size);
    var fss := new Fss(size, prg);
    var topsA, topsB, activeA, activeB := SetTops(shareA, shareB, size, index);
    fss.activeA, fss.activeB := activeA, activeB;
    fss.TraverseLevels(index);
    ghost var top := Walk(activeA, activeB, Lsb(activeA), Lsb(activeB));
    ghost var csA, csB;
    outA, bitsA, csA := ExpandParty(fss, size, topsA);
    outB, bitsB, csB := ExpandParty(fss, size, topsB);
    assert csA == csB;
    assert ArePublished(csA, prg, top, index, EndLevel(size), StartLevel(size));
    OnlinePairIs(prg, size, index, Combine(shareA, shareB), csA);
    WalkResult(prg, topsA, topsB, top, size, StartLevel(size), index, csA);
    delta := Xor(fss.activeA, fss.activeB);
  }
}
