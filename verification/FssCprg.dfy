/** The CPRG variant: each party expands the whole tree in two ping-pong
    buffers, one level per exchanged correction. */
module FssCprg {
  import opened Blocks
  import opened TreeShape
  import opened DpfTree
  import opened DpfRuns
  import opened LevelExpansion

  /** Random bytes with the lowest bit forced: 0 for party 1, 1 for party 2. */
  function RootSeed(random: Block, party: nat): Block {
    random[0 := if party == 1 then random[0] & 0xFE else random[0] | 1]
  }

  lemma RootSeedsOpposite(randomA: Block, randomB: Block)
    ensures Lsb(RootSeed(randomA, 1)) != Lsb(RootSeed(randomB, 2))
  {
  }

  /** Only the lowest bit of the first byte is forced; all others are random. */
  lemma RootSeedKeepsRandom(random: Block, party: nat)
    ensures forall i :: 1 <= i < BLOCK_SIZE ==> RootSeed(random, party)[i] == random[i]
    ensures RootSeed(random, party)[0] >> 1 == random[0] >> 1
    ensures RootSeed(random, party)[0] & 1 == if party == 1 then 0 else 1
  {
  }

  class FssCprgOffline {
    const prg: Prg
    const size: nat
    const endLevel: nat
    const levelData: array<Block>
    const levelBits: array<bool>
    const localOutput: array<Block>
    const localBits: array<bool>

    var thisLevel: nat
    var thisLevelBlocks: nat
    var nextLevelBlocks: nat
    var lda: array<Block>
    var ldb: array<Block>
    var lba: array<bool>
    var lbb: array<bool>

    ghost predicate Shaped() {
      && size >= 2 && endLevel == EndLevel(size)
      && levelData.Length == Pow2(endLevel) && levelBits.Length == size
      && localOutput.Length == size && localBits.Length == size
      && levelData != localOutput && levelBits != localBits
    }

    /** The buffers change roles on every level. */
    ghost predicate Buffers()
      reads this
    {
      if thisLevel % 2 == 0 then
        lda == levelData && ldb == localOutput && lba == levelBits && lbb == localBits
      else
        lda == localOutput && ldb == levelData && lba == localBits && lbb == levelBits
    }

    /** Level lv is corrected in one buffer and its raw children fill the other. */
    ghost predicate AtLevel(lv: Level)
      reads this, levelData, levelBits, localOutput, localBits
    {
      && Shaped() && Buffers() && thisLevel < endLevel
      && thisLevelBlocks == Width(size, endLevel, thisLevel) <= size <= Pow2(endLevel)
      && nextLevelBlocks == Width(size, endLevel, thisLevel + 1) <= size
      && thisLevelBlocks == (nextLevelBlocks + 1) / 2
      && IsLevel(lv, thisLevelBlocks)
      && lda[..thisLevelBlocks] == lv.blocks && lba[..thisLevelBlocks] == lv.bits
      && ldb[..nextLevelBlocks] == Children(prg, lv.blocks, nextLevelBlocks)
    }

    constructor (size: nat, prg: Prg, localOutput: array<Block>, localBits: array<bool>)
      requires size >= 2 && localOutput.Length == size && localBits.Length == size
      ensures Shaped() && this.size == size && this.prg == prg
      ensures this.localOutput == localOutput && this.localBits == localBits
      ensures fresh(levelData) && fresh(levelBits)
    {
      var e := EndLevel(size);
      this.size, this.prg, this.endLevel := size, prg, e;
      this.localOutput, this.localBits := localOutput, localBits;
      var blocks := new Block[Pow2(e)](_ => ZERO);
      var bits := new bool[size];
      levelData, levelBits := blocks, bits;
      thisLevel, thisLevelBlocks, nextLevelBlocks := 0, 1, 2;
      lda, ldb, lba, lbb := blocks, localOutput, bits, localBits;
    }

    method Start(random: Block, party: nat) returns (accL: Block, accR: Block)
      requires Shaped()
      modifies this, levelData, levelBits, localOutput
      ensures AtLevel(Root(RootSeed(random, party))) && thisLevel == 0
      ensures lda[0] == RootSeed(random, party) && lba[0] == Lsb(lda[0])
      ensures ldb[0] == prg.left(lda[0]) && ldb[1] == prg.right(lda[0])
      ensures accL == AccLeft(ldb[..nextLevelBlocks]) && accR == AccRight(ldb[..nextLevelBlocks])
    {
      WidthRoot(size);
      EndLevelBounds(size);
      thisLevel, thisLevelBlocks, nextLevelBlocks := 0, 1, 2;
      lda, ldb, lba, lbb := levelData, localOutput, levelBits, localBits;
      accL, accR := ZERO, ZERO;
      lda[0] := RootSeed(random, party);
      ldb[0] := prg.left(lda[0]);
      ldb[1] := prg.right(lda[0]);
      accL, accR := Xor(accL, ldb[0]), Xor(accR, ldb[1]);
      lba[0] := Lsb(lda[0]);
      TwoChildren(ldb[..2]);
    }

    /** The shifted form of the rounded-up quotient gives the width of the next level. */
    lemma NextWidth(k: nat)
      requires Shaped() && 1 <= k < endLevel
      ensures CeilDiv(size, Pow2(endLevel - k - 1)) == Width(size, endLevel, k + 1)
      ensures Width(size, endLevel, k) == (Width(size, endLevel, k + 1) + 1) / 2
      ensures Width(size, endLevel, k + 1) <= size <= Pow2(endLevel)
      ensures k + 1 == endLevel ==> Width(size, endLevel, k + 1) == size
    {
      CeilShiftIsCeilDivision(size, endLevel - k - 1);
      WidthBounds(size, endLevel, k + 1);
      EndLevelBounds(size);
    }

    /** nextlevelblocks: the rounded-up quotient, and all leaves on the last level. */
    method NextBlocks() returns (m: nat)
      requires Shaped() && 1 <= thisLevel < endLevel
      ensures m == Width(size, endLevel, thisLevel + 1)
    {
      NextWidth(thisLevel);
      m := CeilDiv(size, Pow2(endLevel - thisLevel - 1));
      if thisLevel == endLevel - 1 {
        m := size;
      }
    }

    method Swap()
      requires Shaped() && Buffers() && thisLevel < endLevel
      modifies this`lda, this`ldb, this`lba, this`lbb, this`thisLevel
      ensures Buffers() && thisLevel == old(thisLevel) + 1
      ensures lda == old(ldb) && ldb == old(lda) && lba == old(lbb) && lbb == old(lba)
    {
      thisLevel := thisLevel + 1;
      lda, ldb, lba, lbb := ldb, lda, lbb, lba;
    }

    method ProcessRound(c: Correction, ghost lv: Level) returns (accL: Block, accR: Block)
      requires AtLevel(lv) && thisLevel + 1 < endLevel
      modifies this, levelData, levelBits, localOutput, localBits
      ensures thisLevel == old(thisLevel) + 1
      ensures AtLevel(NextLevel(prg, lv, Width(size, endLevel, thisLevel), c))
      ensures accL == AccLeft(ldb[..nextLevelBlocks]) && accR == AccRight(ldb[..nextLevelBlocks])
    {
      hide Correct, Children, AccLeft, AccRight, Width, EndLevel, Pow2, Xor, Lsb, IsLevel;
      NextWidth(thisLevel + 1);
      ghost var raw := ldb[..nextLevelBlocks];
      CorrectPrefix(raw, lv.bits, lba[..], c);
      Swap();
      thisLevelBlocks := nextLevelBlocks;
      nextLevelBlocks := NextBlocks();
      accL, accR := ExpandLevel(prg, lda, ldb, lba, lbb, thisLevelBlocks, nextLevelBlocks, c);
    }

    /** The leaves land in localOutput and localBits, whichever buffer holds
        the last level. */
    method Finalize(c: Correction, ghost lv: Level) returns (acc: Block)
      requires AtLevel(lv) && thisLevel + 1 == endLevel
      modifies this, levelData, levelBits, localOutput, localBits
      ensures Level(localOutput[..], localBits[..]) == NextLevel(prg, lv, size, c)
      ensures acc == AccAll(localOutput[..])
    {
      hide Correct, Children, AccAll, EndLevel, Pow2;
      ghost var raw := ldb[..nextLevelBlocks];
      CorrectPrefix(raw, lv.bits, lba[..], c);
      Swap();
      thisLevelBlocks := nextLevelBlocks;
      if thisLevel % 2 == 0 {
        acc := FinishInto(lda, ldb, lba, lbb, thisLevelBlocks, c);
        forall i | 0 <= i < thisLevelBlocks {
          lbb[i] := lba[i];
        }
        assert lbb[..] == lba[..thisLevelBlocks];
      } else {
        acc := FinishInPlace(lda, lba, lbb, thisLevelBlocks, c);
      }
      assert localOutput[..] == localOutput[..size];
    }
  }

  ghost predicate Separate(a: FssCprgOffline, b: FssCprgOffline) {
    && a != b
    && a.levelData != b.levelData && a.levelData != b.localOutput
    && a.localOutput != b.levelData && a.localOutput != b.localOutput
    && a.levelBits != b.levelBits && a.levelBits != b.localBits
    && a.localBits != b.levelBits && a.localBits != b.localBits
  }

  /** What both parties learn on one level: the difference of the branch the
      path leaves, and an advice bit for each side. */
  method Reveal(diffL: Block, diffR: Block, right: bool) returns (c: Correction)
    ensures c == CorrectionFrom(diffL, diffR, right)
  {
    var z := diffR;
    if right {
      z := diffL;
    }
    var adviceL := (Lsb(diffL) != right) != true;
    var adviceR := Lsb(diffR) != right;
    c := Correction(z, adviceL, adviceR);
  }

  /** Both parties are at the same level and hold the levels of p. */
  ghost predicate InStep(a: FssCprgOffline, b: FssCprgOffline, p: Pair)
    reads a, a.levelData, a.levelBits, a.localOutput, a.localBits
    reads b, b.levelData, b.levelBits, b.localOutput, b.localBits
  {
    && a.size == b.size && a.prg == b.prg && Separate(a, b)
    && a.thisLevel == b.thisLevel && a.AtLevel(p.a) && b.AtLevel(p.b)
  }

  /** The accumulators of both parties over the children they just wrote. */
  datatype Sums = Sums(aL: Block, aR: Block, bL: Block, bR: Block)

  function SumsOf(prg: Prg, p: Pair, n: nat): Sums
    requires n <= 2 * |p.a.blocks| && n <= 2 * |p.b.blocks|
  {
    var rawA, rawB := Children(prg, p.a.blocks, n), Children(prg, p.b.blocks, n);
    Sums(AccLeft(rawA), AccRight(rawA), AccLeft(rawB), AccRight(rawB))
  }

  method StartBoth(a: FssCprgOffline, b: FssCprgOffline, randomA: Block, randomB: Block, ghost p: Pair)
    returns (s: Sums)
    requires a.Shaped() && b.Shaped() && a.size == b.size && a.prg == b.prg && Separate(a, b)
    requires p == Pair(Root(RootSeed(randomA, 1)), Root(RootSeed(randomB, 2)))
    modifies a, a.levelData, a.levelBits, a.localOutput
    modifies b, b.levelData, b.levelBits, b.localOutput
    ensures InStep(a, b, p) && a.thisLevel == 0 && s == SumsOf(a.prg, p, Width(a.size, a.endLevel, 1))
  {
    hide Children, AccLeft, AccRight, RootSeed, EndLevel, Pow2;
    var aL, aR := a.Start(randomA, 1);
    var bL, bR := b.Start(randomB, 2);
    s := Sums(aL, aR, bL, bR);
  }

  method ProcessBoth(a: FssCprgOffline, b: FssCprgOffline, c: Correction, ghost p: Pair) returns (s: Sums)
    requires InStep(a, b, p) && a.thisLevel + 1 < a.endLevel
    modifies a, a.levelData, a.levelBits, a.localOutput, a.localBits
    modifies b, b.levelData, b.levelBits, b.localOutput, b.localBits
    ensures a.thisLevel == old(a.thisLevel) + 1
    ensures var q := StepPair(a.prg, p, Width(a.size, a.endLevel, a.thisLevel), c);
      InStep(a, b, q) && s == SumsOf(a.prg, q, Width(a.size, a.endLevel, a.thisLevel + 1))
  {
    hide NextLevel, Children, AccLeft, AccRight, EndLevel, Pow2;
    var aL, aR := a.ProcessRound(c, p.a);
    var bL, bR := b.ProcessRound(c, p.b);
    s := Sums(aL, aR, bL, bR);
  }

  method FinalizeBoth(a: FssCprgOffline, b: FssCprgOffline, c: Correction, ghost p: Pair)
    returns (accA: Block, accB: Block)
    requires InStep(a, b, p) && a.thisLevel + 1 == a.endLevel
    modifies a, a.levelData, a.levelBits, a.localOutput, a.localBits
    modifies b, b.levelData, b.levelBits, b.localOutput, b.localBits
    ensures Pair(Level(a.localOutput[..], a.localBits[..]), Level(b.localOutput[..], b.localBits[..]))
         == StepPair(a.prg, p, a.size, c)
    ensures accA == AccAll(a.localOutput[..]) && accB == AccAll(b.localOutput[..])
  {
    hide NextLevel, Children, AccAll, EndLevel, Pow2;
    accA := a.Finalize(c, p.a);
    accB := b.Finalize(c, p.b);
  }

  /** The parties' state after k corrections: level k of the run, and the sums
      over the children that level k already wrote. */
  ghost predicate AfterRounds(a: FssCprgOffline, b: FssCprgOffline, s: Sums, seedA: Block, seedB: Block,
                              index: nat, k: nat)
    reads a, a.levelData, a.levelBits, a.localOutput, a.localBits
    reads b, b.levelData, b.levelBits, b.localOutput, b.localBits
  {
    && a.Shaped() && k < a.endLevel && a.thisLevel == k
    && var p := CprgLevels(a.prg, seedA, seedB, a.size, index, k);
    && InStep(a, b, p) && s == SumsOf(a.prg, p, Width(a.size, a.endLevel, k + 1))
  }

  /** One iteration before the last level. */
  method Round(a: FssCprgOffline, b: FssCprgOffline, s: Sums, index: nat, ii: nat,
               ghost seedA: Block, ghost seedB: Block)
    returns (s': Sums)
    requires 1 <= ii < a.endLevel && AfterRounds(a, b, s, seedA, seedB, index, ii - 1)
    modifies a, a.levelData, a.levelBits, a.localOutput, a.localBits
    modifies b, b.levelData, b.levelBits, b.localOutput, b.localBits
    ensures AfterRounds(a, b, s', seedA, seedB, index, ii)
  {
    hide StepPair, SumsOf, Xor, EndLevel, Pow2, CorrectionFrom, PairCorrection, CprgLevels, CprgStep, StepsRight, Width;
    ghost var p := CprgLevels(a.prg, seedA, seedB, a.size, index, ii - 1);
    var c := Reveal(Xor(s.aL, s.bL), Xor(s.aR, s.bR), StepsRight(index, a.endLevel, ii));
    SumsGiveCorrection(a.prg, p, Width(a.size, a.endLevel, ii), StepsRight(index, a.endLevel, ii));
    CprgUnfold(a.prg, seedA, seedB, a.size, index, ii);
    s' := ProcessBoth(a, b, c, p);
  }

  /** The last iteration. */
  method LastRound(a: FssCprgOffline, b: FssCprgOffline, s: Sums, index: nat, ghost seedA: Block, ghost seedB: Block)
    returns (accA: Block, accB: Block)
    requires 1 <= a.endLevel && AfterRounds(a, b, s, seedA, seedB, index, a.endLevel - 1)
    modifies a, a.levelData, a.levelBits, a.localOutput, a.localBits
    modifies b, b.levelData, b.levelBits, b.localOutput, b.localBits
    ensures Pair(Level(a.localOutput[..], a.localBits[..]), Level(b.localOutput[..], b.localBits[..]))
         == CprgLevels(a.prg, seedA, seedB, a.size, index, a.endLevel)
    ensures accA == AccAll(a.localOutput[..]) && accB == AccAll(b.localOutput[..])
  {
    hide StepPair, SumsOf, Xor, EndLevel, Pow2, CorrectionFrom, PairCorrection, CprgLevels, CprgStep, StepsRight, Width,
         AccAll;
    ghost var p := CprgLevels(a.prg, seedA, seedB, a.size, index, a.endLevel - 1);
    var c := Reveal(Xor(s.aL, s.bL), Xor(s.aR, s.bR), StepsRight(index, a.endLevel, a.endLevel));
    SumsGiveCorrection(a.prg, p, Width(a.size, a.endLevel, a.endLevel), StepsRight(index, a.endLevel, a.endLevel));
    CprgUnfold(a.prg, seedA, seedB, a.size, index, a.endLevel);
    accA, accB := FinalizeBoth(a, b, c, p);
  }

  /** Both parties in lockstep.  What the parties reveal to each other per
      level is Z and the two advice bits, computed from the XOR of their
      accumulators. */
  method TraverseLevels(a: FssCprgOffline, b: FssCprgOffline, randomA: Block, randomB: Block, index: nat)
    returns (delta: Block)
    requires a.Shaped() && b.Shaped() && a.size == b.size && a.prg == b.prg && Separate(a, b)
    modifies a, a.levelData, a.levelBits, a.localOutput, a.localBits
    modifies b, b.levelData, b.levelBits, b.localOutput, b.localBits
    ensures Pair(Level(a.localOutput[..], a.localBits[..]), Level(b.localOutput[..], b.localBits[..]))
         == CprgLevels(a.prg, RootSeed(randomA, 1), RootSeed(randomB, 2), a.size, index, a.endLevel)
    ensures delta == Xor(AccAll(a.localOutput[..]), AccAll(b.localOutput[..]))
  {
    hide SumsOf, AccAll, Xor, RootSeed, EndLevel, Pow2, CprgLevels, Width, InStep;
    ghost var seedA, seedB := RootSeed(randomA, 1), RootSeed(randomB, 2);
    CprgUnfold(a.prg, seedA, seedB, a.size, index, 0);
    var s := StartBoth(a, b, randomA, randomB, Pair(Root(seedA), Root(seedB)));
    var ii := 1;
    var accA, accB := ZERO, ZERO;
    while ii <= a.endLevel
      invariant 1 <= ii <= a.endLevel + 1
      invariant ii <= a.endLevel ==> AfterRounds(a, b, s, seedA, seedB, index, ii - 1)
      invariant ii > a.endLevel ==>
        && Pair(Level(a.localOutput[..], a.localBits[..]), Level(b.localOutput[..], b.localBits[..]))
           == CprgLevels(a.prg, seedA, seedB, a.size, index, a.endLevel)
        && accA == AccAll(a.localOutput[..]) && accB == AccAll(b.localOutput[..])
    {
      if ii < a.endLevel {
        s := Round(a, b, s, index, ii, seedA, seedB);
      } else {
        accA, accB := LastRound(a, b, s, index, seedA, seedB);
      }
      ii := ii + 1;
    }
    delta := Xor(accA, accB);
  }

  lemma SumsGiveCorrection(prg: Prg, p: Pair, n: nat, right: bool)
    requires |p.a.blocks| == |p.b.blocks| && n <= 2 * |p.a.blocks|
    ensures var s := SumsOf(prg, p, n);
      CorrectionFrom(Xor(s.aL, s.bL), Xor(s.aR, s.bR), right) == PairCorrection(prg, p, n, right)
  {
  }

  lemma CprgUnfold(prg: Prg, seedA: Block, seedB: Block, size: nat, index: nat, k: nat)
    requires size >= 2 && k <= EndLevel(size)
    ensures k == 0 ==> CprgLevels(prg, seedA, seedB, size, index, 0) == Pair(Root(seedA), Root(seedB))
    ensures k == EndLevel(size) ==> Width(size, EndLevel(size), k) == size
    ensures k > 0 ==>
      var prev, n := CprgLevels(prg, seedA, seedB, size, index, k - 1), Width(size, EndLevel(size), k);
      && n <= 2 * |prev.a.blocks|
      && CprgLevels(prg, seedA, seedB, size, index, k)
         == StepPair(prg, prev, n, PairCorrection(prg, prev, n, StepsRight(index, EndLevel(size), k)))
  {
  }

  lemma TwoChildren(kids: seq<Block>)
    requires |kids| == 2
    ensures AccLeft(kids) == Xor(ZERO, kids[0]) && AccRight(kids) == Xor(ZERO, kids[1])
  {
    XorWhereNone(kids, {});
    XorWhereInsert(kids, {}, 0);
    XorWhereAgree(kids, {} + {0}, Evens(2));
    XorWhereInsert(kids, {}, 1);
    XorWhereAgree(kids, {} + {1}, Odds(2));
  }
}
