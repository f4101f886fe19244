/** Whole runs of the two distributed point function variants as functions,
    and the theorems about every level of every run. */
module DpfRuns {
  import opened Blocks
  import opened TreeShape
  import opened DpfTree

  // ---- CPRG variant: corrections from accumulators over whole levels ----

  function Root(seed: Block): Level {
    Level([seed], [Lsb(seed)])
  }

  /** Both parties' levels after k corrections. */
  function CprgLevels(prg: Prg, seedA: Block, seedB: Block, size: nat, index: nat, k: nat): (p: Pair)
    requires size >= 2 && k <= EndLevel(size)
    ensures IsLevel(p.a, Width(size, EndLevel(size), k)) && IsLevel(p.b, Width(size, EndLevel(size), k))
  {
    if k == 0 then
      WidthRoot(size);
      Pair(Root(seedA), Root(seedB))
    else
      var e := EndLevel(size);
      var prev := CprgLevels(prg, seedA, seedB, size, index, k - 1);
      CprgStep(prg, prev, Width(size, e, k), StepsRight(index, e, k))
  }

  function CprgStep(prg: Prg, p: Pair, n: nat, right: bool): (q: Pair)
    requires IsLevel(p.a, |p.a.blocks|) && IsLevel(p.b, |p.a.blocks|) && n <= 2 * |p.a.blocks|
    ensures IsLevel(q.a, n) && IsLevel(q.b, n)
  {
    StepPair(prg, p, n, PairCorrection(prg, p, n, right))
  }

  lemma CprgStepKeepsPath(prg: Prg, p: Pair, pos: nat, right: bool, n: nat)
    requires OnPath(p, pos) && (n + 1) / 2 == |p.a.blocks|
    ensures OnPath(CprgStep(prg, p, n, right), Child(pos, right))
  {
    AccCorrectionFits(prg, p, pos, right, n);
    StepKeepsPath(prg, p, pos, right, n, PairCorrection(prg, p, n, right));
  }

  /** Every level of every run: the parties agree off the path and hold
      opposite control bits on it; once the path has left a truncated tree
      they agree everywhere. */
  lemma {:induction false} CprgPath(prg: Prg, seedA: Block, seedB: Block, size: nat, index: nat, k: nat)
    requires size >= 2 && k <= EndLevel(size)
    requires Lsb(seedA) != Lsb(seedB)
    ensures OnPath(CprgLevels(prg, seedA, seedB, size, index, k), WalkPosition(index, EndLevel(size), k))
  {
    if k > 0 {
      var e := EndLevel(size);
      CprgPath(prg, seedA, seedB, size, index, k - 1);
      CprgStepKeepsPath(prg, CprgLevels(prg, seedA, seedB, size, index, k - 1), WalkPosition(index, e, k - 1),
                        StepsRight(index, e, k), Width(size, e, k));
    }
  }

  /** The leaf the walk from the root ends in: only the low endLevel bits of
      the index are looked at. */
  function CprgLeaf(size: nat, index: nat): nat
    requires size >= 1
  {
    index % Pow2(EndLevel(size))
  }

  /** The result of a run: the bit vectors combine to the unit vector at the
      leaf, the block vectors to zero elsewhere, and the accumulators to the
      block difference at the leaf.  All zero when the tree lacks the leaf. */
  lemma CprgResult(prg: Prg, seedA: Block, seedB: Block, size: nat, index: nat)
    requires size >= 2
    requires Lsb(seedA) != Lsb(seedB)
    ensures var p := CprgLevels(prg, seedA, seedB, size, index, EndLevel(size));
            var leaf := CprgLeaf(size, index);
      && IsLevel(p.a, size) && IsLevel(p.b, size)
      && OnPath(p, leaf)
      && Xor(AccAll(p.a.blocks), AccAll(p.b.blocks))
         == if leaf < size then Xor(p.a.blocks[leaf], p.b.blocks[leaf]) else ZERO
  {
    var e := EndLevel(size);
    CprgPath(prg, seedA, seedB, size, index, e);
    WalkEndsAtLowBits(index, e);
    LeafDifference(CprgLevels(prg, seedA, seedB, size, index, e), CprgLeaf(size, index));
  }

  // ---- Online variant: corrections from a walk down the active path ----

  /** The active blocks and control bits of both parties. */
  datatype Walk = Walk(a: Block, b: Block, bitA: bool, bitB: bool)

  function WalkCorrection(prg: Prg, w: Walk, right: bool): Correction {
    var (diffL, diffR) := PathDiffs(prg, w.a, w.b);
    CorrectionFrom(diffL, diffR, right)
  }

  function Kept(prg: Prg, x: Block, right: bool): Block {
    if right then prg.right(x) else prg.left(x)
  }

  function WalkStep(prg: Prg, w: Walk, right: bool): Walk {
    var c := WalkCorrection(prg, w, right);
    var (a, b) := (Kept(prg, w.a, right), Kept(prg, w.b, right));
    var side := Child(0, right);
    Walk(CorrectBlock(a, w.bitA, c), CorrectBlock(b, w.bitB, c),
         CorrectBit(a, side, w.bitA, c), CorrectBit(b, side, w.bitB, c))
  }

  /** One step without names: each party's child on the side of the path, with
      the difference of the other side and the side's advice bit added if the
      party's control bit is set. */
  lemma WalkStepCases(prg: Prg, w: Walk, right: bool)
    ensures var keptA := if right then prg.right(w.a) else prg.left(w.a);
            var keptB := if right then prg.right(w.b) else prg.left(w.b);
            var lost := if right then Xor(prg.left(w.a), prg.left(w.b)) else Xor(prg.right(w.a), prg.right(w.b));
            var advice := Lsb(keptA) == Lsb(keptB);
      WalkStep(prg, w, right)
      == Walk(if w.bitA then Xor(keptA, lost) else keptA, if w.bitB then Xor(keptB, lost) else keptB,
              Lsb(keptA) != (w.bitA && advice), Lsb(keptB) != (w.bitB && advice))
  {
    hide Xor, Lsb;
    LsbLinear(prg.left(w.a), prg.left(w.b));
    LsbLinear(prg.right(w.a), prg.right(w.b));
  }

  /** The walk after stepping from level start to level k. */
  function WalkAt(prg: Prg, top: Walk, index: nat, endLevel: nat, start: nat, k: nat): Walk
    requires start <= k <= endLevel
    decreases k
  {
    if k == start then top
    else WalkStep(prg, WalkAt(prg, top, index, endLevel, start, k - 1), StepsRight(index, endLevel, k))
  }

  /** The published corrections: slot j takes level start + j to start + j + 1. */
  function Published(prg: Prg, top: Walk, index: nat, endLevel: nat, start: nat, j: nat): Correction
    requires start + j < endLevel
  {
    WalkCorrection(prg, WalkAt(prg, top, index, endLevel, start, start + j),
                   StepsRight(index, endLevel, start + j + 1))
  }

  /** cs holds the correction of every level, in order. */
  ghost predicate ArePublished(cs: seq<Correction>, prg: Prg, top: Walk, index: nat, endLevel: nat, start: nat)
    requires start <= endLevel
  {
    && |cs| == endLevel - start
    && forall j :: 0 <= j < |cs| ==> cs[j] == Published(prg, top, index, endLevel, start, j)
  }

  /** Level k of one party's full expansion, which only sees the corrections. */
  function Expanded(prg: Prg, tops: seq<Block>, size: nat, start: nat, cs: seq<Correction>, k: nat): (lv: Level)
    requires size >= 1 && start <= k <= EndLevel(size) && k - start <= |cs|
    requires |tops| == Width(size, EndLevel(size), start)
    ensures IsLevel(lv, Width(size, EndLevel(size), k))
    decreases k
  {
    if k == start then
      Level(tops, seq(|tops|, i requires 0 <= i < |tops| => Lsb(tops[i])))
    else
      NextLevel(prg, Expanded(prg, tops, size, start, cs, k - 1), Width(size, EndLevel(size), k), cs[k - start - 1])
  }

  /** The walk holds exactly the two parties' nodes at the path position. */
  ghost predicate Tracks(w: Walk, p: Pair, pos: nat)
    requires IsLevel(p.a, |p.a.blocks|) && IsLevel(p.b, |p.a.blocks|)
  {
    pos < |p.a.blocks| ==>
      && w.a == p.a.blocks[pos] && w.b == p.b.blocks[pos]
      && w.bitA == p.a.bits[pos] && w.bitB == p.b.bits[pos]
  }

  lemma WalkStepTracks(prg: Prg, w: Walk, p: Pair, pos: nat, right: bool, n: nat)
    requires OnPath(p, pos) && Tracks(w, p, pos) && n <= 2 * |p.a.blocks|
    ensures var q := StepPair(prg, p, n, WalkCorrection(prg, w, right));
      OnPath(q, Child(pos, right)) && Tracks(WalkStep(prg, w, right), q, Child(pos, right))
  {
  }

  /** The top-level blocks agree except where the path starts; there the walk
      starts with both parties' blocks and opposite bits. */
  ghost predicate TopsAgree(topsA: seq<Block>, topsB: seq<Block>, top: Walk, pos: nat) {
    && |topsA| == |topsB|
    && (forall i :: 0 <= i < |topsA| && i != pos ==> topsA[i] == topsB[i])
    && (pos < |topsA| ==>
          top == Walk(topsA[pos], topsB[pos], Lsb(topsA[pos]), Lsb(topsB[pos])) && top.bitA != top.bitB)
  }

  function ExpandedPair(prg: Prg, topsA: seq<Block>, topsB: seq<Block>, size: nat, start: nat,
                        cs: seq<Correction>, k: nat): Pair
    requires size >= 1 && start <= k <= EndLevel(size) && k - start <= |cs|
    requires |topsA| == |topsB| == Width(size, EndLevel(size), start)
  {
    Pair(Expanded(prg, topsA, size, start, cs, k), Expanded(prg, topsB, size, start, cs, k))
  }

  /** Level k: the two expansions agree off the path and the walk stands on it. */
  ghost predicate Refined(prg: Prg, topsA: seq<Block>, topsB: seq<Block>, top: Walk, size: nat,
                          start: nat, index: nat, cs: seq<Correction>, k: nat)
    requires size >= 1 && start <= k <= EndLevel(size) && k - start <= |cs|
    requires |topsA| == |topsB| == Width(size, EndLevel(size), start)
  {
    var p := ExpandedPair(prg, topsA, topsB, size, start, cs, k);
    var pos := PathAt(index, EndLevel(size), k);
    OnPath(p, pos) && Tracks(WalkAt(prg, top, index, EndLevel(size), start, k), p, pos)
  }

  lemma WalkRefinesTop(prg: Prg, topsA: seq<Block>, topsB: seq<Block>, top: Walk, size: nat,
                       start: nat, index: nat, cs: seq<Correction>)
    requires size >= 1 && start <= EndLevel(size)
    requires |topsA| == Width(size, EndLevel(size), start)
    requires TopsAgree(topsA, topsB, top, PathAt(index, EndLevel(size), start))
    ensures Refined(prg, topsA, topsB, top, size, start, index, cs, start)
  {
  }

  lemma WalkRefinesStep(prg: Prg, topsA: seq<Block>, topsB: seq<Block>, top: Walk, size: nat,
                        start: nat, index: nat, cs: seq<Correction>, k: nat)
    requires size >= 1 && start < k <= EndLevel(size)
    requires |topsA| == |topsB| == Width(size, EndLevel(size), start)
    requires ArePublished(cs, prg, top, index, EndLevel(size), start)
    requires Refined(prg, topsA, topsB, top, size, start, index, cs, k - 1)
    ensures Refined(prg, topsA, topsB, top, size, start, index, cs, k)
  {
    var e := EndLevel(size);
    var w, p := WalkAt(prg, top, index, e, start, k - 1), ExpandedPair(prg, topsA, topsB, size, start, cs, k - 1);
    var right, n := StepsRight(index, e, k), Width(size, e, k);
    assert cs[k - start - 1] == WalkCorrection(prg, w, right);
    WalkStepTracks(prg, w, p, PathAt(index, e, k - 1), right, n);
  }

  /** At every level the online walk refines the two full expansions that are
      driven by its published corrections, and these agree off the path. */
  lemma {:induction false} WalkRefines(prg: Prg, topsA: seq<Block>, topsB: seq<Block>, top: Walk, size: nat,
                                       start: nat, index: nat, cs: seq<Correction>, k: nat)
    requires size >= 1 && start <= k <= EndLevel(size)
    requires |topsA| == |topsB| == Width(size, EndLevel(size), start)
    requires ArePublished(cs, prg, top, index, EndLevel(size), start)
    requires Refined(prg, topsA, topsB, top, size, start, index, cs, start)
    ensures Refined(prg, topsA, topsB, top, size, start, index, cs, k)
    decreases k
  {
    hide *;
    if k > start {
      WalkRefines(prg, topsA, topsB, top, size, start, index, cs, k - 1);
      WalkRefinesStep(prg, topsA, topsB, top, size, start, index, cs, k);
    }
  }

  /** At the leaves: unit bit vector and block difference at index, when the
      tree has that leaf; all equal otherwise. */
  lemma WalkResult(prg: Prg, topsA: seq<Block>, topsB: seq<Block>, top: Walk, size: nat, start: nat, index: nat,
                   cs: seq<Correction>)
    requires size >= 1 && start <= EndLevel(size)
    requires |topsA| == Width(size, EndLevel(size), start)
    requires TopsAgree(topsA, topsB, top, PathAt(index, EndLevel(size), start))
    requires ArePublished(cs, prg, top, index, EndLevel(size), start)
    ensures var p := ExpandedPair(prg, topsA, topsB, size, start, cs, EndLevel(size));
            var w := WalkAt(prg, top, index, EndLevel(size), start, EndLevel(size));
      && IsLevel(p.a, size) && IsLevel(p.b, size)
      && OnPath(p, index)
      && (index < size ==> Xor(w.a, w.b) == Xor(p.a.blocks[index], p.b.blocks[index]))
  {
    WalkRefinesTop(prg, topsA, topsB, top, size, start, index, cs);
    WalkRefines(prg, topsA, topsB, top, size, start, index, cs, EndLevel(size));
  }
}
