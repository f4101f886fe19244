/** The two-party tree behind a distributed point function, level by level.
    Each party holds a level of blocks and control bits; both apply the same
    correction to the same children. */
module DpfTree {
  import opened Blocks
  import opened TreeShape

  /** The length-doubling generator: one function per key. */
  datatype Prg = Prg(left: Block -> Block, right: Block -> Block)

  datatype Level = Level(blocks: seq<Block>, bits: seq<bool>)

  /** What both parties learn per level: the block Z and two advice bits. */
  datatype Correction = Correction(z: Block, left: bool, right: bool)

  datatype Pair = Pair(a: Level, b: Level)

  predicate IsLevel(lv: Level, n: nat) {
    |lv.blocks| == n && |lv.bits| == n
  }

  function ChildAt(prg: Prg, parents: seq<Block>, i: nat): Block
    requires i < 2 * |parents|
  {
    if i % 2 == 0 then prg.left(parents[i / 2]) else prg.right(parents[i / 2])
  }

  function Children(prg: Prg, parents: seq<Block>, n: nat): (raw: seq<Block>)
    requires n <= 2 * |parents|
    ensures |raw| == n
  {
    seq(n, i requires 0 <= i < n => ChildAt(prg, parents, i))
  }

  function CorrectBlock(raw: Block, parentBit: bool, c: Correction): Block {
    if parentBit then Xor(raw, c.z) else raw
  }

  function CorrectBit(raw: Block, i: nat, parentBit: bool, c: Correction): bool {
    Lsb(raw) != (parentBit && if i % 2 == 0 then c.left else c.right)
  }

  function Correct(raw: seq<Block>, parentBits: seq<bool>, c: Correction): (lv: Level)
    requires |raw| <= 2 * |parentBits|
    ensures IsLevel(lv, |raw|)
  {
    Level(seq(|raw|, i requires 0 <= i < |raw| => CorrectBlock(raw[i], parentBits[i / 2], c)),
          seq(|raw|, i requires 0 <= i < |raw| => CorrectBit(raw[i], i, parentBits[i / 2], c)))
  }

  /** Only the bits of actual parents are looked at. */
  lemma CorrectPrefix(raw: seq<Block>, parentBits: seq<bool>, stored: seq<bool>, c: Correction)
    requires |raw| <= 2 * |parentBits| && parentBits <= stored
    ensures Correct(raw, stored, c) == Correct(raw, parentBits, c)
  {
  }

  /** What one party's level is: under a parent with a clear bit nothing is
      added and the control bit is the block's lowest bit; under a parent with
      a set bit Z is added to the block and the side's advice bit to the control bit. */
  lemma CorrectedLevel(raw: seq<Block>, parentBits: seq<bool>, c: Correction)
    requires |raw| <= 2 * |parentBits|
    ensures forall i :: 0 <= i < |raw| && !parentBits[i / 2] ==>
      Correct(raw, parentBits, c).blocks[i] == raw[i] && Correct(raw, parentBits, c).bits[i] == Lsb(raw[i])
    ensures forall i :: 0 <= i < |raw| && parentBits[i / 2] ==>
      && Correct(raw, parentBits, c).blocks[i] == Xor(raw[i], c.z)
      && Correct(raw, parentBits, c).bits[i] == (Lsb(raw[i]) != if i % 2 == 0 then c.left else c.right)
  {
  }

  /** Without a set parent bit the correction is ignored altogether. */
  lemma UncorrectedLevel(raw: seq<Block>, parentBits: seq<bool>, c: Correction)
    requires |raw| <= 2 * |parentBits| && forall i :: 0 <= i < |parentBits| ==> !parentBits[i]
    ensures Correct(raw, parentBits, c).blocks == raw
    ensures forall i :: 0 <= i < |raw| ==> Correct(raw, parentBits, c).bits[i] == Lsb(raw[i])
  {
  }

  lemma ChildrenOfParents(prg: Prg, parents: seq<Block>, n: nat)
    requires n <= 2 * |parents|
    ensures forall j :: 0 <= j < n ==>
      Children(prg, parents, n)[j] == if j % 2 == 0 then prg.left(parents[j / 2]) else prg.right(parents[j / 2])
  {
  }

  function NextLevel(prg: Prg, lv: Level, n: nat, c: Correction): (next: Level)
    requires n <= 2 * |lv.blocks| && |lv.bits| == |lv.blocks|
    ensures IsLevel(next, n)
  {
    Correct(Children(prg, lv.blocks, n), lv.bits, c)
  }

  /** Both parties hold the same blocks and bits except at pos, where the
      control bits are opposite.  A position beyond the level leaves no exception. */
  ghost predicate OnPath(p: Pair, pos: nat) {
    && IsLevel(p.a, |p.a.blocks|) && IsLevel(p.b, |p.a.blocks|)
    && (forall i :: 0 <= i < |p.a.blocks| && i != pos ==>
          p.a.blocks[i] == p.b.blocks[i] && p.a.bits[i] == p.b.bits[i])
    && (pos < |p.a.blocks| ==> p.a.bits[pos] != p.b.bits[pos])
  }

  /** The correction that silences the child the path leaves.  When that child
      is a right child the truncated tree does not have, only the left child's
      bit is constrained. */
  predicate Silences(c: Correction, diffL: Block, diffR: Block, right: bool, hasRight: bool) {
    && (right ==> c.z == diffL)
    && (!right && hasRight ==> c.z == diffR)
    && c.left == (Lsb(diffL) == right)
    && (hasRight ==> c.right == (Lsb(diffR) != right))
  }

  function PathDiffs(prg: Prg, x: Block, y: Block): (Block, Block) {
    (Xor(prg.left(x), prg.left(y)), Xor(prg.right(x), prg.right(y)))
  }

  predicate Fits(prg: Prg, p: Pair, pos: nat, right: bool, n: nat, c: Correction)
    requires |p.b.blocks| == |p.a.blocks|
  {
    pos < |p.a.blocks| ==>
      var (dl, dr) := PathDiffs(prg, p.a.blocks[pos], p.b.blocks[pos]);
      Silences(c, dl, dr, right, Child(pos, true) < n)
  }

  function StepPair(prg: Prg, p: Pair, n: nat, c: Correction): Pair
    requires |p.a.bits| == |p.a.blocks| == |p.b.blocks| == |p.b.bits| && n <= 2 * |p.a.blocks|
  {
    Pair(NextLevel(prg, p.a, n, c), NextLevel(prg, p.b, n, c))
  }

  /** One corrected child pair under the node on the path. */
  lemma SilencedChild(rawA: Block, rawB: Block, bitA: bool, bitB: bool, i: nat, c: Correction, onPath: bool)
    requires bitA != bitB
    requires !onPath ==> c.z == Xor(rawA, rawB)
    requires (if i % 2 == 0 then c.left else c.right) == (Lsb(Xor(rawA, rawB)) != onPath)
    ensures !onPath ==> CorrectBlock(rawA, bitA, c) == CorrectBlock(rawB, bitB, c)
    ensures (CorrectBit(rawA, i, bitA, c) != CorrectBit(rawB, i, bitB, c)) == onPath
  {
  }

  /** The relational invariant survives one level, on a full or truncated tree. */
  lemma StepKeepsPath(prg: Prg, p: Pair, pos: nat, right: bool, n: nat, c: Correction)
    requires OnPath(p, pos)
    requires n <= 2 * |p.a.blocks|
    requires Fits(prg, p, pos, right, n, c)
    ensures OnPath(StepPair(prg, p, n, c), Child(pos, right))
  {
    hide Xor, Lsb, CorrectBlock, CorrectBit;
    var q := StepPair(prg, p, n, c);
    var next := Child(pos, right);
    forall i | 0 <= i < n
      ensures i != next ==> q.a.blocks[i] == q.b.blocks[i] && q.a.bits[i] == q.b.bits[i]
      ensures i == next ==> q.a.bits[i] != q.b.bits[i]
    {
      var ra, rb := ChildAt(prg, p.a.blocks, i), ChildAt(prg, p.b.blocks, i);
      if i / 2 == pos {
        SilencedChild(ra, rb, p.a.bits[pos], p.b.bits[pos], i, c, i == next);
      }
    }
  }

  // ---- Accumulators: corrections computed from sums over whole levels ----

  function Evens(n: nat): set<nat> {
    set i | 0 <= i < n && i % 2 == 0
  }

  function Odds(n: nat): set<nat> {
    set i | 0 <= i < n && i % 2 == 1
  }

  function AccLeft(raw: seq<Block>): Block {
    XorWhere(raw, Evens(|raw|))
  }

  function AccRight(raw: seq<Block>): Block {
    XorWhere(raw, Odds(|raw|))
  }

  function AccAll(raw: seq<Block>): Block {
    XorWhere(raw, Evens(|raw|) + Odds(|raw|))
  }

  /** The accumulators are plain sums: one more block is added to the sum of
      its side and to the sum of all. */
  lemma AccumulatorsAppend(raw: seq<Block>, x: Block)
    ensures AccLeft([]) == AccRight([]) == AccAll([]) == ZERO
    ensures AccLeft(raw + [x]) == if |raw| % 2 == 0 then Xor(AccLeft(raw), x) else AccLeft(raw)
    ensures AccRight(raw + [x]) == if |raw| % 2 == 1 then Xor(AccRight(raw), x) else AccRight(raw)
    ensures AccAll(raw + [x]) == Xor(AccAll(raw), x)
  {
    var n := |raw|;
    assert (raw + [x])[..n] == raw;
    XorWhereAgree(raw, Evens(n + 1), Evens(n));
    XorWhereAgree(raw, Odds(n + 1), Odds(n));
    XorWhereAgree(raw, Evens(n + 1) + Odds(n + 1), Evens(n) + Odds(n));
  }

  function CorrectionFrom(diffL: Block, diffR: Block, right: bool): Correction {
    Correction(if right then diffL else diffR, Lsb(diffL) == right, Lsb(diffR) != right)
  }

  /** The correction both parties derive from their level-wide accumulators. */
  function PairCorrection(prg: Prg, p: Pair, n: nat, right: bool): Correction
    requires |p.a.blocks| == |p.b.blocks| && n <= 2 * |p.a.blocks|
  {
    var rawA, rawB := Children(prg, p.a.blocks, n), Children(prg, p.b.blocks, n);
    CorrectionFrom(Xor(AccLeft(rawA), AccLeft(rawB)), Xor(AccRight(rawA), AccRight(rawB)), right)
  }

  /** The accumulated sums differ between the parties by exactly the path
      node's two child differences; a missing right child contributes zero. */
  lemma AccumulatorsSeePath(prg: Prg, p: Pair, pos: nat, n: nat)
    requires OnPath(p, pos) && n <= 2 * |p.a.blocks|
    ensures var rawA, rawB := Children(prg, p.a.blocks, n), Children(prg, p.b.blocks, n);
      && Xor(AccLeft(rawA), AccLeft(rawB))
         == (if Child(pos, false) < n then PathDiffs(prg, p.a.blocks[pos], p.b.blocks[pos]).0 else ZERO)
      && Xor(AccRight(rawA), AccRight(rawB))
         == (if Child(pos, true) < n then PathDiffs(prg, p.a.blocks[pos], p.b.blocks[pos]).1 else ZERO)
  {
    var rawA, rawB := Children(prg, p.a.blocks, n), Children(prg, p.b.blocks, n);
    XorWhereDiff(rawA, rawB, Evens(n), Child(pos, false));
    XorWhereDiff(rawA, rawB, Odds(n), Child(pos, true));
  }

  lemma AccCorrectionFits(prg: Prg, p: Pair, pos: nat, right: bool, n: nat)
    requires OnPath(p, pos) && n <= 2 * |p.a.blocks|
    requires pos < |p.a.blocks| ==> Child(pos, false) < n
    ensures Fits(prg, p, pos, right, n, PairCorrection(prg, p, n, right))
  {
    AccumulatorsSeePath(prg, p, pos, n);
  }

  /** The sum of all leaves differs by the difference of the leaf on the path. */
  lemma LeafDifference(p: Pair, pos: nat)
    requires OnPath(p, pos)
    ensures Xor(AccAll(p.a.blocks), AccAll(p.b.blocks))
         == if pos < |p.a.blocks| then Xor(p.a.blocks[pos], p.b.blocks[pos]) else ZERO
  {
    XorWhereDiff(p.a.blocks, p.b.blocks, Evens(|p.a.blocks|) + Odds(|p.a.blocks|), pos);
  }
}
