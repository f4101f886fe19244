/** The loops that correct one level in place and write the next: a loop over
    groups of four parents whose iterations may run in any order, and a tail
    loop for what the groups leave of a truncated level. */
module LevelExpansion {
  import opened Blocks
  import opened Counting
  import opened DpfTree

  /** Parent i is corrected and its children, as far as the next level has
      them, are written. */
  ghost predicate NodeDone(lda: array<Block>, ldb: array<Block>, lba: array<bool>,
                           next: Level, kids: seq<Block>, i: nat)
    requires i < |next.blocks| && i < |next.bits|
    requires |next.blocks| <= lda.Length && |next.blocks| <= lba.Length && |kids| <= ldb.Length
    reads lda, ldb, lba
  {
    && lda[i] == next.blocks[i] && lba[i] == next.bits[i]
    && (2 * i < |kids| ==> ldb[2 * i] == kids[2 * i])
    && (2 * i + 1 < |kids| ==> ldb[2 * i + 1] == kids[2 * i + 1])
  }

  /** Control bits of parents ii .. ii + 3, from the uncorrected blocks; p is ii / 2. */
  method SetFourBits(lda: array<Block>, lba: array<bool>, lbb: array<bool>, p: nat, c: Correction)
    requires lba != lbb
    requires 2 * p + 4 <= lda.Length && 2 * p + 4 <= lba.Length && p + 2 <= lbb.Length
    modifies lba
    ensures lba[2 * p] == CorrectBit(lda[2 * p], 2 * p, lbb[p], c)
    ensures lba[2 * p + 1] == CorrectBit(lda[2 * p + 1], 2 * p + 1, lbb[p], c)
    ensures lba[2 * p + 2] == CorrectBit(lda[2 * p + 2], 2 * p + 2, lbb[p + 1], c)
    ensures lba[2 * p + 3] == CorrectBit(lda[2 * p + 3], 2 * p + 3, lbb[p + 1], c)
    ensures forall j :: 0 <= j < lba.Length && !(2 * p <= j < 2 * p + 4) ==> lba[j] == old(lba[j])
  {
    var ii := 2 * p;
    lba[ii] := Lsb(lda[ii]) != (lbb[p] && c.left);
    lba[ii + 1] := Lsb(lda[ii + 1]) != (lbb[p] && c.right);
    lba[ii + 2] := Lsb(lda[ii + 2]) != (lbb[p + 1] && c.left);
    lba[ii + 3] := Lsb(lda[ii + 3]) != (lbb[p + 1] && c.right);
  }

  /** Z is added to both children of node p of the level above if its control bit is set. */
  method CorrectPair(lda: array<Block>, lbb: array<bool>, p: nat, c: Correction)
    requires 2 * p + 2 <= lda.Length && p < lbb.Length
    modifies lda
    ensures lda[2 * p] == CorrectBlock(old(lda[2 * p]), lbb[p], c)
    ensures lda[2 * p + 1] == CorrectBlock(old(lda[2 * p + 1]), lbb[p], c)
    ensures forall j :: 0 <= j < lda.Length && !(2 * p <= j < 2 * p + 2) ==> lda[j] == old(lda[j])
  {
    if lbb[p] {
      lda[2 * p] := Xor(lda[2 * p], c.z);
      lda[2 * p + 1] := Xor(lda[2 * p + 1], c.z);
    }
  }

  /** Eight children from four parents, and the sums of the left and right ones. */
  method ExpandOct(prg: Prg, lda: array<Block>, ldb: array<Block>, ii: nat)
    returns (sumL: Block, sumR: Block)
    requires lda != ldb && ii + 4 <= lda.Length && 2 * ii + 8 <= ldb.Length
    modifies ldb
    ensures ldb[2 * ii] == prg.left(lda[ii]) && ldb[2 * ii + 1] == prg.right(lda[ii])
    ensures ldb[2 * ii + 2] == prg.left(lda[ii + 1]) && ldb[2 * ii + 3] == prg.right(lda[ii + 1])
    ensures ldb[2 * ii + 4] == prg.left(lda[ii + 2]) && ldb[2 * ii + 5] == prg.right(lda[ii + 2])
    ensures ldb[2 * ii + 6] == prg.left(lda[ii + 3]) && ldb[2 * ii + 7] == prg.right(lda[ii + 3])
    ensures forall j :: 0 <= j < ldb.Length && !(2 * ii <= j < 2 * ii + 8) ==> ldb[j] == old(ldb[j])
    ensures sumL == Xor(Xor(Xor(ldb[2 * ii], ldb[2 * ii + 2]), ldb[2 * ii + 4]), ldb[2 * ii + 6])
    ensures sumR == Xor(Xor(Xor(ldb[2 * ii + 1], ldb[2 * ii + 3]), ldb[2 * ii + 5]), ldb[2 * ii + 7])
  {
    hide Xor;
    ldb[2 * ii], ldb[2 * ii + 1] := prg.left(lda[ii]), prg.right(lda[ii]);
    ldb[2 * ii + 2], ldb[2 * ii + 3] := prg.left(lda[ii + 1]), prg.right(lda[ii + 1]);
    ldb[2 * ii + 4], ldb[2 * ii + 5] := prg.left(lda[ii + 2]), prg.right(lda[ii + 2]);
    ldb[2 * ii + 6], ldb[2 * ii + 7] := prg.left(lda[ii + 3]), prg.right(lda[ii + 3]);
    sumL := Xor(Xor(Xor(ldb[2 * ii], ldb[2 * ii + 2]), ldb[2 * ii + 4]), ldb[2 * ii + 6]);
    sumR := Xor(Xor(Xor(ldb[2 * ii + 1], ldb[2 * ii + 3]), ldb[2 * ii + 5]), ldb[2 * ii + 7]);
  }

  /** Parent j, whose raw block and parent bit are given, is corrected and its
      two children are written. */
  ghost predicate ParentDone(prg: Prg, lda: array<Block>, ldb: array<Block>, lba: array<bool>, j: nat,
                             raw: Block, parentBit: bool, c: Correction)
    requires j < lda.Length && j < lba.Length && 2 * j + 1 < ldb.Length
    reads lda, ldb, lba
  {
    && lda[j] == CorrectBlock(raw, parentBit, c) && lba[j] == CorrectBit(raw, j, parentBit, c)
    && ldb[2 * j] == prg.left(lda[j]) && ldb[2 * j + 1] == prg.right(lda[j])
  }

  /** One iteration of the unrolled loop: parents ii .. ii + 3; p is ii / 2. */
  method ExpandFour(prg: Prg, lda: array<Block>, ldb: array<Block>, lba: array<bool>, lbb: array<bool>,
                    p: nat, c: Correction)
    returns (sumL: Block, sumR: Block)
    requires lda != ldb && lba != lbb
    requires 2 * p + 4 <= lda.Length && 2 * p + 4 <= lba.Length && p + 2 <= lbb.Length && 4 * p + 8 <= ldb.Length
    modifies lda, ldb, lba
    ensures ParentDone(prg, lda, ldb, lba, 2 * p, old(lda[2 * p]), lbb[p], c)
    ensures ParentDone(prg, lda, ldb, lba, 2 * p + 1, old(lda[2 * p + 1]), lbb[p], c)
    ensures ParentDone(prg, lda, ldb, lba, 2 * p + 2, old(lda[2 * p + 2]), lbb[p + 1], c)
    ensures ParentDone(prg, lda, ldb, lba, 2 * p + 3, old(lda[2 * p + 3]), lbb[p + 1], c)
    ensures forall j :: 0 <= j < lda.Length && !(2 * p <= j < 2 * p + 4) ==> lda[j] == old(lda[j])
    ensures forall j :: 0 <= j < lba.Length && !(2 * p <= j < 2 * p + 4) ==> lba[j] == old(lba[j])
    ensures forall j :: 0 <= j < ldb.Length && !(4 * p <= j < 4 * p + 8) ==> ldb[j] == old(ldb[j])
    ensures sumL == Xor(Xor(Xor(ldb[4 * p], ldb[4 * p + 2]), ldb[4 * p + 4]), ldb[4 * p + 6])
    ensures sumR == Xor(Xor(Xor(ldb[4 * p + 1], ldb[4 * p + 3]), ldb[4 * p + 5]), ldb[4 * p + 7])
  {
    hide Xor, Lsb, CorrectBlock, CorrectBit;
    SetFourBits(lda, lba, lbb, p, c);
    CorrectPair(lda, lbb, p, c);
    CorrectPair(lda, lbb, p + 1, c);
    sumL, sumR := ExpandOct(prg, lda, ldb, 2 * p);
  }

  /** The control bit of node ii, from its uncorrected block. */
  method SetBit(lda: array<Block>, lba: array<bool>, lbb: array<bool>, ii: nat, c: Correction)
    requires lba != lbb && ii < lda.Length && ii < lba.Length && ii / 2 < lbb.Length
    modifies lba
    ensures lba[ii] == CorrectBit(lda[ii], ii, lbb[ii / 2], c)
    ensures forall j :: 0 <= j < lba.Length && j != ii ==> lba[j] == old(lba[j])
  {
    if ii % 2 == 0 {
      lba[ii] := Lsb(lda[ii]) != (lbb[ii / 2] && c.left);
    } else {
      lba[ii] := Lsb(lda[ii]) != (lbb[ii / 2] && c.right);
    }
  }

  /** One iteration of the tail loop: parent ii, with two, one or no children. */
  method ExpandOne(prg: Prg, lda: array<Block>, ldb: array<Block>, lba: array<bool>, lbb: array<bool>,
                   ii: nat, m: nat, c: Correction, accL: Block, accR: Block)
    returns (sumL: Block, sumR: Block)
    requires lda != ldb && lba != lbb
    requires ii < lda.Length && ii < lba.Length && ii / 2 < lbb.Length && m <= ldb.Length
    modifies lda, ldb, lba
    ensures lda[ii] == CorrectBlock(old(lda[ii]), lbb[ii / 2], c)
    ensures lba[ii] == CorrectBit(old(lda[ii]), ii, lbb[ii / 2], c)
    ensures if 2 * ii < m then ldb[2 * ii] == prg.left(lda[ii]) && sumL == Xor(accL, ldb[2 * ii]) else sumL == accL
    ensures if 2 * ii + 1 < m then ldb[2 * ii + 1] == prg.right(lda[ii]) && sumR == Xor(accR, ldb[2 * ii + 1])
            else sumR == accR
    ensures forall j :: 0 <= j < lda.Length && j != ii ==> lda[j] == old(lda[j])
    ensures forall j :: 0 <= j < lba.Length && j != ii ==> lba[j] == old(lba[j])
    ensures forall j :: 0 <= j < ldb.Length && !(2 * ii <= j < 2 * ii + 2 && j < m) ==> ldb[j] == old(ldb[j])
  {
    hide Xor, CorrectBit;
    sumL, sumR := accL, accR;
    SetBit(lda, lba, lbb, ii, c);
    if lbb[ii / 2] {
      lda[ii] := Xor(lda[ii], c.z);
    }
    if (ii + 1) * 2 <= m {
      ldb[ii * 2] := prg.left(lda[ii]);
      ldb[ii * 2 + 1] := prg.right(lda[ii]);
      sumL := Xor(sumL, ldb[ii * 2]);
      sumR := Xor(sumR, ldb[ii * 2 + 1]);
    } else if ii * 2 + 1 <= m {
      ldb[ii * 2] := prg.left(lda[ii]);
      sumL := Xor(sumL, ldb[ii * 2]);
    }
  }

  ghost predicate GroupDone(lda: array<Block>, ldb: array<Block>, lba: array<bool>,
                            next: Level, kids: seq<Block>, g: nat)
    requires 4 * g + 4 <= |next.blocks| <= lda.Length && |next.blocks| == |next.bits| <= lba.Length
    requires |kids| <= ldb.Length
    reads lda, ldb, lba
  {
    && NodeDone(lda, ldb, lba, next, kids, 4 * g) && NodeDone(lda, ldb, lba, next, kids, 4 * g + 1)
    && NodeDone(lda, ldb, lba, next, kids, 4 * g + 2) && NodeDone(lda, ldb, lba, next, kids, 4 * g + 3)
  }

  ghost predicate GroupRaw(lda: array<Block>, raw: seq<Block>, g: nat)
    requires 4 * g + 4 <= |raw| <= lda.Length
    reads lda
  {
    && lda[4 * g] == raw[4 * g] && lda[4 * g + 1] == raw[4 * g + 1]
    && lda[4 * g + 2] == raw[4 * g + 2] && lda[4 * g + 3] == raw[4 * g + 3]
  }

  lemma DoneParentIsNode(prg: Prg, lda: array<Block>, ldb: array<Block>, lba: array<bool>, j: nat,
                         raw: seq<Block>, parentBits: seq<bool>, c: Correction, m: nat)
    requires |raw| <= 2 * |parentBits| && j < |raw| && |raw| <= lda.Length && |raw| <= lba.Length
    requires m <= 2 * |raw| && m <= ldb.Length && 2 * j + 1 < ldb.Length
    requires ParentDone(prg, lda, ldb, lba, j, raw[j], parentBits[j / 2], c)
    ensures var next := Correct(raw, parentBits, c);
      NodeDone(lda, ldb, lba, next, Children(prg, next.blocks, m), j)
  {
  }

  /** Four more elements in one step of an accumulator. */
  lemma AccumulateFour(s: seq<Block>, sel: set<nat>, j: nat)
    requires j + 6 < |s| && j !in sel && j + 2 !in sel && j + 4 !in sel && j + 6 !in sel
    ensures Xor(XorWhere(s, sel), Xor(Xor(Xor(s[j], s[j + 2]), s[j + 4]), s[j + 6]))
         == XorWhere(s, sel + {j, j + 2, j + 4, j + 6})
  {
    hide Xor;
    var a := XorWhere(s, sel);
    XorWhereInsert(s, sel, j);
    XorWhereInsert(s, sel + {j}, j + 2);
    XorWhereInsert(s, sel + {j} + {j + 2}, j + 4);
    XorWhereInsert(s, sel + {j} + {j + 2} + {j + 4}, j + 6);
    assert sel + {j} + {j + 2} + {j + 4} + {j + 6} == sel + {j, j + 2, j + 4, j + 6};
    XorAssoc(a, Xor(Xor(s[j], s[j + 2]), s[j + 4]), s[j + 6]);
    XorAssoc(a, Xor(s[j], s[j + 2]), s[j + 4]);
    XorAssoc(a, s[j], s[j + 2]);
  }

  /** Children of one parity that belong to groups no longer left to do. */
  function Handled(todo: set<nat>, groups: nat, parity: nat): set<nat> {
    set j | 0 <= j < 8 * groups && j % 2 == parity && j / 8 !in todo
  }

  lemma NothingHandled(kids: seq<Block>, groups: nat)
    ensures XorWhere(kids, Handled(UpTo(groups), groups, 0)) == ZERO
    ensures XorWhere(kids, Handled(UpTo(groups), groups, 1)) == ZERO
  {
    XorWhereNone(kids, Handled(UpTo(groups), groups, 0));
    XorWhereNone(kids, Handled(UpTo(groups), groups, 1));
  }

  /** The four children of one parity in group g. */
  lemma InGroup(x: nat, g: nat, parity: nat)
    requires parity < 2
    ensures x / 8 == g && x % 2 == parity
       <==> x == 8 * g + parity || x == 8 * g + parity + 2 || x == 8 * g + parity + 4 || x == 8 * g + parity + 6
  {
    var r := x % 8;
    assert x == 8 * (x / 8) + r && x % 2 == r % 2;
  }

  lemma HandledGrows(todo: set<nat>, groups: nat, g: nat, parity: nat)
    requires g in todo && g < groups && parity < 2
    ensures var j := 8 * g + parity;
      && j !in Handled(todo, groups, parity) && j + 2 !in Handled(todo, groups, parity)
      && j + 4 !in Handled(todo, groups, parity) && j + 6 !in Handled(todo, groups, parity)
      && Handled(todo - {g}, groups, parity) == Handled(todo, groups, parity) + {j, j + 2, j + 4, j + 6}
  {
    var j := 8 * g + parity;
    var before, after := Handled(todo, groups, parity), Handled(todo - {g}, groups, parity);
    InGroup(j, g, parity);
    InGroup(j + 2, g, parity);
    InGroup(j + 4, g, parity);
    InGroup(j + 6, g, parity);
    forall x: nat
      ensures x in after <==> x in before + {j, j + 2, j + 4, j + 6}
    {
      InGroup(x, g, parity);
    }
  }

  lemma AccumulateGroup(kids: seq<Block>, todo: set<nat>, groups: nat, g: nat, parity: nat)
    requires g in todo && g < groups && 8 * groups <= |kids| && parity < 2
    ensures var j := 8 * g + parity;
      Xor(XorWhere(kids, Handled(todo, groups, parity)), Xor(Xor(Xor(kids[j], kids[j + 2]), kids[j + 4]), kids[j + 6]))
      == XorWhere(kids, Handled(todo - {g}, groups, parity))
  {
    hide Xor, XorWhere, Handled;
    var j, sel := 8 * g + parity, Handled(todo, groups, parity);
    HandledGrows(todo, groups, g, parity);
    AccumulateFour(kids, sel, j);
  }

  /** The nodes of one group. */
  method ExpandNodes(prg: Prg, lda: array<Block>, ldb: array<Block>, lba: array<bool>, lbb: array<bool>,
                     m: nat, c: Correction, g: nat, ghost raw: seq<Block>, ghost next: Level, ghost kids: seq<Block>)
    returns (sumL: Block, sumR: Block)
    requires lda != ldb && lba != lbb && g < m / 8
    requires |raw| == (m + 1) / 2 <= lda.Length && |raw| <= lba.Length && m <= ldb.Length
    requires (|raw| + 1) / 2 <= lbb.Length
    requires next == Correct(raw, lbb[..], c) && kids == Children(prg, next.blocks, m)
    requires GroupRaw(lda, raw, g)
    modifies lda, ldb, lba
    ensures GroupDone(lda, ldb, lba, next, kids, g)
    ensures forall j :: 0 <= j < lda.Length && !(4 * g <= j < 4 * g + 4) ==> lda[j] == old(lda[j])
    ensures forall j :: 0 <= j < lba.Length && !(4 * g <= j < 4 * g + 4) ==> lba[j] == old(lba[j])
    ensures forall j :: 0 <= j < ldb.Length && !(8 * g <= j < 8 * g + 8) ==> ldb[j] == old(ldb[j])
    ensures sumL == Xor(Xor(Xor(kids[8 * g], kids[8 * g + 2]), kids[8 * g + 4]), kids[8 * g + 6])
    ensures sumR == Xor(Xor(Xor(kids[8 * g + 1], kids[8 * g + 3]), kids[8 * g + 5]), kids[8 * g + 7])
  {
    hide Xor, Correct, Children, ParentDone;
    sumL, sumR := ExpandFour(prg, lda, ldb, lba, lbb, 2 * g, c);
    DoneParentIsNode(prg, lda, ldb, lba, 4 * g, raw, lbb[..], c, m);
    DoneParentIsNode(prg, lda, ldb, lba, 4 * g + 1, raw, lbb[..], c, m);
    DoneParentIsNode(prg, lda, ldb, lba, 4 * g + 2, raw, lbb[..], c, m);
    DoneParentIsNode(prg, lda, ldb, lba, 4 * g + 3, raw, lbb[..], c, m);
  }

  /** One group among the others, which it leaves alone. */
  method ExpandGroup(prg: Prg, lda: array<Block>, ldb: array<Block>, lba: array<bool>, lbb: array<bool>,
                     m: nat, c: Correction, g: nat, ghost raw: seq<Block>, ghost next: Level, ghost kids: seq<Block>)
    returns (sumL: Block, sumR: Block)
    requires lda != ldb && lba != lbb && g < m / 8
    requires |raw| == (m + 1) / 2 <= lda.Length && |raw| <= lba.Length && m <= ldb.Length
    requires (|raw| + 1) / 2 <= lbb.Length
    requires next == Correct(raw, lbb[..], c) && kids == Children(prg, next.blocks, m)
    requires GroupRaw(lda, raw, g)
    modifies lda, ldb, lba
    ensures GroupDone(lda, ldb, lba, next, kids, g)
    ensures forall h :: 0 <= h < m / 8 && h != g && old(GroupDone(lda, ldb, lba, next, kids, h)) ==>
              GroupDone(lda, ldb, lba, next, kids, h)
    ensures forall h :: 0 <= h < m / 8 && h != g && old(GroupRaw(lda, raw, h)) ==> GroupRaw(lda, raw, h)
    ensures forall j :: 4 * (m / 8) <= j < lda.Length ==> lda[j] == old(lda[j])
    ensures forall j :: 4 * (m / 8) <= j < lba.Length ==> lba[j] == old(lba[j])
    ensures forall j :: 8 * (m / 8) <= j < ldb.Length ==> ldb[j] == old(ldb[j])
    ensures sumL == Xor(Xor(Xor(kids[8 * g], kids[8 * g + 2]), kids[8 * g + 4]), kids[8 * g + 6])
    ensures sumR == Xor(Xor(Xor(kids[8 * g + 1], kids[8 * g + 3]), kids[8 * g + 5]), kids[8 * g + 7])
  {
    hide Xor, Correct, Children;
    sumL, sumR := ExpandNodes(prg, lda, ldb, lba, lbb, m, c, g, raw, next, kids);
  }

  lemma GroupsRaw(lda: array<Block>, raw: seq<Block>, groups: nat)
    requires 4 * groups <= |raw| <= lda.Length && lda[..|raw|] == raw
    ensures forall g :: 0 <= g < groups ==> GroupRaw(lda, raw, g)
  {
  }

  /** The loop over groups.  Any group that is left may come next, so the
      result does not depend on the order of the iterations. */
  method ExpandGroups(prg: Prg, lda: array<Block>, ldb: array<Block>, lba: array<bool>, lbb: array<bool>,
                      m: nat, c: Correction, ghost raw: seq<Block>, ghost next: Level, ghost kids: seq<Block>)
    returns (accL: Block, accR: Block)
    requires lda != ldb && lba != lbb
    requires |raw| == (m + 1) / 2 <= lda.Length && |raw| <= lba.Length && m <= ldb.Length
    requires (|raw| + 1) / 2 <= lbb.Length
    requires lda[..|raw|] == raw
    requires next == Correct(raw, lbb[..], c) && kids == Children(prg, next.blocks, m)
    modifies lda, ldb, lba
    ensures forall g :: 0 <= g < m / 8 ==> GroupDone(lda, ldb, lba, next, kids, g)
    ensures forall j :: 4 * (m / 8) <= j < lda.Length ==> lda[j] == old(lda[j])
    ensures forall j :: 4 * (m / 8) <= j < lba.Length ==> lba[j] == old(lba[j])
    ensures forall j :: 8 * (m / 8) <= j < ldb.Length ==> ldb[j] == old(ldb[j])
    ensures accL == XorWhere(kids, Handled({}, m / 8, 0)) && accR == XorWhere(kids, Handled({}, m / 8, 1))
  {
    hide Xor, XorWhere, Correct, Children, GroupDone, GroupRaw, Handled;
    accL, accR := ZERO, ZERO;
    var todo := UpTo(m / 8);
    GroupsRaw(lda, raw, m / 8);
    NothingHandled(kids, m / 8);
    while todo != {}
      invariant todo <= UpTo(m / 8)
      invariant forall g :: 0 <= g < m / 8 && g !in todo ==> GroupDone(lda, ldb, lba, next, kids, g)
      invariant forall g :: 0 <= g < m / 8 && g in todo ==> GroupRaw(lda, raw, g)
      invariant forall j :: 4 * (m / 8) <= j < lda.Length ==> lda[j] == old(lda[j])
      invariant forall j :: 4 * (m / 8) <= j < lba.Length ==> lba[j] == old(lba[j])
      invariant forall j :: 8 * (m / 8) <= j < ldb.Length ==> ldb[j] == old(ldb[j])
      invariant accL == XorWhere(kids, Handled(todo, m / 8, 0)) && accR == XorWhere(kids, Handled(todo, m / 8, 1))
    {
      var g :| g in todo;
      var sumL, sumR := ExpandGroup(prg, lda, ldb, lba, lbb, m, c, g, raw, next, kids);
      AccumulateGroup(kids, todo, m / 8, g, 0);
      AccumulateGroup(kids, todo, m / 8, g, 1);
      todo := todo - {g};
      accL, accR := Xor(accL, sumL), Xor(accR, sumR);
    }
  }

  /** Children of one parity written before parent ii is reached. */
  function Before(ii: nat, parity: nat): set<nat> {
    set j | 0 <= j < 2 * ii && j % 2 == parity
  }

  lemma BeforeGrows(kids: seq<Block>, ii: nat, parity: nat)
    requires parity < 2
    ensures XorWhere(kids, Before(ii + 1, parity))
         == if 2 * ii + parity < |kids| then Xor(XorWhere(kids, Before(ii, parity)), kids[2 * ii + parity])
            else XorWhere(kids, Before(ii, parity))
  {
    hide XorWhere, Xor, Before;
    var j := 2 * ii + parity;
    BeforeNext(ii, parity);
    if j < |kids| {
      XorWhereInsert(kids, Before(ii, parity), j);
    } else {
      XorWhereAgree(kids, Before(ii, parity) + {j}, Before(ii, parity));
    }
  }

  lemma BeforeNext(ii: nat, parity: nat)
    requires parity < 2
    ensures 2 * ii + parity !in Before(ii, parity)
    ensures Before(ii + 1, parity) == Before(ii, parity) + {2 * ii + parity}
  {
  }

  lemma HandledIsBefore(groups: nat)
    ensures Handled({}, groups, 0) == Before(4 * groups, 0)
    ensures Handled({}, groups, 1) == Before(4 * groups, 1)
  {
  }

  lemma BeforeIsAll(kids: seq<Block>, n: nat)
    requires |kids| <= 2 * n
    ensures XorWhere(kids, Before(n, 0)) == AccLeft(kids)
    ensures XorWhere(kids, Before(n, 1)) == AccRight(kids)
  {
    XorWhereAgree(kids, Before(n, 0), Evens(|kids|));
    XorWhereAgree(kids, Before(n, 1), Odds(|kids|));
  }

  lemma GroupsAreNodes(lda: array<Block>, ldb: array<Block>, lba: array<bool>,
                       next: Level, kids: seq<Block>, groups: nat)
    requires 4 * groups <= |next.blocks| <= lda.Length && |next.blocks| == |next.bits| <= lba.Length
    requires |kids| <= ldb.Length
    requires forall g :: 0 <= g < groups ==> GroupDone(lda, ldb, lba, next, kids, g)
    ensures forall i :: 0 <= i < 4 * groups ==> NodeDone(lda, ldb, lba, next, kids, i)
  {
    forall i | 0 <= i < 4 * groups ensures NodeDone(lda, ldb, lba, next, kids, i) {
      assert GroupDone(lda, ldb, lba, next, kids, i / 4);
      assert i == 4 * (i / 4) || i == 4 * (i / 4) + 1 || i == 4 * (i / 4) + 2 || i == 4 * (i / 4) + 3;
    }
  }

  /** One tail iteration, seen from the level it belongs to. */
  method ExpandTailNode(prg: Prg, lda: array<Block>, ldb: array<Block>, lba: array<bool>, lbb: array<bool>,
                        ii: nat, m: nat, c: Correction, accL: Block, accR: Block,
                        ghost raw: seq<Block>, ghost next: Level, ghost kids: seq<Block>)
    returns (sumL: Block, sumR: Block)
    requires lda != ldb && lba != lbb && ii < |raw|
    requires |raw| == (m + 1) / 2 <= lda.Length && |raw| <= lba.Length && m <= ldb.Length
    requires (|raw| + 1) / 2 <= lbb.Length
    requires next == Correct(raw, lbb[..], c) && kids == Children(prg, next.blocks, m)
    requires lda[ii] == raw[ii]
    modifies lda, ldb, lba
    ensures NodeDone(lda, ldb, lba, next, kids, ii)
    ensures forall i :: 0 <= i < |raw| && i != ii && old(NodeDone(lda, ldb, lba, next, kids, i)) ==>
              NodeDone(lda, ldb, lba, next, kids, i)
    ensures forall j :: ii < j < lda.Length ==> lda[j] == old(lda[j])
    ensures forall j :: ii < j < lba.Length ==> lba[j] == old(lba[j])
    ensures forall j :: m <= j < ldb.Length ==> ldb[j] == old(ldb[j])
    ensures sumL == if 2 * ii < m then Xor(accL, kids[2 * ii]) else accL
    ensures sumR == if 2 * ii + 1 < m then Xor(accR, kids[2 * ii + 1]) else accR
  {
    hide Xor;
    sumL, sumR := ExpandOne(prg, lda, ldb, lba, lbb, ii, m, c, accL, accR);
  }

  /** Both loops: the level is corrected in place, exactly the next level's m
      blocks are written, and the accumulators hold the sums of its left and
      right children. */
  method ExpandLevel(prg: Prg, lda: array<Block>, ldb: array<Block>, lba: array<bool>, lbb: array<bool>,
                     n: nat, m: nat, c: Correction)
    returns (accL: Block, accR: Block)
    requires lda != ldb && lba != lbb
    requires n == (m + 1) / 2 && n <= lda.Length && n <= lba.Length && m <= ldb.Length && (n + 1) / 2 <= lbb.Length
    modifies lda, ldb, lba
    ensures var next := Correct(old(lda[..n]), lbb[..], c);
      && lda[..n] == next.blocks && lba[..n] == next.bits
      && ldb[..m] == Children(prg, next.blocks, m)
    ensures forall j :: n <= j < lda.Length ==> lda[j] == old(lda[j])
    ensures forall j :: n <= j < lba.Length ==> lba[j] == old(lba[j])
    ensures forall j :: m <= j < ldb.Length ==> ldb[j] == old(ldb[j])
    ensures accL == AccLeft(ldb[..m]) && accR == AccRight(ldb[..m])
    ensures forall i :: 0 <= i < n && !lbb[i / 2] ==> lda[i] == old(lda[i]) && lba[i] == Lsb(old(lda[i]))
    ensures forall i :: 0 <= i < n && lbb[i / 2] ==>
      lda[i] == Xor(old(lda[i]), c.z) && lba[i] == (Lsb(old(lda[i])) != if i % 2 == 0 then c.left else c.right)
    ensures forall j :: 0 <= j < m ==> ldb[j] == if j % 2 == 0 then prg.left(lda[j / 2]) else prg.right(lda[j / 2])
  {
    hide Xor, XorWhere, GroupDone, Handled, Before, AccLeft, AccRight, NodeDone, Correct, Children;
    ghost var raw := lda[..n];
    ghost var next := Correct(raw, lbb[..], c);
    ghost var kids := Children(prg, next.blocks, m);
    accL, accR := ExpandGroups(prg, lda, ldb, lba, lbb, m, c, raw, next, kids);
    GroupsAreNodes(lda, ldb, lba, next, kids, m / 8);
    HandledIsBefore(m / 8);
    var ii := 4 * (m / 8);
    while ii < n
      invariant 4 * (m / 8) <= ii <= n
      invariant forall i :: 0 <= i < ii ==> NodeDone(lda, ldb, lba, next, kids, i)
      invariant forall j :: ii <= j < lda.Length ==> lda[j] == old(lda[j])
      invariant forall j :: ii <= j < lba.Length ==> lba[j] == old(lba[j])
      invariant forall j :: m <= j < ldb.Length ==> ldb[j] == old(ldb[j])
      invariant accL == XorWhere(kids, Before(ii, 0)) && accR == XorWhere(kids, Before(ii, 1))
    {
      BeforeGrows(kids, ii, 0);
      BeforeGrows(kids, ii, 1);
      accL, accR := ExpandTailNode(prg, lda, ldb, lba, lbb, ii, m, c, accL, accR, raw, next, kids);
      ii := ii + 1;
    }
    AllNodesDone(lda, ldb, lba, next, kids);
    BeforeIsAll(kids, n);
    CorrectedCells(lda[..n], lba[..n], raw, lbb[..], c);
    ChildrenOfParents(prg, lda[..n], m);
  }

  /** Corrected blocks and bits of a level, cell by cell. */
  lemma CorrectedCells(blocks: seq<Block>, bits: seq<bool>, raw: seq<Block>, parentBits: seq<bool>, c: Correction)
    requires |raw| <= 2 * |parentBits|
    requires blocks == Correct(raw, parentBits, c).blocks && bits == Correct(raw, parentBits, c).bits
    ensures |blocks| == |bits| == |raw|
    ensures forall i :: 0 <= i < |raw| && !parentBits[i / 2] ==> blocks[i] == raw[i] && bits[i] == Lsb(raw[i])
    ensures forall i :: 0 <= i < |raw| && parentBits[i / 2] ==>
      blocks[i] == Xor(raw[i], c.z) && bits[i] == (Lsb(raw[i]) != if i % 2 == 0 then c.left else c.right)
  {
    CorrectedLevel(raw, parentBits, c);
  }

  lemma AllNodesDone(lda: array<Block>, ldb: array<Block>, lba: array<bool>, next: Level, kids: seq<Block>)
    requires |next.blocks| <= lda.Length && |next.blocks| == |next.bits| <= lba.Length
    requires |kids| <= ldb.Length && |kids| <= 2 * |next.blocks|
    requires forall i :: 0 <= i < |next.blocks| ==> NodeDone(lda, ldb, lba, next, kids, i)
    ensures lda[..|next.blocks|] == next.blocks && lba[..|next.bits|] == next.bits && ldb[..|kids|] == kids
  {
    forall i | 0 <= i < |next.blocks| ensures lda[i] == next.blocks[i] && lba[i] == next.bits[i] {
      assert NodeDone(lda, ldb, lba, next, kids, i);
    }
    forall j | 0 <= j < |kids| ensures ldb[j] == kids[j] {
      assert NodeDone(lda, ldb, lba, next, kids, j / 2);
    }
  }

  // ---- The last level: correction only ----

  lemma AccumulateLeaf(s: seq<Block>, todo: set<nat>, i: nat)
    requires i in todo && i < |s|
    ensures XorWhere(s, UpTo(|s|) - (todo - {i})) == Xor(XorWhere(s, UpTo(|s|) - todo), s[i])
  {
    XorWhereInsert(s, UpTo(|s|) - todo, i);
    assert UpTo(|s|) - (todo - {i}) == (UpTo(|s|) - todo) + {i};
  }

  lemma AllLeaves(s: seq<Block>)
    ensures XorWhere(s, UpTo(|s|) - {}) == AccAll(s)
    ensures XorWhere(s, UpTo(|s|) - UpTo(|s|)) == ZERO
  {
    XorWhereAgree(s, UpTo(|s|) - {}, Evens(|s|) + Odds(|s|));
    XorWhereNone(s, UpTo(|s|) - UpTo(|s|));
  }

  method CopyLeaf(lda: array<Block>, ldb: array<Block>, lba: array<bool>, lbb: array<bool>, ii: nat, c: Correction)
    requires lda != ldb && lba != lbb
    requires ii < lda.Length && ii < ldb.Length && ii < lba.Length && ii / 2 < lbb.Length
    modifies ldb, lba
    ensures ldb[ii] == CorrectBlock(lda[ii], lbb[ii / 2], c) && lba[ii] == CorrectBit(lda[ii], ii, lbb[ii / 2], c)
    ensures forall j :: 0 <= j < ldb.Length && j != ii ==> ldb[j] == old(ldb[j])
    ensures forall j :: 0 <= j < lba.Length && j != ii ==> lba[j] == old(lba[j])
  {
    hide Xor, CorrectBit;
    SetBit(lda, lba, lbb, ii, c);
    if lbb[ii / 2] {
      ldb[ii] := Xor(lda[ii], c.z);
    } else {
      ldb[ii] := lda[ii];
    }
  }

  method CorrectLeaf(lda: array<Block>, lba: array<bool>, lbb: array<bool>, ii: nat, c: Correction)
    requires lba != lbb && ii < lda.Length && ii < lba.Length && ii / 2 < lbb.Length
    modifies lda, lba
    ensures lda[ii] == CorrectBlock(old(lda[ii]), lbb[ii / 2], c)
    ensures lba[ii] == CorrectBit(old(lda[ii]), ii, lbb[ii / 2], c)
    ensures forall j :: 0 <= j < lda.Length && j != ii ==> lda[j] == old(lda[j])
    ensures forall j :: 0 <= j < lba.Length && j != ii ==> lba[j] == old(lba[j])
  {
    hide Xor, CorrectBit;
    SetBit(lda, lba, lbb, ii, c);
    if lbb[ii / 2] {
      lda[ii] := Xor(lda[ii], c.z);
    }
  }

  /** Leaves are corrected while they are copied from one buffer to the other,
      in any order. */
  method FinishInto(lda: array<Block>, ldb: array<Block>, lba: array<bool>, lbb: array<bool>, n: nat, c: Correction)
    returns (acc: Block)
    requires lda != ldb && lba != lbb
    requires n <= lda.Length && n <= ldb.Length && n <= lba.Length && (n + 1) / 2 <= lbb.Length
    modifies ldb, lba
    ensures ldb[..n] == Correct(lda[..n], lbb[..], c).blocks
    ensures lba[..n] == Correct(lda[..n], lbb[..], c).bits
    ensures acc == AccAll(ldb[..n])
    ensures forall i :: 0 <= i < n && !lbb[i / 2] ==> ldb[i] == lda[i] && lba[i] == Lsb(lda[i])
    ensures forall i :: 0 <= i < n && lbb[i / 2] ==>
      ldb[i] == Xor(lda[i], c.z) && lba[i] == (Lsb(lda[i]) != if i % 2 == 0 then c.left else c.right)
  {
    ghost var next := Correct(lda[..n], lbb[..], c);
    hide Xor, XorWhere, AccAll, CorrectBit;
    acc := ZERO;
    var todo := UpTo(n);
    AllLeaves(next.blocks);
    while todo != {}
      invariant todo <= UpTo(n)
      invariant forall i :: 0 <= i < n && i !in todo ==> ldb[i] == next.blocks[i] && lba[i] == next.bits[i]
      invariant acc == XorWhere(next.blocks, UpTo(n) - todo)
    {
      var ii :| ii in todo;
      CopyLeaf(lda, ldb, lba, lbb, ii, c);
      acc := Xor(acc, ldb[ii]);
      AccumulateLeaf(next.blocks, todo, ii);
      todo := todo - {ii};
    }
    CorrectedCells(ldb[..n], lba[..n], lda[..n], lbb[..], c);
  }

  /** Leaves are corrected in place, in any order. */
  method FinishInPlace(lda: array<Block>, lba: array<bool>, lbb: array<bool>, n: nat, c: Correction)
    returns (acc: Block)
    requires lba != lbb
    requires n <= lda.Length && n <= lba.Length && (n + 1) / 2 <= lbb.Length
    modifies lda, lba
    ensures lda[..n] == Correct(old(lda[..n]), lbb[..], c).blocks
    ensures lba[..n] == Correct(old(lda[..n]), lbb[..], c).bits
    ensures acc == AccAll(lda[..n])
    ensures forall i :: 0 <= i < n && !lbb[i / 2] ==> lda[i] == old(lda[i]) && lba[i] == Lsb(old(lda[i]))
    ensures forall i :: 0 <= i < n && lbb[i / 2] ==>
      lda[i] == Xor(old(lda[i]), c.z) && lba[i] == (Lsb(old(lda[i])) != if i % 2 == 0 then c.left else c.right)
  {
    ghost var next := Correct(lda[..n], lbb[..], c);
    hide Xor, XorWhere, AccAll, CorrectBit;
    acc := ZERO;
    var todo := UpTo(n);
    AllLeaves(next.blocks);
    while todo != {}
      invariant todo <= UpTo(n)
      invariant forall i :: 0 <= i < n && i !in todo ==> lda[i] == next.blocks[i] && lba[i] == next.bits[i]
      invariant forall i :: 0 <= i < n && i in todo ==> lda[i] == old(lda[i])
      invariant acc == XorWhere(next.blocks, UpTo(n) - todo)
    {
      var ii :| ii in todo;
      CorrectLeaf(lda, lba, lbb, ii, c);
      acc := Xor(acc, lda[ii]);
      AccumulateLeaf(next.blocks, todo, ii);
      todo := todo - {ii};
    }
    CorrectedCells(lda[..n], lba[..n], old(lda[..n]), lbb[..], c);
  }
}
