/** Sixteen-byte blocks, the group they form under XOR, and XOR over selected
    positions of a sequence.  BLOCKSIZE and memblocksize are both 16. */
module Blocks {
  const BLOCK_SIZE: nat := 16

  type Block = b: seq<bv8> | |b| == BLOCK_SIZE witness [0, 0, 0, 0, 0, 0, 0, 0, 0, 0, 0, 0, 0, 0, 0, 0]

  const ZERO: Block := [0, 0, 0, 0, 0, 0, 0, 0, 0, 0, 0, 0, 0, 0, 0, 0]

  function ByteXor(a: bv8, b: bv8): bv8 {
    a ^ b
  }

  function Xor(a: Block, b: Block): Block {
    seq(BLOCK_SIZE, i requires 0 <= i < BLOCK_SIZE => ByteXor(a[i], b[i]))
  }

  /** The lowest bit of the first byte: every advice and control bit is read here. */
  predicate Lsb(a: Block) {
    ByteLsb(a[0])
  }

  predicate ByteLsb(a: bv8) {
    a & 1 == 1
  }

  /** XOR byte by byte, and the lowest bit as a number's parity. */
  lemma XorBytes(a: Block, b: Block)
    ensures forall i :: 0 <= i < BLOCK_SIZE ==> Xor(a, b)[i] == a[i] ^ b[i]
  {
  }

  lemma LsbIsParity(a: Block)
    ensures Lsb(a) <==> a[0] as nat % 2 == 1
  {
  }

  lemma ByteLaws(a: bv8, b: bv8, c: bv8)
    ensures ByteXor(ByteXor(a, b), c) == ByteXor(a, ByteXor(b, c))
    ensures ByteXor(a, b) == ByteXor(b, a)
    ensures ByteXor(a, a) == 0
    ensures ByteXor(a, 0) == a
    ensures ByteLsb(ByteXor(a, b)) == (ByteLsb(a) != ByteLsb(b))
  {
  }

  lemma XorAssoc(a: Block, b: Block, c: Block)
    ensures Xor(Xor(a, b), c) == Xor(a, Xor(b, c))
  {
  }

  lemma XorComm(a: Block, b: Block)
    ensures Xor(a, b) == Xor(b, a)
  {
  }

  lemma XorZero(a: Block)
    ensures Xor(a, ZERO) == a && Xor(ZERO, a) == a && Xor(a, a) == ZERO
  {
    forall i | 0 <= i < BLOCK_SIZE
      ensures Xor(a, ZERO)[i] == a[i] && Xor(a, a)[i] == 0
    {
      ByteLaws(a[i], 0, 0);
    }
    XorComm(a, ZERO);
  }

  lemma LsbLinear(a: Block, b: Block)
    ensures Lsb(Xor(a, b)) == (Lsb(a) != Lsb(b))
  {
  }

  /** (a ^ b) ^ (c ^ d) regrouped by columns. */
  lemma XorSwap(a: Block, b: Block, c: Block, d: Block)
    ensures Xor(Xor(a, b), Xor(c, d)) == Xor(Xor(a, c), Xor(b, d))
  {
  }

  /** XOR of the elements of s whose position is selected. */
  function XorWhere(s: seq<Block>, sel: set<nat>): Block {
    if s == [] then ZERO
    else
      var n := |s| - 1;
      var front := XorWhere(s[..n], sel);
      if n in sel then Xor(front, s[n]) else front
  }

  lemma {:induction false} XorWhereNone(s: seq<Block>, sel: set<nat>)
    requires forall i :: 0 <= i < |s| ==> i !in sel
    ensures XorWhere(s, sel) == ZERO
  {
    if s != [] {
      XorWhereNone(s[..|s| - 1], sel);
    }
  }

  /** Positions outside s do not matter. */
  lemma {:induction false} XorWhereAgree(s: seq<Block>, sel: set<nat>, sel': set<nat>)
    requires forall i :: 0 <= i < |s| ==> (i in sel <==> i in sel')
    ensures XorWhere(s, sel) == XorWhere(s, sel')
  {
    if s != [] {
      XorWhereAgree(s[..|s| - 1], sel, sel');
    }
  }

  /** The order in which positions are accumulated is irrelevant: one more
      position contributes exactly its element. */
  lemma {:induction false} XorWhereInsert(s: seq<Block>, sel: set<nat>, k: nat)
    requires k < |s| && k !in sel
    ensures XorWhere(s, sel + {k}) == Xor(XorWhere(s, sel), s[k])
  {
    var n := |s| - 1;
    var front := s[..n];
    if k == n {
      XorWhereAgree(front, sel, sel + {k});
    } else {
      XorWhereInsert(front, sel, k);
      assert front[k] == s[k];
      if n in sel {
        var f := XorWhere(front, sel);
        XorAssoc(f, s[k], s[n]);
        XorComm(s[k], s[n]);
        XorAssoc(f, s[n], s[k]);
      }
    }
  }

  /** Two sequences that agree off position pos have accumulated values that
      differ by exactly the difference at pos, when pos is selected. */
  lemma {:induction false} XorWhereDiff(s: seq<Block>, t: seq<Block>, sel: set<nat>, pos: nat)
    requires |s| == |t|
    requires forall i :: 0 <= i < |s| && i in sel && i != pos ==> s[i] == t[i]
    ensures Xor(XorWhere(s, sel), XorWhere(t, sel))
         == if pos < |s| && pos in sel then Xor(s[pos], t[pos]) else ZERO
  {
    if s == [] {
      XorZero(ZERO);
    } else {
      var n := |s| - 1;
      var s', t' := s[..n], t[..n];
      XorWhereDiff(s', t', sel, pos);
      if n in sel {
        XorSwap(XorWhere(s', sel), s[n], XorWhere(t', sel), t[n]);
        if n == pos {
          XorZero(Xor(s[n], t[n]));
        } else {
          XorZero(s[n]);
          XorZero(Xor(XorWhere(s', sel), XorWhere(t', sel)));
        }
      }
    }
  }
}
