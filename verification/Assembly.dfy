/** Assembling one vector over the whole domain from per-row outputs: every
    position of every row is XORed into the domain position the row names. */
module Assembly {
  import opened Blocks
  import opened DpfWithBeta

  /** What one position of an output vector holds. */
  datatype Leaf = Leaf(bit: bool, value: Block)

  const NOTHING: Leaf := Leaf(false, ZERO)

  function LeafXor(a: Leaf, b: Leaf): Leaf {
    Leaf(a.bit != b.bit, Xor(a.value, b.value))
  }

  lemma LeafSwap(a: Leaf, b: Leaf, c: Leaf, d: Leaf)
    ensures LeafXor(LeafXor(a, b), LeafXor(c, d)) == LeafXor(LeafXor(a, c), LeafXor(b, d))
  {
  }

  predicate Fits(row: seq<int>, s: Share) {
    |s.bits| == |s.values| == |row|
  }

  /** Position x after the first n entries of a row were added to acc. */
  function AddRow(acc: Leaf, row: seq<int>, s: Share, x: int, n: nat): Leaf
    requires Fits(row, s) && n <= |row|
  {
    if n == 0 then acc
    else
      var prev := AddRow(acc, row, s, x, n - 1);
      if row[n - 1] == x then LeafXor(prev, Leaf(s.bits[n - 1], s.values[n - 1])) else prev
  }

  /** The entries of a row that name x. */
  function Naming(row: seq<int>, x: int): set<nat> {
    set j: nat | j < |row| && row[j] == x
  }

  /** One party's value after a row: the XOR of all entries that name the
      position is added. */
  lemma {:induction false} AddRowValues(acc: Leaf, row: seq<int>, s: Share, x: int, n: nat)
    requires Fits(row, s) && n <= |row|
    ensures AddRow(acc, row, s, x, n).value == Xor(acc.value, XorWhere(s.values[..n], Naming(row, x)))
  {
    hide Xor;
    if n == 0 {
      XorZero(acc.value);
    } else {
      AddRowValues(acc, row, s, x, n - 1);
      assert s.values[..n][..n - 1] == s.values[..n - 1];
      XorAssoc(acc.value, XorWhere(s.values[..n - 1], Naming(row, x)), s.values[n - 1]);
    }
  }

  /** The set entries among the first n that name x. */
  function SetEntries(row: seq<int>, s: Share, x: int, n: nat): set<nat>
    requires Fits(row, s) && n <= |row|
  {
    set j: nat | j < n && row[j] == x && s.bits[j]
  }

  /** One party's bit after a row: it is flipped once for every set entry that
      names the position. */
  lemma {:induction false} AddRowBits(acc: Leaf, row: seq<int>, s: Share, x: int, n: nat)
    requires Fits(row, s) && n <= |row|
    ensures AddRow(acc, row, s, x, n).bit == (acc.bit != (|SetEntries(row, s, x, n)| % 2 == 1))
  {
    hide Xor;
    if n > 0 {
      AddRowBits(acc, row, s, x, n - 1);
      var before := SetEntries(row, s, x, n - 1);
      if row[n - 1] == x && s.bits[n - 1] {
        assert SetEntries(row, s, x, n) == before + {n - 1};
      } else {
        assert SetEntries(row, s, x, n) == before;
      }
    }
  }

  ghost predicate AllFit(rows: seq<seq<int>>, shares: seq<Share>) {
    |shares| == |rows| && forall i :: 0 <= i < |rows| ==> Fits(rows[i], shares[i])
  }

  /** Position x after the first m rows were added to acc. */
  ghost function AddRows(acc: Leaf, rows: seq<seq<int>>, shares: seq<Share>, x: int, m: nat): Leaf
    requires AllFit(rows, shares) && m <= |rows|
  {
    if m == 0 then acc
    else AddRow(AddRows(acc, rows, shares, x, m - 1), rows[m - 1], shares[m - 1], x, |rows[m - 1]|)
  }

  function At(bits: seq<bool>, values: seq<Block>, x: nat): Leaf
    requires x < |bits| && x < |values|
  {
    Leaf(bits[x], values[x])
  }

  /** The in-place scatter of one row. */
  method ScatterRow(bits: array<bool>, values: array<Block>, row: seq<int>, s: Share)
    requires bits.Length == values.Length && Fits(row, s)
    requires forall j :: 0 <= j < |row| ==> 0 <= row[j] < bits.Length
    modifies bits, values
    ensures forall x :: 0 <= x < bits.Length ==>
      At(bits[..], values[..], x) == AddRow(At(old(bits[..]), old(values[..]), x), row, s, x, |row|)
  {
    hide Xor;
    for j := 0 to |row|
      invariant forall x :: 0 <= x < bits.Length ==>
        Leaf(bits[x], values[x]) == AddRow(At(old(bits[..]), old(values[..]), x), row, s, x, j)
    {
      var position := row[j];
      bits[position] := bits[position] != s.bits[j];
      values[position] := Xor(values[position], s.values[j]);
    }
  }

  /** The scatter of all rows, one after the other. */
  method Scatter(bits: array<bool>, values: array<Block>, rows: seq<seq<int>>, shares: seq<Share>)
    requires bits.Length == values.Length && AllFit(rows, shares)
    requires forall i, j :: 0 <= i < |rows| && 0 <= j < |rows[i]| ==> 0 <= rows[i][j] < bits.Length
    modifies bits, values
    ensures forall x :: 0 <= x < bits.Length ==>
      At(bits[..], values[..], x) == AddRows(At(old(bits[..]), old(values[..]), x), rows, shares, x, |rows|)
  {
    hide Xor, AddRow;
    for i := 0 to |rows|
      invariant forall x :: 0 <= x < bits.Length ==>
        At(bits[..], values[..], x) == AddRows(At(old(bits[..]), old(values[..]), x), rows, shares, x, i)
    {
      ScatterRow(bits, values, rows[i], shares[i]);
    }
  }

  // ---- Both parties together ----

  /** A row whose two shares combine to (true, beta) at entry idx and to nothing
      elsewhere; idx is -1 for a row without a point. */
  ghost predicate PointRow(row: seq<int>, a: Share, b: Share, idx: int, beta: Block) {
    && Fits(row, a) && Fits(row, b)
    && forall j :: 0 <= j < |row| ==>
         LeafXor(Leaf(a.bits[j], a.values[j]), Leaf(b.bits[j], b.values[j]))
         == if j == idx then Leaf(true, beta) else NOTHING
  }

  lemma LeafNothing(a: Leaf)
    ensures LeafXor(a, NOTHING) == a && LeafXor(NOTHING, a) == a
  {
    hide Xor;
    XorZero(a.value);
  }

  /** Scattering commutes with combining: both parties' sums differ by the one
      point of the row, if its entry is for x. */
  lemma {:induction false} AddPointRow(accA: Leaf, accB: Leaf, row: seq<int>, a: Share, b: Share, idx: int,
                                       beta: Block, x: int, n: nat)
    requires PointRow(row, a, b, idx, beta) && n <= |row| && idx < |row|
    ensures LeafXor(AddRow(accA, row, a, x, n), AddRow(accB, row, b, x, n))
         == if 0 <= idx < n && row[idx] == x then LeafXor(LeafXor(accA, accB), Leaf(true, beta))
            else LeafXor(accA, accB)
  {
    hide LeafXor;
    if n > 0 {
      AddPointRow(accA, accB, row, a, b, idx, beta, x, n - 1);
      var prevA, prevB := AddRow(accA, row, a, x, n - 1), AddRow(accB, row, b, x, n - 1);
      LeafSwap(prevA, Leaf(a.bits[n - 1], a.values[n - 1]), prevB, Leaf(b.bits[n - 1], b.values[n - 1]));
      LeafNothing(LeafXor(prevA, prevB));
    }
  }

  /** Rows, their shares, and the point of each row. */
  ghost predicate PointRows(rows: seq<seq<int>>, a: seq<Share>, b: seq<Share>, idxs: seq<int>, betas: seq<Block>) {
    && |rows| == |a| == |b| == |idxs| == |betas|
    && forall i :: 0 <= i < |rows| ==> -1 <= idxs[i] < |rows[i]| && PointRow(rows[i], a[i], b[i], idxs[i], betas[i])
  }

  /** The domain position that row i's point is for. */
  predicate PointsAt(rows: seq<seq<int>>, idxs: seq<int>, i: nat, x: int)
    requires i < |rows| && i < |idxs|
  {
    0 <= idxs[i] < |rows[i]| && rows[i][idxs[i]] == x
  }

  /** No row points at x: the combined vectors hold nothing there. */
  lemma {:induction false} NobodyPoints(rows: seq<seq<int>>, a: seq<Share>, b: seq<Share>, idxs: seq<int>,
                                        betas: seq<Block>, x: int, m: nat)
    requires PointRows(rows, a, b, idxs, betas) && m <= |rows|
    requires forall i :: 0 <= i < m ==> !PointsAt(rows, idxs, i, x)
    ensures AllFit(rows, a) && AllFit(rows, b)
    ensures LeafXor(AddRows(NOTHING, rows, a, x, m), AddRows(NOTHING, rows, b, x, m)) == NOTHING
  {
    hide LeafXor, AddRow;
    if m == 0 {
      LeafNothing(NOTHING);
    } else {
      NobodyPoints(rows, a, b, idxs, betas, x, m - 1);
      assert !PointsAt(rows, idxs, m - 1, x);
      AddPointRow(AddRows(NOTHING, rows, a, x, m - 1), AddRows(NOTHING, rows, b, x, m - 1),
                  rows[m - 1], a[m - 1], b[m - 1], idxs[m - 1], betas[m - 1], x, |rows[m - 1]|);
    }
  }

  /** Exactly row owner points at x: the combined vectors hold its value there. */
  lemma {:induction false} OneRowPoints(rows: seq<seq<int>>, a: seq<Share>, b: seq<Share>, idxs: seq<int>,
                                        betas: seq<Block>, x: int, owner: nat, m: nat)
    requires PointRows(rows, a, b, idxs, betas) && owner < m <= |rows|
    requires forall i :: 0 <= i < |rows| ==> (PointsAt(rows, idxs, i, x) <==> i == owner)
    ensures AllFit(rows, a) && AllFit(rows, b)
    ensures LeafXor(AddRows(NOTHING, rows, a, x, m), AddRows(NOTHING, rows, b, x, m)) == Leaf(true, betas[owner])
  {
    hide LeafXor, AddRow;
    assert PointsAt(rows, idxs, m - 1, x) <==> m - 1 == owner;
    if owner == m - 1 {
      NobodyPoints(rows, a, b, idxs, betas, x, m - 1);
      LeafNothing(Leaf(true, betas[owner]));
    } else {
      OneRowPoints(rows, a, b, idxs, betas, x, owner, m - 1);
    }
    AddPointRow(AddRows(NOTHING, rows, a, x, m - 1), AddRows(NOTHING, rows, b, x, m - 1),
                rows[m - 1], a[m - 1], b[m - 1], idxs[m - 1], betas[m - 1], x, |rows[m - 1]|);
  }

  // ---- Stray flips of the second party ----

  ghost predicate AllFlipsFit(rows: seq<seq<int>>, stales: nat -> Stale) {
    forall i :: 0 <= i < |rows| ==> FlipFits(stales(i), |rows[i]|)
  }

  /** Whether the stale copies of the first m runs flip the bit of domain
      position x an odd number of times. */
  ghost predicate OddFlips(rows: seq<seq<int>>, stales: nat -> Stale, x: int, m: nat)
    requires m <= |rows| && AllFlipsFit(rows, stales)
  {
    m > 0 && OddFlips(rows, stales, x, m - 1)
             != (Misfires(stales(m - 1)) && rows[m - 1][stales(m - 1).position] == x)
  }

  /** The shares without the stray flips. */
  ghost function AllUndone(rows: seq<seq<int>>, shares: seq<Share>, stales: nat -> Stale): seq<Share>
    requires AllFit(rows, shares) && AllFlipsFit(rows, stales)
  {
    seq(|rows|, i requires 0 <= i < |rows| && AllFit(rows, shares) && AllFlipsFit(rows, stales) =>
      Undone(shares[i], stales(i)))
  }

  lemma {:induction false} FlipRow(acc: Leaf, acc': Leaf, row: seq<int>, s: Share, stale: Stale, x: int, n: nat)
    requires Fits(row, s) && FlipFits(stale, |row|) && n <= |row| && acc.value == acc'.value
    ensures Fits(row, Undone(s, stale))
    ensures var r, r' := AddRow(acc, row, s, x, n), AddRow(acc', row, Undone(s, stale), x, n);
      && r.value == r'.value
      && (r.bit != r'.bit)
         == ((acc.bit != acc'.bit) != (Misfires(stale) && stale.position < n && row[stale.position] == x))
  {
    hide Xor;
    if n > 0 {
      FlipRow(acc, acc', row, s, stale, x, n - 1);
    }
  }

  /** A stray flip moves through the scatter: it changes one bit of the
      assembled vector, and two at the same position cancel. */
  lemma {:induction false} FlipRows(rows: seq<seq<int>>, shares: seq<Share>, stales: nat -> Stale, x: int, m: nat)
    requires AllFit(rows, shares) && AllFlipsFit(rows, stales) && m <= |rows|
    ensures AllFit(rows, AllUndone(rows, shares, stales))
    ensures var r, r' := AddRows(NOTHING, rows, shares, x, m),
                         AddRows(NOTHING, rows, AllUndone(rows, shares, stales), x, m);
      r.value == r'.value && (r.bit != r'.bit <==> OddFlips(rows, stales, x, m))
  {
    hide AddRow;
    if m > 0 {
      FlipRows(rows, shares, stales, x, m - 1);
      FlipRow(AddRows(NOTHING, rows, shares, x, m - 1),
              AddRows(NOTHING, rows, AllUndone(rows, shares, stales), x, m - 1),
              rows[m - 1], shares[m - 1], stales(m - 1), x, |rows[m - 1]|);
    }
  }

  /** The vectors the shares of all rows add up to. */
  ghost function Assembled(size: nat, rows: seq<seq<int>>, shares: seq<Share>): (out: Share)
    requires AllFit(rows, shares)
    ensures |out.bits| == |out.values| == size
    ensures forall x :: 0 <= x < size ==> At(out.bits, out.values, x) == AddRows(NOTHING, rows, shares, x, |rows|)
  {
    Share(seq(size, x requires AllFit(rows, shares) => AddRows(NOTHING, rows, shares, x, |rows|).bit),
          seq(size, x requires AllFit(rows, shares) => AddRows(NOTHING, rows, shares, x, |rows|).value))
  }
}
