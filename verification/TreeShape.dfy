/** Depth of the tree, number of nodes on each level of a truncated tree, and
    the position of the path to a leaf.  LOG2LL is the floor of the binary
    logarithm; shifts are written one bit at a time. */
module TreeShape {
  function Pow2(n: nat): (r: nat)
    ensures r >= 1
  {
    if n == 0 then 1 else 2 * Pow2(n - 1)
  }

  function Log2(n: nat): nat
    requires n >= 1
  {
    if n == 1 then 0 else 1 + Log2(n / 2)
  }

  function EndLevel(size: nat): nat
    requires size >= 1
  {
    Log2(size) + if Pow2(Log2(size)) < size then 1 else 0
  }

  /** n >> d */
  function ShiftRight(n: nat, d: nat): nat {
    if d == 0 then n else ShiftRight(n, d - 1) / 2
  }

  /** n halved d times, rounding up each time. */
  function CeilShift(n: nat, d: nat): nat {
    if d == 0 then n else (CeilShift(n, d - 1) + 1) / 2
  }

  /** The number of blocks on a level. */
  function Width(size: nat, endLevel: nat, level: nat): nat
    requires level <= endLevel
  {
    CeilShift(size, endLevel - level)
  }

  function PathAt(index: nat, endLevel: nat, level: nat): nat
    requires level <= endLevel
  {
    ShiftRight(index, endLevel - level)
  }

  /** (index >> (endLevel - level)) & 1 */
  predicate StepsRight(index: nat, endLevel: nat, level: nat)
    requires level <= endLevel
  {
    PathAt(index, endLevel, level) % 2 == 1
  }

  function Child(pos: nat, right: bool): nat {
    2 * pos + if right then 1 else 0
  }

  /** Where the walk that starts at the root stands on a level. */
  function WalkPosition(index: nat, endLevel: nat, level: nat): nat
    requires level <= endLevel
    decreases level
  {
    if level == 0 then 0 else Child(WalkPosition(index, endLevel, level - 1), StepsRight(index, endLevel, level))
  }

  // ---- Arithmetic ----

  lemma {:induction false} Log2Bounds(n: nat)
    requires n >= 1
    ensures Pow2(Log2(n)) <= n < 2 * Pow2(Log2(n))
  {
    if n > 1 {
      Log2Bounds(n / 2);
    }
  }

  /** The tree has exactly the depth it needs. */
  lemma EndLevelBounds(size: nat)
    requires size >= 2
    ensures EndLevel(size) >= 1
    ensures Pow2(EndLevel(size) - 1) < size <= Pow2(EndLevel(size))
  {
    Log2Bounds(size);
  }

  lemma DivideUnique(n: nat, d: nat, q: nat, r: nat)
    requires d > 0 && r < d && n == q * d + r
    ensures n / d == q && n % d == r
  {
    SameQuotient(d, n / d, n % d, q, r);
  }

  lemma SameQuotient(d: nat, q: int, r: nat, q': int, r': nat)
    requires r < d && r' < d
    requires q * d + r == q' * d + r'
    ensures q == q' && r == r'
  {
    var gap := q - q';
    assert gap * d == r' - r;
    if gap >= 1 {
      Grows(gap, d);
    } else if gap <= -1 {
      Grows(-gap, d);
    }
  }

  lemma Grows(k: int, d: nat)
    requires k >= 1
    ensures k * d >= d
  {
  }

  /** The quotient rounded up, by adding span - 1 first. */
  function CeilDiv(n: nat, span: nat): int
    requires span > 0
  {
    (n + span - 1) / span
  }

  /** Halving with rounding up, d times, is one division rounded up. */
  lemma {:induction false} CeilShiftIsCeilDivision(n: nat, d: nat)
    ensures CeilShift(n, d) == CeilDiv(n, Pow2(d))
  {
    if d > 0 {
      hide CeilDiv;
      CeilShiftIsCeilDivision(n, d - 1);
      CeilHalf(n, Pow2(d - 1));
    } else {
      DivideUnique(n, 1, n, 0);
    }
  }

  lemma CeilHalf(n: nat, span: nat)
    requires span > 0
    ensures CeilDiv(n, 2 * span) == (CeilDiv(n, span) + 1) / 2
  {
    var q, r := (n + span - 1) / span, (n + span - 1) % span;
    var h, g := (q + 1) / 2, (q + 1) % 2;
    assert n + 2 * span - 1 == (q + 1) * span + r;
    Regroup(q + 1, h, g, span);
    DivideUnique(n + 2 * span - 1, 2 * span, h, g * span + r);
  }

  lemma Regroup(q: nat, h: nat, g: nat, span: nat)
    requires q == 2 * h + g && g < 2
    ensures q * span == h * (2 * span) + g * span
    ensures 0 <= g * span <= span
  {
  }

  lemma {:induction false} ShiftIsDivision(n: nat, d: nat)
    ensures ShiftRight(n, d) == n / Pow2(d)
  {
    if d > 0 {
      ShiftIsDivision(n, d - 1);
      DivideTwice(n, Pow2(d - 1));
    }
  }

  lemma DivideTwice(n: nat, span: nat)
    requires span > 0
    ensures n / (2 * span) == (n / span) / 2
  {
    var q, r := n / span, n % span;
    var h, g := q / 2, q % 2;
    Regroup(q, h, g, span);
    DivideUnique(n, 2 * span, h, g * span + r);
  }

  lemma {:induction false} WidthBounds(size: nat, endLevel: nat, level: nat)
    requires level <= endLevel && size >= 1
    ensures 1 <= Width(size, endLevel, level) <= size
    decreases endLevel - level
  {
    if level < endLevel {
      WidthBounds(size, endLevel, level + 1);
    }
  }

  /** A tree of at least two leaves has one root and two nodes below it. */
  lemma WidthRoot(size: nat)
    requires size >= 2
    ensures EndLevel(size) >= 1
    ensures Width(size, EndLevel(size), 0) == 1 && Width(size, EndLevel(size), 1) == 2
  {
    EndLevelBounds(size);
    var e := EndLevel(size);
    var half := Pow2(e - 1);
    CeilShiftIsCeilDivision(size, e - 1);
    DivideUnique(size + half - 1, half, 2, size - half - 1);
  }

  /** The walk from the root follows the low endLevel bits of the index: the
      path position is the walk position below some higher bits. */
  lemma {:induction false} WalkFollowsLowBits(index: nat, endLevel: nat, level: nat) returns (high: nat)
    requires level <= endLevel
    ensures PathAt(index, endLevel, level) == high * Pow2(level) + WalkPosition(index, endLevel, level)
    ensures WalkPosition(index, endLevel, level) < Pow2(level)
    decreases level
  {
    if level == 0 {
      high := PathAt(index, endLevel, 0);
    } else {
      high := WalkFollowsLowBits(index, endLevel, level - 1);
      OneMoreBit(PathAt(index, endLevel, level), high, Pow2(level - 1), WalkPosition(index, endLevel, level - 1));
    }
  }

  lemma OneMoreBit(q: nat, high: nat, p: nat, w: nat)
    requires q / 2 == high * p + w && w < p
    ensures q == high * (2 * p) + Child(w, q % 2 == 1) && Child(w, q % 2 == 1) < 2 * p
  {
  }

  lemma WalkEndsAtLowBits(index: nat, endLevel: nat)
    ensures WalkPosition(index, endLevel, endLevel) == index % Pow2(endLevel)
  {
    var high := WalkFollowsLowBits(index, endLevel, endLevel);
    DivideUnique(index, Pow2(endLevel), high, WalkPosition(index, endLevel, endLevel));
  }
}
