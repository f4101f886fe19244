/** 128-bit arithmetic from 64-bit words.  Every 64-bit operation wraps. */
module UInt128 {
  const B32: nat := 0x1_0000_0000
  const B64: nat := 0x1_0000_0000_0000_0000
  const B128: nat := 0x1_0000_0000_0000_0000_0000_0000_0000_0000

  type Word = x: nat | x < B64

  function Wrap(n: nat): Word {
    n % B64
  }

  /** A double word passed by value. */
  datatype Double = Double(lo: Word, hi: Word) {
    function Value(): nat {
      hi * B64 + lo
    }
  }

  function Product(a: nat, b: nat): nat {
    a * b
  }

  lemma ProductIs(a: nat, b: nat)
    ensures Product(a, b) == a * b
  {
  }

  lemma MulMonotone(a: nat, b: nat, c: nat, d: nat)
    requires a <= c && b <= d
    ensures a * b <= c * d
  {
  }

  lemma WrapSmall(n: nat)
    requires n < B64
    ensures Wrap(n) == n
  {
  }

  lemma HalfProduct(a: nat, b: nat, k: nat)
    requires a < B32 && b < B32 && k < B32
    ensures Product(a, b) + k < B64 && Wrap(Wrap(Product(a, b)) + k) == Product(a, b) + k
  {
    MulMonotone(a, b, B32 - 1, B32 - 1);
    WrapSmall(Product(a, b));
    WrapSmall(Product(a, b) + k);
  }

  /** A 32-bit product and a carry fit in a 64-bit word. */
  lemma SmallProduct(a: nat, b: nat, k: nat)
    requires a < 0x1_0000_0000 && b < 0x1_0000_0000 && k < 0x1_0000_0000
    ensures a * b + k < 0x1_0000_0000_0000_0000 && Wrap(Wrap(a * b) + k) == a * b + k
  {
    hide Wrap, Product;
    HalfProduct(a, b, k);
    ProductIs(a, b);
  }

  /** The column sums of the schoolbook product. */
  lemma Columns(u1: nat, uh: nat, v1: nat, vh: nat, k1: nat, w3: nat, w1: nat, k2: nat, k3: nat, r: nat)
    requires Product(u1, v1) == k1 * B32 + w3
    requires Product(uh, v1) + k1 == w1 * B32 + k2
    requires Product(u1, vh) + k2 == k3 * B32 + r
    ensures Product(uh * B32 + u1, vh * B32 + v1) == (Product(uh, vh) + w1 + k3) * B64 + (r * B32 + w3)
  {
    Expand(uh, u1, vh, v1);
    hide Product;
    assert (Product(uh, v1) + Product(u1, vh)) * B32 + Product(u1, v1) == (w1 + k3) * B64 + r * B32 + w3;
  }

  lemma Expand(uh: nat, u1: nat, vh: nat, v1: nat)
    ensures Product(uh * B32 + u1, vh * B32 + v1)
         == Product(uh, vh) * B64 + (Product(uh, v1) + Product(u1, vh)) * B32 + Product(u1, v1)
  {
  }

  /** The columns add up to the product, and the high word fits. */
  lemma ColumnsFit(u: Word, v: Word, u1: nat, uh: nat, v1: nat, vh: nat,
                   k1: nat, w3: nat, w1: nat, k2: nat, k3: nat, r: nat)
    requires u == uh * B32 + u1 && v == vh * B32 + v1
    requires Product(u1, v1) == k1 * B32 + w3
    requires Product(uh, v1) + k1 == w1 * B32 + k2
    requires Product(u1, vh) + k2 == k3 * B32 + r
    ensures (Product(uh, vh) + w1 + k3) * B64 + (r * B32 + w3) == Product(u, v)
    ensures Product(uh, vh) + w1 + k3 < B64
  {
    hide Product;
    Columns(u1, uh, v1, vh, k1, w3, w1, k2, k3, r);
    HighWord(Product(uh, vh) + w1 + k3, r * B32 + w3, u, v);
  }

  lemma HighWord(h: nat, l: nat, u: nat, v: nat)
    requires u < B64 && v < B64 && h * B64 + l == Product(u, v)
    ensures h < B64
  {
    MulMonotone(u, v, B64 - 1, B64 - 1);
  }

  /** x & 0xFFFFFFFF and x >> 32 */
  function Low(x: Word): nat {
    x % B32
  }

  function High(x: Word): nat {
    x / B32
  }

  lemma Halves(x: Word)
    ensures x == High(x) * B32 + Low(x) && High(x) < B32 && Low(x) < B32
  {
  }

  /** The full product of two words; no intermediate sum overflows. */
  method Mult64To128(u: Word, v: Word) returns (h: Word, l: Word)
    ensures h * 0x1_0000_0000_0000_0000 + l == u * v
  {
    hide Product;
    h, l := MultiplyHalves(u, v);
    ProductIs(u, v);
  }

  /** The schoolbook product of 32-bit halves. */
  method MultiplyHalves(u: Word, v: Word) returns (h: Word, l: Word)
    ensures h * B64 + l == Product(u, v)
  {
    hide Wrap, Product, Low, High;
    Halves(u);
    Halves(v);
    var u1, v1 := Low(u), Low(v);
    HalfProduct(u1, v1, 0);
    WrapSmall(Product(u1, v1));
    var t := Wrap(Product(u1, v1));
    Halves(t);
    var w3, k := Low(t), High(t);
    ghost var k1 := k;
    var uh := High(u);
    HalfProduct(uh, v1, k);
    t := Wrap(Wrap(Product(uh, v1)) + k);
    Halves(t);
    k := Low(t);
    ghost var k2 := k;
    var w1 := High(t);
    var vh := High(v);
    HalfProduct(u1, vh, k);
    t := Wrap(Wrap(Product(u1, vh)) + k);
    Halves(t);
    k := High(t);
    ColumnsFit(u, v, u1, uh, v1, vh, k1, w3, w1, k2, k, Low(t));
    LowWord(t, w3);
    ThreeSum(Product(uh, vh), w1, k);
    h := Wrap(Wrap(Wrap(Product(uh, vh)) + w1) + k);
    l := Wrap(Wrap(t * B32) + w3);
  }

  lemma ThreeSum(a: nat, b: nat, c: nat)
    requires a + b + c < B64
    ensures Wrap(Wrap(Wrap(a) + b) + c) == a + b + c
  {
  }

  lemma LowWord(t: Word, w3: nat)
    requires w3 < B32
    ensures Wrap(Wrap(t * B32) + w3) == Low(t) * B32 + w3
  {
    assert t * B32 == (t / B32) * B64 + (t % B32) * B32;
    Carries((t % B32) * B32, t / B32);
  }

  /** A double word updated through a pointer. */
  class Cell {
    var lo: Word
    var hi: Word

    ghost function Value(): nat
      reads this
    {
      hi * B64 + lo
    }

    constructor (d: Double)
      ensures Value() == d.Value()
    {
      lo, hi := d.lo, d.hi;
    }

    /** The product modulo 2^128. */
    method Mult128(n: Double, m: Double)
      modifies this
      ensures hi * 0x1_0000_0000_0000_0000 + lo
           == (n.hi * 0x1_0000_0000_0000_0000 + n.lo) * (m.hi * 0x1_0000_0000_0000_0000 + m.lo)
              % 0x1_0000_0000_0000_0000_0000_0000_0000_0000
    {
      hide Product, Wrap;
      ProductIs(n.lo, m.lo);
      ProductIs(n.Value(), m.Value());
      hi, lo := Mult64To128(n.lo, m.lo);
      CrossTerms(n, m, hi, lo);
      hi := Wrap(hi + Wrap(Wrap(Product(n.hi, m.lo)) + Wrap(Product(n.lo, m.hi))));
    }

    /** The successor modulo 2^128.  The carry is the top bit of
        (lo ^ t) & lo: lo had it and t has lost it. */
    method Increment()
      modifies this
      ensures hi * 0x1_0000_0000_0000_0000 + lo
           == (old(hi) * 0x1_0000_0000_0000_0000 + old(lo) + 1) % 0x1_0000_0000_0000_0000_0000_0000_0000_0000
    {
      var t := Wrap(lo + 1);
      var carry := if TopBit(lo) && !TopBit(t) then 1 else 0;
      hi := Wrap(hi + carry);
      lo := t;
    }
  }

  predicate TopBit(x: Word) {
    x >= B64 / 2
  }

  /** The number a machine word stands for. */
  function Number(x: bv64): Word {
    x as nat
  }

  /** On machine words the top bit is what a shift by 63 leaves. */
  lemma TopBitIsShift(x: bv64)
    ensures TopBit(Number(x)) <==> x >> 63 == 1
    ensures x >> 63 == 0 || x >> 63 == 1
  {
  }

  /** The bit expression for the carry is the test on top bits that Increment makes. */
  lemma CarryIsTopBits(lo: bv64, t: bv64)
    ensures ((lo ^ t) & lo) >> 63 == if TopBit(Number(lo)) && !TopBit(Number(t)) then 1 else 0
  {
    hide TopBit, Number;
    TopBitIsShift(lo);
    TopBitIsShift(t);
  }

  lemma CrossTerms(n: Double, m: Double, h: Word, l: Word)
    requires h * B64 + l == Product(n.lo, m.lo)
    ensures Wrap(h + Wrap(Wrap(Product(n.hi, m.lo)) + Wrap(Product(n.lo, m.hi)))) * B64 + l
         == Product(n.Value(), m.Value()) % B128
  {
    hide Product, Wrap;
    ExpandDouble(n, m);
    LowerHalf(Product(n.Value(), m.Value()), h, l, Product(n.hi, m.lo), Product(n.lo, m.hi), Product(n.hi, m.hi));
  }

  lemma LowerHalf(product: nat, h: nat, l: Word, a: nat, b: nat, c: nat)
    requires product == c * B128 + (a + b) * B64 + (h * B64 + l)
    ensures Wrap(h + Wrap(Wrap(a) + Wrap(b))) * B64 + l == product % B128
  {
    hide Wrap;
    WrapSum(h, a, b);
    TopSplit(h + a + b, l, c);
  }

  lemma ExpandDouble(n: Double, m: Double)
    ensures Product(n.Value(), m.Value())
         == Product(n.hi, m.hi) * B128 + (Product(n.hi, m.lo) + Product(n.lo, m.hi)) * B64 + Product(n.lo, m.lo)
  {
  }

  lemma WrapSum(h: nat, a: nat, b: nat)
    ensures Wrap(h + Wrap(Wrap(a) + Wrap(b))) == (h + a + b) % B64
  {
    var s := Wrap(a) + Wrap(b);
    Carries(h + Wrap(s), a / B64 + b / B64 + s / B64);
  }

  lemma Carries(x: nat, k: nat)
    ensures (k * B64 + x) % B64 == x % B64
  {
  }

  lemma TopSplit(s: nat, l: Word, c: nat)
    ensures (s % B64) * B64 + l == (c * B128 + s * B64 + l) % B128
  {
  }
}
