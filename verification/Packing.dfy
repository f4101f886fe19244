/** Values of a caller's integer type inside sixteen-byte blocks, and the two
    orders of unpacking and XORing when the result vectors are assembled.
    width is the size of the type in bytes; arithmetic wraps at 256^width. */
module Packing {
  import opened Blocks
  import opened TreeShape

  function Pow256(n: nat): (r: nat)
    ensures r >= 1
  {
    if n == 0 then 1 else 256 * Pow256(n - 1)
  }

  function ToNat(b: bv8): (r: nat)
    ensures r < 256
  {
    b as nat
  }

  function ToByte(n: nat): bv8
    requires n < 256
  {
    n as bv8
  }

  lemma CastRoundTrip(n: int)
    requires 0 <= n < 256
    ensures (n as bv8) as int == n
  {
    assert ((n as bv8) as int) - n == 0;
  }

  lemma NatRoundTrip(n: nat)
    requires n < 256
    ensures ToNat(ToByte(n)) == n
  {
    CastRoundTrip(n);
  }

  lemma ByteRoundTrip(b: bv8)
    ensures ToByte(ToNat(b)) == b
  {
  }

  /** The big-endian number of a byte string. */
  function Num(bytes: seq<bv8>): nat {
    if bytes == [] then 0 else Num(bytes[..|bytes| - 1]) * 256 + ToNat(bytes[|bytes| - 1])
  }

  /** value = (value << 8) | byte, repeated over a byte string, in width bytes. */
  function Shifted(init: nat, bytes: seq<bv8>, width: nat): nat {
    if bytes == [] then init
    else (Shifted(init, bytes[..|bytes| - 1], width) * 256 + ToNat(bytes[|bytes| - 1])) % Pow256(width)
  }

  function Limit(width: nat): nat {
    if width < BLOCK_SIZE then width else BLOCK_SIZE
  }

  function Unpacked(init: nat, block: Block, width: nat): nat {
    Shifted(init, block[BLOCK_SIZE - Limit(width)..], width)
  }

  /** (uint8_t)(value >> (8 * j)) */
  function ByteAt(value: nat, j: nat): nat
    ensures ByteAt(value, j) < 256
  {
    if j == 0 then value % 256 else ByteAt(value / 256, j - 1)
  }

  function Packed(value: nat, width: nat): Block {
    seq(BLOCK_SIZE, i requires 0 <= i < BLOCK_SIZE =>
      if i >= BLOCK_SIZE - Limit(width) then ToByte(ByteAt(value, BLOCK_SIZE - 1 - i)) else ToByte(0))
  }

  lemma {:induction false} NumBound(bytes: seq<bv8>)
    ensures Num(bytes) < Pow256(|bytes|)
  {
    if bytes != [] {
      NumBound(bytes[..|bytes| - 1]);
    }
  }

  function Folded(init: nat, p: nat, num: nat, m: nat): nat
    requires m > 0
  {
    (init * p + num) % m
  }

  /** Shifting bytes in: the old contents move up, modulo the type's range. */
  lemma {:induction false} ShiftedIsNum(init: nat, bytes: seq<bv8>, width: nat)
    requires init < Pow256(width)
    ensures Shifted(init, bytes, width) == Folded(init, Pow256(|bytes|), Num(bytes), Pow256(width))
  {
    hide ToNat, Pow256, Folded;
    var m := Pow256(width);
    if bytes == [] {
      Pow256Zero();
      SmallRemainder(init, m);
    } else {
      var k := |bytes| - 1;
      var front, b := bytes[..k], ToNat(bytes[k]);
      Pow256Step(k);
      ShiftedIsNum(init, front, width);
      ShiftStep(init, Pow256(k), Num(front), b, m);
    }
  }

  lemma Pow256Zero()
    ensures Pow256(0) == 1
  {
  }

  lemma Pow256Step(k: nat)
    ensures Pow256(k + 1) == 256 * Pow256(k)
  {
  }

  lemma SmallRemainder(n: nat, m: nat)
    requires n < m
    ensures Folded(n, 1, 0, m) == n
  {
    DivideUnique(n, m, 0, n);
  }

  lemma ShiftStep(init: nat, p: nat, num: nat, b: nat, m: nat)
    requires m > 0
    ensures (Folded(init, p, num, m) * 256 + b) % m == Folded(init, 256 * p, num * 256 + b, m)
  {
    ModShift(init * p + num, m, b);
    Regroup(init, p, num, b);
  }

  lemma Regroup(init: nat, p: nat, num: nat, b: nat)
    ensures (init * p + num) * 256 + b == init * (256 * p) + (num * 256 + b)
  {
  }

  lemma ModShift(n: nat, m: nat, b: nat)
    requires m > 0
    ensures ((n % m) * 256 + b) % m == (n * 256 + b) % m
  {
    var q, r := n / m, n % m;
    assert n * 256 + b == (q * 256) * m + (r * 256 + b);
    ModPlus(q * 256, m, r * 256 + b);
  }

  lemma ModPlus(k: nat, m: nat, n: nat)
    requires m > 0
    ensures (k * m + n) % m == n % m
  {
    assert (k + n / m) * m == k * m + (n / m) * m;
    DivideUnique(k * m + n, m, k + n / m, n % m);
  }

  lemma {:induction false} Pow256Adds(m: nat, n: nat)
    ensures Pow256(m + n) == Pow256(m) * Pow256(n)
  {
    if m > 0 {
      Pow256Adds(m - 1, n);
      Scaled(Pow256(m - 1), Pow256(n));
    }
  }

  lemma Scaled(a: nat, b: nat)
    ensures 256 * (a * b) == (256 * a) * b
  {
  }

  /** A type of at most sixteen bytes is filled completely: what an
      uninitialised variable held before is shifted out. */
  lemma UnpackForgetsInit(init: nat, block: Block, width: nat)
    requires width <= BLOCK_SIZE && init < Pow256(width)
    ensures Unpacked(init, block, width) == Num(block[BLOCK_SIZE - width..])
  {
    var bytes := block[BLOCK_SIZE - width..];
    ShiftedIsNum(init, bytes, width);
    NumBound(bytes);
    ModPlus(init, Pow256(width), Num(bytes));
    DivideUnique(Num(bytes), Pow256(width), 0, Num(bytes));
  }

  /** A wider type keeps the old contents above the sixteen bytes, so the
      result is independent of them exactly when the type is not wider. */
  lemma WideUnpackKeepsInit(block: Block, width: nat)
    requires width > BLOCK_SIZE
    ensures Unpacked(0, block, width) != Unpacked(1, block, width)
  {
    hide Num, Shifted;
    var bytes := block[0..];
    ShiftedIsNum(0, bytes, width);
    ShiftedIsNum(1, bytes, width);
    NumBound(bytes);
    Pow256Adds(width - BLOCK_SIZE - 1, BLOCK_SIZE);
    Wide(Pow256(width - BLOCK_SIZE - 1), Pow256(BLOCK_SIZE), Num(bytes));
  }

  lemma Wide(k: nat, p: nat, num: nat)
    requires k >= 1 && num < p
    ensures var m := 256 * (k * p); num % m != (1 * p + num) % m
  {
    Grows(k, p);
    WideGap(256 * (k * p), p, num);
  }

  lemma WideGap(m: nat, p: nat, num: nat)
    requires num < p && 2 * p <= m
    ensures num % m != (1 * p + num) % m
  {
    DivideUnique(num, m, 0, num);
    DivideUnique(p + num, m, 0, p + num);
  }

  /** Packing and unpacking undo each other for every value of the type. */
  lemma PackUnpack(value: nat, width: nat, init: nat)
    requires width <= BLOCK_SIZE && value < Pow256(width) && init < Pow256(width)
    ensures Unpacked(init, Packed(value, width), width) == value
  {
    hide Num, ByteAt, ToByte, ToNat, Pow256, Shifted;
    UnpackForgetsInit(init, Packed(value, width), width);
    NumOfPacked(value, Packed(value, width)[BLOCK_SIZE - width..]);
  }

  lemma {:induction false} NumOfPacked(value: nat, bytes: seq<bv8>)
    requires value < Pow256(|bytes|)
    requires forall i :: 0 <= i < |bytes| ==> bytes[i] == ToByte(ByteAt(value, |bytes| - 1 - i))
    ensures Num(bytes) == value
  {
    hide ToNat, ToByte;
    if bytes != [] {
      var n := |bytes| - 1;
      var front := bytes[..n];
      forall i | 0 <= i < n ensures front[i] == ToByte(ByteAt(value / 256, n - 1 - i)) {
        assert ByteAt(value, n - i) == ByteAt(value / 256, n - 1 - i);
      }
      NumOfPacked(value / 256, front);
      NatRoundTrip(value % 256);
    }
  }

  // ---- Unpacking commutes with XOR ----

  /** XOR of two values of n bytes. */
  function XorNum(a: nat, b: nat, n: nat): nat {
    if n == 0 then 0
    else XorNum(a / 256, b / 256, n - 1) * 256 + ToNat(ByteXor(ToByte(a % 256), ToByte(b % 256)))
  }

  function ZipXor(s: seq<bv8>, t: seq<bv8>): seq<bv8>
    requires |s| == |t|
  {
    seq(|s|, i requires 0 <= i < |s| => ByteXor(s[i], t[i]))
  }

  lemma {:induction false} NumXor(s: seq<bv8>, t: seq<bv8>)
    requires |s| == |t|
    ensures Num(ZipXor(s, t)) == XorNum(Num(s), Num(t), |s|)
  {
    hide ToNat, ToByte, ByteXor;
    if s != [] {
      var n := |s| - 1;
      NumXor(s[..n], t[..n]);
      assert ZipXor(s, t)[..n] == ZipXor(s[..n], t[..n]);
      ByteRoundTrip(s[n]);
      ByteRoundTrip(t[n]);
      DivideUnique(Num(s), 256, Num(s[..n]), ToNat(s[n]));
      DivideUnique(Num(t), 256, Num(t[..n]), ToNat(t[n]));
    }
  }

  /** For types of at most sixteen bytes, whatever the variables held before. */
  lemma UnpackXor(a: Block, b: Block, width: nat, init: nat)
    requires width <= BLOCK_SIZE && init < Pow256(width)
    ensures Unpacked(init, Xor(a, b), width) == XorNum(Unpacked(init, a, width), Unpacked(init, b, width), width)
  {
    var from := BLOCK_SIZE - width;
    UnpackForgetsInit(init, a, width);
    UnpackForgetsInit(init, b, width);
    UnpackForgetsInit(init, Xor(a, b), width);
    NumXor(a[from..], b[from..]);
    assert Xor(a, b)[from..] == ZipXor(a[from..], b[from..]);
  }

  // ---- Numbers bit by bit ----

  /** Bit k of a number. */
  predicate Bit(n: nat, k: nat) {
    if k == 0 then n % 2 == 1 else Bit(n / 2, k - 1)
  }

  lemma {:induction false} BitIsDivision(n: nat, k: nat)
    ensures Bit(n, k) <==> n / Pow2(k) % 2 == 1
  {
    if k > 0 {
      BitIsDivision(n / 2, k - 1);
      HalvesFirst(n, Pow2(k - 1));
    }
  }

  lemma HalvesFirst(n: nat, p: nat)
    requires p > 0
    ensures n / 2 / p == n / (2 * p)
    ensures n % (2 * p) / 2 == n / 2 % p && n % (2 * p) % 2 == n % 2
  {
    var h, r := n / 2, n % 2;
    var q, s := h / p, h % p;
    assert n == q * (2 * p) + (2 * s + r);
    DivideUnique(n, 2 * p, q, 2 * s + r);
  }

  function Quotient(n: nat, d: nat): nat
    requires d > 0
  {
    n / d
  }

  function Remainder(n: nat, d: nat): nat
    requires d > 0
  {
    n % d
  }

  /** The bits below m are those of the remainder, the others those of the quotient. */
  lemma {:induction false} SplitBits(n: nat, m: nat, k: nat)
    ensures if k < m then Bit(n, k) == Bit(Remainder(n, Pow2(m)), k) else Bit(n, k) == Bit(Quotient(n, Pow2(m)), k - m)
  {
    if m == 0 {
      DivideUnique(n, 1, n, 0);
    } else {
      HalvesFirst(n, Pow2(m - 1));
      if k > 0 {
        SplitBits(n / 2, m - 1, k - 1);
      }
    }
  }

  lemma ByteBits(n: nat, k: nat)
    ensures if k < 8 then Bit(n, k) == Bit(n % 256, k) else Bit(n, k) == Bit(n / 256, k - 8)
  {
    SplitBits(n, 8, k);
    assert Pow2(8) == 256 by {
      assert Pow2(4) == 16;
    }
  }

  lemma HalfByte(b: bv8)
    ensures ToNat(b >> 1) == ToNat(b) / 2
    ensures ToNat(b) % 2 == 1 <==> b & 1 == 1
  {
  }

  lemma HalfXor(a: bv8, b: bv8)
    ensures (a ^ b) >> 1 == (a >> 1) ^ (b >> 1)
    ensures (a ^ b) & 1 == 1 <==> (a & 1 == 1) != (b & 1 == 1)
  {
  }

  lemma {:induction false} ByteXorBit(a: bv8, b: bv8, k: nat)
    ensures Bit(ToNat(a ^ b), k) <==> Bit(ToNat(a), k) != Bit(ToNat(b), k)
  {
    HalfByte(a);
    HalfByte(b);
    HalfByte(a ^ b);
    HalfXor(a, b);
    hide ToNat;
    if k > 0 {
      ByteXorBit(a >> 1, b >> 1, k - 1);
    }
  }

  /** On single bytes XorNum is the machine's XOR. */
  lemma XorNumOfBytes(a: bv8, b: bv8)
    ensures XorNum(a as nat, b as nat, 1) == (a ^ b) as nat
  {
    XorNumOfNumbers(ToNat(a), ToNat(b));
    ByteRoundTrip(a);
    ByteRoundTrip(b);
  }

  lemma XorNumOfNumbers(x: nat, y: nat)
    requires x < 256 && y < 256
    ensures XorNum(x, y, 1) == ToNat(ByteXor(ToByte(x), ToByte(y)))
  {
    hide ToNat, ToByte, ByteXor;
    assert x % 256 == x && y % 256 == y && x / 256 == 0 && y / 256 == 0;
    assert XorNum(0, 0, 0) == 0;
  }

  lemma {:induction false} XorNumBit(a: nat, b: nat, n: nat, k: nat)
    ensures k < 8 * n ==> (Bit(XorNum(a, b, n), k) <==> Bit(a, k) != Bit(b, k))
    ensures k >= 8 * n ==> !Bit(XorNum(a, b, n), k)
  {
    hide ToNat, ToByte, ByteXor;
    if n == 0 {
      ZeroBit(k);
    } else {
      var front, x, y := XorNum(a / 256, b / 256, n - 1), ToByte(a % 256), ToByte(b % 256);
      var low := ToNat(ByteXor(x, y));
      DivideUnique(front * 256 + low, 256, front, low);
      ByteBits(front * 256 + low, k);
      ByteBits(a, k);
      ByteBits(b, k);
      if k < 8 {
        NatRoundTrip(a % 256);
        NatRoundTrip(b % 256);
        XorOfBytes(x, y, k);
      } else {
        XorNumBit(a / 256, b / 256, n - 1, k - 8);
      }
    }
  }

  lemma XorOfBytes(x: bv8, y: bv8, k: nat)
    ensures Bit(ToNat(ByteXor(x, y)), k) <==> Bit(ToNat(x), k) != Bit(ToNat(y), k)
  {
    hide ToNat, Bit;
    ByteXorBit(x, y, k);
  }

  lemma {:induction false} ZeroBit(k: nat)
    ensures !Bit(0, k)
  {
    if k > 0 {
      ZeroBit(k - 1);
    }
  }

  /** XorNum is XOR: bit k of the result is set if and only if exactly one of
      the two numbers has it, for all bits of an n-byte type. */
  lemma XorNumIsXor(a: nat, b: nat, n: nat, k: nat)
    requires k < 8 * n
    ensures XorNum(a, b, n) / Pow2(k) % 2 == 1 <==> (a / Pow2(k) % 2 == 1) != (b / Pow2(k) % 2 == 1)
  {
    hide XorNum, Bit, Pow2;
    XorNumBit(a, b, n, k);
    BitIsDivision(XorNum(a, b, n), k);
    BitIsDivision(a, k);
    BitIsDivision(b, k);
  }

  lemma {:induction false} XorNumBound(a: nat, b: nat, n: nat)
    ensures XorNum(a, b, n) < Pow256(n)
  {
    if n > 0 {
      XorNumBound(a / 256, b / 256, n - 1);
    }
  }

  lemma {:induction false} ByteAtBit(value: nat, j: nat, i: nat)
    requires i < 8
    ensures Bit(ByteAt(value, j), i) == Bit(value, 8 * j + i)
  {
    ByteBits(value, 8 * j + i);
    if j > 0 {
      ByteAtBit(value / 256, j - 1, i);
    }
  }

  lemma PackedCell(value: nat, width: nat, i: nat)
    requires width <= BLOCK_SIZE && i < BLOCK_SIZE
    ensures Packed(value, width)[i]
         == if i >= BLOCK_SIZE - Limit(width) then ToByte(ByteAt(value, BLOCK_SIZE - 1 - i)) else ToByte(0)
  {
  }

  lemma PackedByte(value: nat, width: nat, i: nat)
    requires width <= BLOCK_SIZE && i < BLOCK_SIZE
    ensures ToNat(Packed(value, width)[i]) == if i >= BLOCK_SIZE - width then ByteAt(value, BLOCK_SIZE - 1 - i) else 0
  {
    hide ToNat, ToByte, Packed;
    PackedCell(value, width, i);
    NatRoundTrip(if i >= BLOCK_SIZE - width then ByteAt(value, BLOCK_SIZE - 1 - i) else 0);
  }

  /** Bit k of a value is bit k % 8 of the byte that is k / 8 bytes before the
      end of its block. */
  lemma PackedBit(value: nat, width: nat, k: nat)
    requires width <= BLOCK_SIZE && k < 8 * width
    ensures Packed(value, width)[BLOCK_SIZE - 1 - k / 8] as nat / Pow2(k % 8) % 2 == 1 <==> value / Pow2(k) % 2 == 1
  {
    hide Packed, ByteAt, Bit, Pow2;
    PackedByte(value, width, BLOCK_SIZE - 1 - k / 8);
    ByteAtBit(value, k / 8, k % 8);
    BitIsDivision(ByteAt(value, k / 8), k % 8);
    BitIsDivision(value, k);
  }

  /** The bytes in front of a value are zero. */
  lemma PackedFront(value: nat, width: nat, i: nat)
    requires width <= BLOCK_SIZE && i < BLOCK_SIZE - width
    ensures Packed(value, width)[i] as nat == 0
  {
    hide Packed;
    PackedByte(value, width, i);
  }
}
