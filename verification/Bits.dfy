/** Fixed-width machine integers as ranges of `int`.  Masks become div/mod, so that
    addresses and accumulators stay in linear arithmetic. */
module Bits {

  type Byte = x: int | 0 <= x < 0x100
  type Word = x: int | 0 <= x < 0x1_0000_0000
  type Half = x: int | -0x8000 <= x < 0x8000
  type Int64 = x: int | -0x8000_0000_0000_0000 <= x < 0x8000_0000_0000_0000
  type Reg = x: int | 0 <= x < 32

  /** An instruction address, counted in words: the byte address is `Bytes(a)`. */
  type Addr = x: int | 0 <= x < 0x400

  function Bytes(a: Addr): Word { 4 * a }

  /** `x & 0xffc` */
  function MaskPc(x: int): Addr { x / 4 % 0x400 }

  /** `(a + 4) & 0xffc` */
  function Next(a: Addr): Addr { if a == 0x3ff then 0 else a + 1 }

  function Wrap32(x: int): Word { x % 0x1_0000_0000 }

  function Signed32(x: Word): int { if x < 0x8000_0000 then x else x - 0x1_0000_0000 }

  function Wrap64(x: int): Int64 { (x + 0x8000_0000_0000_0000) % 0x1_0000_0000_0000_0000 - 0x8000_0000_0000_0000 }

  /** static_cast<int16_t>(x) */
  function ToHalf(x: int): Half { (x + 0x8000) % 0x1_0000 - 0x8000 }

  /** static_cast<uint16_t>(x) */
  function U16(x: int): (u: int) ensures 0 <= u < 0x1_0000 { x % 0x1_0000 }

  function Signed8(x: Byte): int { if x < 0x80 then x else x - 0x100 }

  /** Bytes in the RSP's (big-endian) order. */
  function Be16(a: Byte, b: Byte): (h: int) ensures 0 <= h < 0x1_0000 {
    var hi: int, lo: int := a, b;
    0x100 * hi + lo
  }

  function Be32(a: Byte, b: Byte, c: Byte, d: Byte): Word { 0x1_0000 * Be16(a, b) + Be16(c, d) }

  function Pow2(k: nat): (p: int)
    ensures p >= 1
  {
    if k == 0 then 1 else 2 * Pow2(k - 1)
  }

  lemma {:induction false} Pow2Add(a: nat, b: nat)
    ensures Pow2(a + b) == Pow2(a) * Pow2(b)
  {
    if a > 0 {
      Pow2Add(a - 1, b);
      Twice(Pow2(a - 1), Pow2(b));
    }
  }

  lemma Twice(p: int, q: int)
    ensures 2 * p * q == 2 * (p * q)
  {
  }

  lemma Pow2Values()
    ensures Pow2(8) == 0x100 && Pow2(16) == 0x1_0000
  {
    assert Pow2(4) == 16;
    assert Pow2(8) == 16 * Pow2(4);
    assert Pow2(12) == 16 * Pow2(8);
    assert Pow2(16) == 16 * Pow2(12);
  }

  /** Quotient and remainder are the only ones of their kind. */
  lemma DivIs(y: int, n: int, d: int, e: int)
    requires n > 0 && y == n * d + e && 0 <= e < n
    ensures y / n == d && y % n == e
  {
    var q := y / n - d;
    assert n * q == e - y % n;
    assert q >= 1 ==> n * q >= n;
    assert q <= -1 ==> n * q <= 0 - n;
  }

  /** The bytes of a word, from the top. */
  lemma Digits(w: Word) returns (a: Byte, b: Byte, c: Byte, d: Byte)
    ensures w == 0x100_0000 * a + 0x1_0000 * b + 0x100 * c + d
    ensures w / 0x100_0000 == a && w / 0x1_0000 == 0x100 * a + b && w / 0x100 == 0x1_0000 * a + 0x100 * b + c
    ensures w / 0x1_0000 % 0x100 == b && w / 0x100 % 0x100 == c && w % 0x100 == d && w % 0x1_0000 == 0x100 * c + d
  {
    var r := w % 0x100_0000;
    var s := r % 0x1_0000;
    a, b, c, d := w / 0x100_0000, r / 0x1_0000, s / 0x100, s % 0x100;
    DivIs(w, 0x1_0000, 0x100 * a + b, 0x100 * c + d);
    DivIs(w, 0x100, 0x1_0000 * a + 0x100 * b + c, d);
    DivIs(0x100 * a + b, 0x100, a, b);
    DivIs(0x1_0000 * a + 0x100 * b + c, 0x100, 0x100 * a + b, c);
  }

  lemma Scale(p: int, a: int, v: int)
    ensures p * (a + 2 * v) == p * a + 2 * p * v
  {
  }

  lemma HalfOfQuotient(y: nat, m: int)
    requires m > 0
    ensures y / (2 * m) == y / m / 2
  {
    var q, r := y / m, y % m;
    var d, e := q / 2, q % 2;
    Scale(m, e, d);
    assert 0 <= m * e <= m;
    DivIs(y, 2 * m, d, m * e + r);
  }

  lemma QuotientOfHalf(y: nat, m: int)
    requires m > 0
    ensures y / (2 * m) == y / 2 / m
  {
    var q := y / 2;
    var d, e := q / m, q % m;
    assert y == 2 * (m * d + e) + y % 2;
    assert 2 * (m * d) == 2 * m * d;
    DivIs(y, 2 * m, d, 2 * e + y % 2);
  }

  datatype BitOp = AndOp | OrOp | XorOp

  function Bit(op: BitOp, x: int, y: int): (b: int)
    ensures 0 <= b <= 1
  {
    match op
    case AndOp => if x % 2 == 1 && y % 2 == 1 then 1 else 0
    case OrOp => if x % 2 == 1 || y % 2 == 1 then 1 else 0
    case XorOp => if x % 2 != y % 2 then 1 else 0
  }

  /** The low `n` bits of x combined with the low `n` bits of y, bit by bit. */
  function Bitwise(op: BitOp, x: int, y: int, n: nat): (r: int)
    ensures 0 <= r < Pow2(n)
    decreases n, y
  {
    if n == 0 then 0 else Bit(op, x, y) + 2 * Bitwise(op, x / 2, y / 2, n - 1)
  }

  /* ---- 32-bit operations, the same on the interpreter's uint32_t and on the text's i32 ---- */
  const WORD_BITS := 32

  function Add32(a: Word, b: Word): Word { Wrap32(a as int + b) }
  function Sub32(a: Word, b: Word): Word { Wrap32(a as int - b) }
  function And32(a: Word, b: Word): Word { Wrap32(Bitwise(AndOp, a, b, WORD_BITS)) }
  function Or32(a: Word, b: Word): Word { Wrap32(Bitwise(OrOp, a, b, WORD_BITS)) }
  function Xor32(a: Word, b: Word): Word { Wrap32(Bitwise(XorOp, a, b, WORD_BITS)) }
  function Not32(a: Word): Word { 0xffff_ffff - a }
  function Shl32(a: Word, k: nat): Word { Wrap32(a as int * Pow2(k)) }
  function Lshr32(a: Word, k: nat): Word { Wrap32(a as int / Pow2(k)) }
  function Ashr32(a: Word, k: nat): Word { Wrap32(Signed32(a) / Pow2(k)) }
  function Slt32(a: Word, b: Word): Word { if Signed32(a) < Signed32(b) then 1 else 0 }
  function Sltu32(a: Word, b: Word): Word { if a < b then 1 else 0 }

  predicate BitSet(x: Word, k: nat) { x as int / Pow2(k) % 2 == 1 }
}
