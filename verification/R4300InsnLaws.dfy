/** What the effects of the less obvious instructions amount to: exact products and quotients,
    memory that returns what was stored, and doubles made of two singles. */
module R4300InsnLaws {
  import opened Bits
  import opened RspState
  import opened Collections
  import opened R4300Insn
  import opened RspVectorLaws

  /* ---- mult, multu, div ---- */

  /** hi and lo as one 64-bit number. */
  function HiLo(c: Cpu): Dword { Lo32(c.hi) as int * 0x1_0000_0000 + Lo32(c.lo) as int }

  lemma SextLow32(x: Word)
    ensures Lo32(Sext32(x)) == x
  {
  }

  lemma ProductHiLo(y: int, m: Machine)
    ensures HiLo(ApplyAll(Product(y), m).cpu) == Wrap64u(y)
  {
    var es, low, high := Product(y), Wrap32(y), Wrap32(y / 0x1_0000_0000);
    SextLow32(low);
    SextLow32(high);
    var m1 := Apply(es[0], m);
    assert es[1..] == [es[1]] && es[1..][1..] == [];
    assert ApplyAll(es, m) == ApplyAll(es[1..], m1) == Apply(es[1], m1);
    SplitDword(y);
  }

  lemma SplitDword(y: int)
    ensures y / 0x1_0000_0000 % 0x1_0000_0000 * 0x1_0000_0000 + y % 0x1_0000_0000 == y % 0x1_0000_0000_0000_0000
  {
  }

  lemma ProductSize(a: int, b: int, n: int)
    requires -n <= a <= n && -n <= b <= n
    ensures -(n * n) <= a * b <= n * n
  {
    MulBound(a, b, n, n);
  }

  lemma UnsignedProduct(x: Word, y: Word)
    ensures 0 <= x as int * y < 0x1_0000_0000_0000_0000
  {
    MulSign(x, y);
    ProductSize(x, y, 0xffff_ffff);
  }

  lemma SignedProduct(a: int, b: int)
    requires -0x8000_0000 <= a < 0x8000_0000 && -0x8000_0000 <= b < 0x8000_0000
    ensures Signed64(Wrap64u(a * b)) == a * b
  {
    ProductSize(a, b, 0x8000_0000);
    var p := a * b;
    assert -0x4000_0000_0000_0000 <= p <= 0x4000_0000_0000_0000;
    SmallSigned(p);
  }

  lemma SmallSigned(p: int)
    requires -0x8000_0000_0000_0000 <= p < 0x8000_0000_0000_0000
    ensures Signed64(Wrap64u(p)) == p
  {
  }

  /** mult leaves the exact signed product, multu the exact unsigned one. */
  lemma ProductsExact(x: Word, y: Word, m: Machine)
    ensures Signed64(HiLo(ApplyAll(Product(Signed32(x) * Signed32(y)), m).cpu)) == Signed32(x) * Signed32(y)
    ensures HiLo(ApplyAll(Product(x as int * y), m).cpu) == x as int * y
  {
    ProductHiLo(Signed32(x) * Signed32(y), m);
    SignedProduct(Signed32(x), Signed32(y));
    ProductHiLo(x as int * y, m);
    UnsignedProduct(x, y);
    SmallDword(x as int * y);
  }

  lemma SmallDword(u: int)
    requires 0 <= u < 0x1_0000_0000_0000_0000
    ensures Wrap64u(u) == u
  {
  }

  function Abs(x: int): nat { if x < 0 then 0 - x else x }

  /** Division truncates: the remainder is smaller than the divisor and has the sign of the dividend. */
  predicate Truncates(a: int, d: int, q: int, r: int) {
    a == d * q + r && (r == 0 || (r < 0) == (a < 0)) && Abs(r) < Abs(d)
  }

  lemma TruncDivides(a: int, d: int)
    requires d != 0
    ensures Truncates(a, d, TruncDiv(a, d), TruncRem(a, d)) && Abs(TruncDiv(a, d)) <= Abs(a)
  {
    var n, p: int := Abs(a), Abs(d);
    QuotientSmall(n, p);
    DivMod(n, p);
    SignedMultiple(a, d, n / p);
    RemainderIs(a, d, TruncDiv(a, d), p * (n / p), n % p);
  }

  lemma DivMod(n: nat, p: nat)
    requires p > 0
    ensures n == p * (n / p) + n % p && 0 <= n % p < p && (p == 1 ==> n / p == n && n % p == 0)
  {
  }

  lemma SignedMultiple(a: int, d: int, k: int)
    ensures d * (if (a < 0) == (d < 0) then k else 0 - k) == if a < 0 then 0 - Abs(d) * k else Abs(d) * k
  {
  }

  lemma RemainderIs(a: int, d: int, q: int, multiple: int, e: int)
    requires Abs(a) == multiple + e && 0 <= e < Abs(d) && d * q == if a < 0 then 0 - multiple else multiple
    ensures Truncates(a, d, q, a - d * q)
  {
  }

  lemma QuotientSmall(n: nat, p: nat)
    requires p > 0
    ensures n / p <= n && (p > 1 && n > 0 ==> n / p < n)
  {
    var k := n / p;
    MulSign(p - 1, k);
    OneLess(p, k);
    if p > 1 {
      MulSign(p - 2, k);
      OneLess(p - 1, k);
    }
  }

  lemma OneLess(p: int, k: int)
    ensures p * k == (p - 1) * k + k
  {
  }

  /** Only -2^31 / -1 leaves 32 bits. */
  lemma QuotientFits(a: int, d: int)
    requires d != 0 && -0x8000_0000 <= a < 0x8000_0000
    ensures var q := TruncDiv(a, d);
            if a == -0x8000_0000 && d == -1 then q == 0x8000_0000 && TruncRem(a, d) == 0
            else -0x8000_0000 <= q < 0x8000_0000
  {
    QuotientSmall(Abs(a), Abs(d));
  }

  /** A register holds the sign extension of the 32-bit number x. */
  predicate Holds32(v: Dword, x: int) { v == Sext32(Lo32(v)) && Signed32(Lo32(v)) == x }

  lemma SignedHeld(x: int)
    requires -0x8000_0000 <= x < 0x8000_0000
    ensures Holds32(Sext32(Wrap32(x)), x)
  {
    SextLow32(Wrap32(x));
  }

  lemma UnsignedHeld(x: int)
    requires 0 <= x < 0x1_0000_0000
    ensures var v := Sext32(Wrap32(x)); v == Sext32(Lo32(v)) && Lo32(v) == x
  {
    SextLow32(Wrap32(x));
  }

  lemma LoHiApplied(lo: Dword, hi: Dword, m: Machine)
    ensures ApplyAll([SetLo(lo), SetHi(hi)], m) == m.(cpu := m.cpu.(lo := lo, hi := hi))
  {
    var es := [SetLo(lo), SetHi(hi)];
    assert es[1..] == [es[1]] && es[1..][1..] == [];
    assert ApplyAll(es, m) == ApplyAll(es[1..], Apply(es[0], m)) == Apply(es[1], Apply(es[0], m));
  }

  /** What a division changes. */
  lemma OnlyLoHi(rs: Reg, rt: Reg, signed: bool, m: Machine)
    ensures var es, m' := DivEffects(m.cpu, rs, rt, signed), ApplyAll(DivEffects(m.cpu, rs, rt, signed), m);
            |es| == 2 && es[0].SetLo? && es[1].SetHi? && m' == m.(cpu := m.cpu.(lo := es[0].v, hi := es[1].v))
  {
    var es := DivEffects(m.cpu, rs, rt, signed);
    assert es == [SetLo(es[0].v), SetHi(es[1].v)];
    LoHiApplied(es[0].v, es[1].v, m);
  }

  /** div: the truncated quotient in lo and the remainder in hi.  A zero divisor keeps both, and
      the one quotient of more than 32 bits wraps to -2^31. */
  lemma DivisionExact(rs: Reg, rt: Reg, m: Machine)
    ensures var a, d := Signed32(Lo32(m.cpu.Get(rs))), Signed32(Lo32(m.cpu.Get(rt)));
            var m' := ApplyAll(DivEffects(m.cpu, rs, rt, true), m);
            m' == m.(cpu := m.cpu.(lo := m'.cpu.lo, hi := m'.cpu.hi)) &&
            (if d == 0 then m' == m
             else if a == -0x8000_0000 && d == -1 then Holds32(m'.cpu.lo, -0x8000_0000) && m'.cpu.hi == 0
             else exists q, r :: Truncates(a, d, q, r) && Holds32(m'.cpu.lo, q) && Holds32(m'.cpu.hi, r))
  {
    var a, d := Signed32(Lo32(m.cpu.Get(rs))), Signed32(Lo32(m.cpu.Get(rt)));
    OnlyLoHi(rs, rt, true, m);
    if d != 0 {
      TruncDivides(a, d);
      QuotientFits(a, d);
      var q, r := TruncDiv(a, d), TruncRem(a, d);
      SignedHeld(r);
      if q < 0x8000_0000 {
        SignedHeld(q);
      }
    }
  }

  /** divu looks for the zero in all 64 bits of the divisor, but divides by the low 32: when only
      these are zero it divides by 1. */
  lemma UnsignedDivisionExact(rs: Reg, rt: Reg, m: Machine)
    ensures var a, d := Lo32(m.cpu.Get(rs)) as int, Lo32(m.cpu.Get(rt)) as int;
            var m' := ApplyAll(DivEffects(m.cpu, rs, rt, false), m);
            var lo, hi := m'.cpu.lo, m'.cpu.hi;
            m' == m.(cpu := m.cpu.(lo := lo, hi := hi)) &&
            (if m.cpu.Get(rt) == 0 then m' == m
             else lo == Sext32(Lo32(lo)) && hi == Sext32(Lo32(hi)) &&
                  if d == 0 then Lo32(lo) == a && hi == 0
                  else a == d * Lo32(lo) as int + Lo32(hi) as int && Lo32(hi) < d)
  {
    var a, b := Lo32(m.cpu.Get(rs)), Lo32(m.cpu.Get(rt));
    OnlyLoHi(rs, rt, false, m);
    UnsignedParts(a, if b == 0 then 1 else b);
  }

  lemma UnsignedParts(a: Word, d: Word)
    requires d > 0
    ensures var lo, hi := Sext32(Wrap32(a as int / d)), Sext32(Wrap32(a as int % d));
            lo == Sext32(Lo32(lo)) && hi == Sext32(Lo32(hi)) &&
            a == d * Lo32(lo) as int + Lo32(hi) as int && Lo32(hi) < d && (d == 1 ==> Lo32(lo) == a && hi == 0)
  {
    QuotientSmall(a, d);
    DivMod(a, d);
    UnsignedHeld(a as int / d);
    UnsignedHeld(a as int % d);
  }

  /* ---- memory ---- */

  function Weight(n: nat): (w: int)
    ensures w > 0
  {
    if n == 0 then 1 else 0x100 * Weight(n - 1)
  }

  lemma {:induction false} BytesValue(v: int, n: nat)
    ensures BeValue(BeBytesOf(v, n)) == v % Weight(n)
    decreases n
  {
    if n > 0 {
      BytesValue(v / 0x100, n - 1);
      var b := BeBytesOf(v, n);
      assert b[..|b| - 1] == BeBytesOf(v / 0x100, n - 1);
      ModByte(v, Weight(n - 1));
    }
  }

  lemma ModByte(v: int, w: int)
    requires w > 0
    ensures v % (0x100 * w) == v / 0x100 % w * 0x100 + v % 0x100
  {
    var q := v / 0x100;
    var d, e := q / w, q % w;
    assert 0x100 * (w * d) == 0x100 * w * d;
    var r := e * 0x100 + v % 0x100;
    assert v == 0x100 * w * d + r && 0 <= r < 0x100 * w;
    DivIs(v, 0x100 * w, d, r);
  }

  /** What was stored at an address is what a load of that width finds there. */
  lemma StoredIsLoaded(m: Machine, pa: Pa, v: int, n: nat)
    requires n <= 8
    ensures var m' := Apply(Store(pa, BeBytesOf(v, n)), m);
            BeValue(m'.ram[pa..pa + n]) == v % Weight(n) && m'.cpu == m.cpu
  {
    var b := BeBytesOf(v, n);
    assert Poke(m.ram, pa, b)[pa..pa + n] == b;
    BytesValue(v, n);
  }

  /* ---- doubles ---- */

  /** mtc1 to an even register and to the odd one above it make one double. */
  lemma PairIsDouble(c: Cpu, r: Reg, low: Word, high: Word, ram: Ram)
    requires r % 2 == 0
    ensures var m' := ApplyAll([SetHalf(HalfIndex(r), low), SetHalf(HalfIndex(r + 1), high)], Machine(c, ram));
            m'.cpu.Slot(r) == low as int + 0x1_0000_0000 * high
  {
    var es := [SetHalf(HalfIndex(r), low), SetHalf(HalfIndex(r + 1), high)];
    assert es[1..] == [es[1]] && es[1..][1..] == [];
    assert HalfIndex(r) == 2 * r && HalfIndex(r + 1) == 2 * r + 1;
    var m0 := Machine(c, ram);
    var m1 := Apply(es[0], m0);
    assert ApplyAll(es, m0) == ApplyAll(es[1..], m1);
    assert ApplyAll(es[1..], m1) == ApplyAll([], Apply(es[1], m1));
  }
}
