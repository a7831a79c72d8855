/** VCO, VCC and VCE packed for cfc2 and unpacked by ctc2: each undoes the other. */
module RspFlagLaws {
  import opened Bits
  import opened RspState
  import opened RspExec

  function Num(b: bool): nat { if b then 1 else 0 }

  /** The bits from i on as a number of their own. */
  function Value(l: Bits8, i: nat): nat
    requires i <= 8
    decreases 8 - i, l
  {
    if i == 8 then 0 else Num(l[i]) + 2 * Value(l, i + 1)
  }

  /* ---- arithmetic ---- */

  lemma HalveMod(y: nat, m: int)
    requires m > 0
    ensures y % (2 * m) == y % 2 + 2 * (y / 2 % m)
  {
    var q := y / 2;
    var d, e := q / m, q % m;
    assert 2 * (m * d) == 2 * m * d;
    DivIs(y, 2 * m, d, 2 * e + y % 2);
  }

  lemma HalveSum(b: nat, v: nat, q: nat, hi: nat)
    requires b <= 1
    ensures (b + 2 * v + 2 * q * hi) / 2 == v + q * hi && (b + 2 * v + 2 * q * hi) % 2 == b
  {
    DivIs(b + 2 * v + 2 * q * hi, 2, v + q * hi, b);
  }

  lemma NextPow2(k: nat)
    ensures Pow2(k + 1) == 2 * Pow2(k)
  {
  }

  /* ---- packing ---- */

  lemma {:induction false} PackedValue(l: Bits8, i: nat)
    requires i <= 8
    ensures PackBits(l, i) == Pow2(i) * Value(l, i)
    decreases 8 - i
  {
    if i < 8 {
      PackedValue(l, i + 1);
      var p, b, v, rest := Pow2(i), Num(l[i]), Value(l, i + 1), PackBits(l, i + 1);
      NextPow2(i);
      Scale(p, b, v);
      assert rest == 2 * p * v && PackBits(l, i) == p * b + rest;
    }
  }

  /** Above the bits of `l` there may be more, `hi`. */
  lemma {:induction false} ShiftedValue(l: Bits8, hi: nat, i: nat)
    requires i <= 8
    ensures (Value(l, 0) + 0x100 * hi) / Pow2(i) == Value(l, i) + Pow2(8 - i) * hi
  {
    if i == 0 {
      Pow2Values();
    } else {
      ShiftedValue(l, hi, i - 1);
      HalfOfQuotient(Value(l, 0) + 0x100 * hi, Pow2(i - 1));
      NextPow2(i - 1);
      NextPow2(8 - i);
      HalveSum(Num(l[i - 1]), Value(l, i), Pow2(8 - i), hi);
    }
  }

  lemma BitOfValue(l: Bits8, hi: nat, i: nat)
    requires i < 8
    ensures (Value(l, 0) + 0x100 * hi) / Pow2(i) % 2 == Num(l[i])
  {
    ShiftedValue(l, hi, i);
    NextPow2(8 - i - 1);
    HalveSum(Num(l[i]), Value(l, i + 1), Pow2(8 - i - 1), hi);
  }

  lemma {:induction false} ValueBound(l: Bits8, i: nat)
    requires i <= 8
    ensures Value(l, i) < Pow2(8 - i)
    decreases 8 - i
  {
    if i < 8 {
      ValueBound(l, i + 1);
      NextPow2(8 - i - 1);
    }
  }

  /** Past the eight bits of `lo`. */
  lemma {:induction false} SkipByte(lo: nat, hi: nat, i: nat)
    requires lo < 0x100
    ensures (lo + 0x100 * hi) / Pow2(8 + i) == hi / Pow2(i)
  {
    if i == 0 {
      Pow2Values();
      assert Pow2(0) == 1;
    } else {
      SkipByte(lo, hi, i - 1);
      NextPow2(8 + i - 1);
      NextPow2(i - 1);
      HalfOfQuotient(lo + 0x100 * hi, Pow2(8 + i - 1));
      HalfOfQuotient(hi, Pow2(i - 1));
    }
  }

  /* ---- unpacking ---- */

  /** The value of the eight bits from `from` on, from bit i of them up. */
  function Field(x: Word, from: nat, i: nat): nat
    requires i <= 8
  {
    x as int / Pow2(from + i) % Pow2(8 - i)
  }

  lemma FieldStep(x: Word, from: nat, i: nat)
    requires i < 8
    ensures Field(x, from, i) == x as int / Pow2(from + i) % 2 + 2 * Field(x, from, i + 1)
  {
    var p, m := Pow2(from + i), Pow2(8 - (i + 1));
    NextPow2(from + i);
    NextPow2(8 - (i + 1));
    HalfOfQuotient(x, p);
    HalveMod(x as int / p, m);
  }

  lemma {:induction false} UnpackedValue(x: Word, from: nat, i: nat)
    requires i <= 8
    ensures Value(UnpackBits(x, from), i) == Field(x, from, i)
    decreases 8 - i
  {
    if i < 8 {
      UnpackedValue(x, from, i + 1);
      FieldStep(x, from, i);
      UnpackedBit(x, from, i);
    }
  }

  lemma UnpackedBit(x: Word, from: nat, i: nat)
    requires i < 8
    ensures Num(UnpackBits(x, from)[i]) == x as int / Pow2(from + i) % 2
  {
    var y := x as int / Pow2(from + i);
    Parity(y);
    assert UnpackBits(x, from)[i] == BitSet(x, from + i) == (y % 2 == 1);
  }

  lemma Parity(y: int)
    ensures y % 2 == 0 || y % 2 == 1
  {
  }

  /* ---- the two register moves ---- */

  lemma VflagsValue(fl: Flags, which: Reg)
    ensures GetVflags(fl, which) ==
            Value(FlagLow(fl, which), 0) + (if which != 2 then 0x100 * Value(FlagHigh(fl, which), 0) else 0)
  {
    PackedValue(FlagLow(fl, which), 0);
    PackedValue(FlagHigh(fl, which), 0);
    assert Pow2(0) == 1;
  }

  /** Sixteen bits survive the sign extension of cfc2; `k` is what it adds above them. */
  lemma SignExtended(a: nat, b: nat) returns (k: nat)
    requires a < 0x100 && b < 0x100
    ensures Wrap32(ToHalf(a + 0x100 * b)) == a + 0x100 * (b + 0x100 * k)
  {
    k := if a + 0x100 * b < 0x8000 then 0 else 0xffff;
  }

  lemma ReadBits(l: Bits8, h: Bits8, w: Word, k: nat)
    requires w == Value(l, 0) + 0x100 * (Value(h, 0) + 0x100 * k) && Value(l, 0) < 0x100
    ensures UnpackBits(w, 0) == l && UnpackBits(w, 8) == h
  {
    var lo, up := UnpackBits(w, 0), UnpackBits(w, 8);
    forall i: nat | i < 8 ensures lo[i] == l[i] && up[i] == h[i] {
      LowBit(l, Value(h, 0) + 0x100 * k, w, i);
      HighBit(Value(l, 0), h, k, w, i);
    }
    assert lo == l && up == h;
  }

  lemma LowBit(l: Bits8, hi: nat, w: Word, i: nat)
    requires i < 8 && w == Value(l, 0) + 0x100 * hi
    ensures UnpackBits(w, 0)[i] == l[i]
  {
    UnpackedBit(w, 0, i);
    BitOfValue(l, hi, i);
  }

  lemma HighBit(lo: nat, h: Bits8, k: nat, w: Word, i: nat)
    requires i < 8 && lo < 0x100 && w == lo + 0x100 * (Value(h, 0) + 0x100 * k)
    ensures UnpackBits(w, 8)[i] == h[i]
  {
    var hi := Value(h, 0) + 0x100 * k;
    UnpackedBit(w, 8, i);
    SkipByte(lo, hi, i);
    BitOfValue(h, k, i);
  }

  lemma {:induction false} NoFlags(l: Bits8, i: nat)
    requires i <= 8 && forall j :: 0 <= j < 8 ==> !l[j]
    ensures Value(l, i) == 0
    decreases 8 - i
  {
    if i < 8 {
      NoFlags(l, i + 1);
    }
  }

  /** Reading a flag register and writing the value back changes nothing. */
  lemma WriteUndoesRead(fl: Flags, which: Reg)
    ensures SetVflags(fl, which, Wrap32(ToHalf(GetVflags(fl, which)))) == fl
  {
    var w := Wrap32(ToHalf(GetVflags(fl, which)));
    var k := ReadValue(fl, which);
    ReadBits(FlagLow(fl, which), if which != 2 then FlagHigh(fl, which) else NONE, w, k);
    SameFlags(fl, which, w);
  }

  const NONE: Bits8 := seq(8, _ => false)

  /** The value cfc2 reads, in the form ReadBits takes it apart. */
  lemma ReadValue(fl: Flags, which: Reg) returns (k: nat)
    ensures var l, h := FlagLow(fl, which), if which != 2 then FlagHigh(fl, which) else NONE;
            Wrap32(ToHalf(GetVflags(fl, which))) == Value(l, 0) + 0x100 * (Value(h, 0) + 0x100 * k) &&
              Value(l, 0) < 0x100
  {
    var l, h := FlagLow(fl, which), if which != 2 then FlagHigh(fl, which) else NONE;
    VflagsValue(fl, which);
    NoFlags(NONE, 0);
    ByteBound(l);
    ByteBound(h);
    k := SignExtended(Value(l, 0), Value(h, 0));
  }

  lemma ByteBound(l: Bits8)
    ensures Value(l, 0) < 0x100
  {
    ValueBound(l, 0);
    Pow2Values();
  }

  lemma SameFlags(fl: Flags, which: Reg, w: Word)
    requires UnpackBits(w, 0) == FlagLow(fl, which) && (which != 2 ==> UnpackBits(w, 8) == FlagHigh(fl, which))
    ensures SetVflags(fl, which, w) == fl
  {
  }

  /** Writing a flag register and reading it back gives the sixteen bits written, eight for VCE. */
  lemma ReadUndoesWrite(fl: Flags, which: Reg, x: Word)
    ensures GetVflags(SetVflags(fl, which, x), which) == if which == 2 then x as int % 0x100 else x as int % 0x1_0000
  {
    var fl' := SetVflags(fl, which, x);
    var lo, hi := Value(UnpackBits(x, 0), 0), Value(UnpackBits(x, 8), 0);
    WrittenValue(fl, which, x);
    ByteUnpacked(x, 0);
    ByteUnpacked(x, 8);
    Pow2Values();
    assert Pow2(0) == 1;
    assert lo == x as int % 0x100 && hi == x as int / 0x100 % 0x100;
    LowAndHigh(x);
  }

  lemma WrittenValue(fl: Flags, which: Reg, x: Word)
    ensures GetVflags(SetVflags(fl, which, x), which) ==
              Value(UnpackBits(x, 0), 0) + if which != 2 then 0x100 * Value(UnpackBits(x, 8), 0) else 0
  {
    VflagsValue(SetVflags(fl, which, x), which);
  }

  lemma ByteUnpacked(x: Word, from: nat)
    ensures Value(UnpackBits(x, from), 0) == x as int / Pow2(from) % 0x100
  {
    UnpackedValue(x, from, 0);
    Pow2Values();
  }

  lemma LowAndHigh(x: int)
    ensures x % 0x1_0000 == x % 0x100 + 0x100 * (x / 0x100 % 0x100)
  {
  }
}
