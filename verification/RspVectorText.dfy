/** The text the vector classes emit: whole-vector operations on <8 x i64>, <8 x i16> and
    <8 x i1>, in the order their doOp writes them, and its agreement with the lane loop. */
module RspVectorText {
  import opened Bits
  import opened RspState
  import opened RspDecode
  import opened RspVector
  import opened RspVectorLaws

  type V64 = Accs

  /* ---- the operations of the text, on all eight lanes ---- */
  function WideS(v: Row): V64 { seq(8, i requires 0 <= i < 8 => v[i]) }
  function WideU(v: Row): V64 { seq(8, i requires 0 <= i < 8 => U16(v[i])) }
  function ZextFlag(v: Bits8): V64 { seq(8, i requires 0 <= i < 8 => if v[i] then 1 else 0) }
  function Splat(x: Int64): V64 { seq(8, i requires 0 <= i < 8 => x) }
  function Add(a: V64, b: V64): V64 { seq(8, i requires 0 <= i < 8 => Wrap64(a[i] as int + b[i])) }
  function Sub(a: V64, b: V64): V64 { seq(8, i requires 0 <= i < 8 => Wrap64(a[i] as int - b[i])) }
  function Mul(a: V64, b: V64): V64 { seq(8, i requires 0 <= i < 8 => Wrap64(a[i] as int * b[i])) }
  /** Shifts by one and by sixteen; `m` is the power of two. */
  function Shl(a: V64, m: int): V64 { seq(8, i requires 0 <= i < 8 => Wrap64(a[i] as int * m)) }
  function AShr(a: V64, m: int): V64
    requires m > 0
  {
    seq(8, i requires 0 <= i < 8 => Wrap64(a[i] as int / m))
  }
  function LShr16(a: V64): V64 { seq(8, i requires 0 <= i < 8 => a[i] as int % 0x1_0000_0000_0000_0000 / 0x1_0000) }
  /** `and` with 0xffff and with ~0xffff, and the `or` of such a pair. */
  function Low(a: V64): V64 { seq(8, i requires 0 <= i < 8 => a[i] % 0x1_0000) }
  function ClearLow(a: V64): V64 { seq(8, i requires 0 <= i < 8 => a[i] - a[i] % 0x1_0000) }
  function OrLow(a: V64, b: V64): V64
    requires forall i :: 0 <= i < 8 ==> a[i] % 0x1_0000 == 0 && 0 <= b[i] < 0x1_0000
  {
    seq(8, i requires 0 <= i < 8 => a[i] + b[i])
  }
  function Smax(a: V64, x: Int64): V64 { seq(8, i requires 0 <= i < 8 => if a[i] < x then x else a[i]) }
  function Smin(a: V64, x: Int64): V64 { seq(8, i requires 0 <= i < 8 => if a[i] > x then x else a[i]) }
  function Trunc(a: V64): Row { seq(8, i requires 0 <= i < 8 => ToHalf(a[i])) }
  function Slt(a: V64, x: Int64): Bits8 { seq(8, i requires 0 <= i < 8 => a[i] < x) }
  function Sgt(a: V64, x: Int64): Bits8 { seq(8, i requires 0 <= i < 8 => a[i] > x) }
  function Ule(a: V64, x: Int64): Bits8 { seq(8, i requires 0 <= i < 8 => a[i] <= x) }
  function IsZero(a: V64): Bits8 { seq(8, i requires 0 <= i < 8 => a[i] == 0) }
  /** `(a & 0x10000) != 0` */
  function Bit16(a: V64): Bits8 { seq(8, i requires 0 <= i < 8 => a[i] as int / 0x1_0000 % 2 != 0) }
  function Sgt16(a: Row, b: Row): Bits8 { seq(8, i requires 0 <= i < 8 => a[i] > b[i]) }
  function Eq16(a: Row, b: Row): Bits8 { seq(8, i requires 0 <= i < 8 => a[i] == b[i]) }
  function Uge16(a: Row, b: Row): Bits8 { seq(8, i requires 0 <= i < 8 => U16(a[i]) >= U16(b[i])) }
  function Neg16(a: Row): Row { seq(8, i requires 0 <= i < 8 => ToHalf(0 - a[i] as int)) }
  function Logic16(op: BitOp, a: Row, b: Row): Row { seq(8, i requires 0 <= i < 8 => Bits16(op, a[i], b[i])) }
  function And1(a: Bits8, b: Bits8): Bits8 { seq(8, i requires 0 <= i < 8 => a[i] && b[i]) }
  function Or1(a: Bits8, b: Bits8): Bits8 { seq(8, i requires 0 <= i < 8 => a[i] || b[i]) }
  function Not1(a: Bits8): Bits8 { seq(8, i requires 0 <= i < 8 => !a[i]) }
  function Sel16(c: Bits8, a: Row, b: Row): Row { seq(8, i requires 0 <= i < 8 => if c[i] then a[i] else b[i]) }
  function Sel1(c: Bits8, a: Bits8, b: Bits8): Bits8 { seq(8, i requires 0 <= i < 8 => if c[i] then a[i] else b[i]) }
  function Splat16(x: Half): Row { seq(8, i requires 0 <= i < 8 => x) }
  function Splat1(x: bool): Bits8 { seq(8, i requires 0 <= i < 8 => x) }

  /* ---- the idioms of rspFunc.cc ---- */
  function Shuffle(t: Row, e: nat): Row { seq(8, i requires 0 <= i < 8 => t[VtLane(e, i)]) }

  function VtSelect(t: Row, e: nat): Row { if e < 2 then t else Shuffle(t, e) }

  function Sext48V(a: V64): V64 { AShr(Shl(a, 0x1_0000), 0x1_0000) }

  function SatMid(a: V64): Row { Trunc(Smin(Smax(AShr(a, 0x1_0000), -32768), 32767)) }

  function ClampLow(a: V64): Row {
    var lo := Sel16(Sgt(a, 0x7fff_ffff), Splat16(-1), Trunc(a));
    Sel16(Slt(a, -0x8000_0000), Splat16(0), lo)
  }

  /* ---- doOp: the result register and the unit after it ---- */
  datatype Out = Out(res: Row, acc: V64, fl: Flags)

  function SetAccLow(acc: V64, res: Row): V64 { OrLow(ClearLow(acc), WideU(res)) }

  function MidText(acc: V64, fl: Flags): Out { Out(SatMid(acc), acc, fl) }

  function LowText(acc: V64, fl: Flags): Out { Out(ClampLow(acc), acc, fl) }

  function MulText(fn: int, s: Row, t: Row, acc: V64, fl: Flags): Out {
    match fn
    case 0x00 => MidText(Sext48V(Add(Shl(Mul(WideS(s), WideS(t)), 2), Splat(0x8000))), fl)
    case 0x04 => LowText(LShr16(Mul(WideU(s), WideU(t))), fl)
    case 0x05 => MidText(Sext48V(Mul(WideS(s), WideU(t))), fl)
    case 0x06 => LowText(Sext48V(Mul(WideU(s), WideS(t))), fl)
    case 0x07 => MidText(Sext48V(Shl(Mul(WideS(s), WideS(t)), 0x1_0000)), fl)
    case 0x08 => MidText(Sext48V(Add(acc, Shl(Mul(WideS(s), WideS(t)), 2))), fl)
    case 0x0d => MidText(Sext48V(Add(acc, Mul(WideS(s), WideU(t)))), fl)
    case 0x0e => LowText(Sext48V(Add(acc, Mul(WideU(s), WideS(t)))), fl)
    case _ => MidText(Sext48V(Add(acc, Shl(Mul(WideS(s), WideS(t)), 0x1_0000))), fl)
  }

  const CLEAR: Bits8 := Splat1(false)

  function SumText(x: V64, acc: V64, fl: Flags): Out {
    Out(Trunc(Smin(Smax(x, -32768), 32767)), OrLow(ClearLow(acc), Low(x)), fl.(vcoL := CLEAR, vcoH := CLEAR))
  }

  function VgeText(s: Row, t: Row, acc: V64, fl: Flags): Out {
    var both := And1(fl.vcoH, fl.vcoL);
    var ge := Or1(Sgt16(s, t), And1(Eq16(s, t), Not1(both)));
    var res := Sel16(ge, s, t);
    Out(res, SetAccLow(acc, res), fl.(vccL := ge, vccH := CLEAR, vcoL := CLEAR, vcoH := CLEAR))
  }

  /** New where the carry is set and VCO_H is not: the sum is zero or, with VCE, at most 2^16. */
  function VclLow(s: Row, t: Row, fl: Flags): Bits8 {
    var sum := Add(WideU(s), WideU(t));
    Sel1(And1(fl.vcoL, Not1(fl.vcoH)), Sel1(fl.vce, Ule(sum, 0x1_0000), IsZero(sum)), fl.vccL)
  }

  /** New where neither is set: no unsigned borrow. */
  function VclHigh(s: Row, t: Row, fl: Flags): Bits8 {
    Sel1(And1(Not1(fl.vcoL), Not1(fl.vcoH)), Uge16(s, t), fl.vccH)
  }

  function VclText(s: Row, t: Row, acc: V64, fl: Flags): Out {
    var vccL, vccH := VclLow(s, t, fl), VclHigh(s, t, fl);
    var res := Sel16(fl.vcoL, Sel16(vccL, Neg16(t), s), Sel16(vccH, t, s));
    Out(res, SetAccLow(acc, res), Flags(CLEAR, CLEAR, vccL, vccH, CLEAR))
  }

  function CarryText(x: V64, acc: V64, fl: Flags): Out {
    Out(Trunc(x), SetAccLow(acc, Trunc(x)), fl.(vcoL := Bit16(x), vcoH := CLEAR))
  }

  function SliceText(e: nat, acc: V64): Row {
    if e == 8 then Trunc(AShr(acc, 0x1_0000_0000))
    else if e == 9 then Trunc(AShr(acc, 0x1_0000))
    else if e == 10 then Trunc(AShr(acc, 1))
    else Splat16(0)
  }

  function LogicText(op: BitOp, s: Row, t: Row, acc: V64, fl: Flags): Out {
    Out(Logic16(op, s, t), SetAccLow(acc, Logic16(op, s, t)), fl)
  }

  function AluText(fn: int, e: nat, s: Row, t: Row, acc: V64, fl: Flags): Out {
    match fn
    case 0x10 => SumText(Add(Add(WideS(s), WideS(t)), ZextFlag(fl.vcoL)), acc, fl)
    case 0x11 => SumText(Sub(Sub(WideS(s), WideS(t)), ZextFlag(fl.vcoL)), acc, fl)
    case 0x14 => CarryText(Add(WideU(s), WideU(t)), acc, fl)
    case 0x1d => Out(SliceText(e, acc), acc, fl)
    case 0x23 => VgeText(s, t, acc, fl)
    case 0x24 => VclText(s, t, acc, fl)
    case 0x28 => LogicText(AndOp, s, t, acc, fl)
    case _ => LogicText(XorOp, s, t, acc, fl)
  }

  function VectorText(w: Word, vu: Vu): Vu {
    var s, t := vu.v[VecVs(w)], VtSelect(vu.v[VecVt(w)], VecE(w));
    var o := if Fn(w) < 0x10 then MulText(Fn(w), s, t, vu.acc, vu.fl) else AluText(Fn(w), VecE(w), s, t, vu.acc, vu.fl);
    Vu(vu.v[VecVd(w) := o.res], o.acc, o.fl)
  }

  /* ---- agreement with the interpreter ---- */

  /** What the text leaves in lane i. */
  function OutLane(o: Out, i: nat): LaneOut
    requires i < 8
  {
    LaneOut(o.res[i], Lane(o.acc[i], o.fl.vcoL[i], o.fl.vcoH[i], o.fl.vccL[i], o.fl.vccH[i], o.fl.vce[i]))
  }

  function FlagLane(acc: V64, fl: Flags, i: nat): Lane
    requires i < 8
  {
    Lane(acc[i], fl.vcoL[i], fl.vcoH[i], fl.vccL[i], fl.vccH[i], fl.vce[i])
  }

  lemma MidLane(acc: V64, fl: Flags, i: nat, sum: int, x: Lane)
    requires i < 8 && acc[i] == Sext48(sum) && x == FlagLane(acc, fl, i).(acc := x.acc)
    ensures OutLane(MidText(acc, fl), i) == MidOf(sum, x)
  {
  }

  lemma LowLane(acc: V64, fl: Flags, i: nat, a: Int64, x: Lane)
    requires i < 8 && acc[i] == a && x == FlagLane(acc, fl, i).(acc := x.acc)
    ensures OutLane(LowText(acc, fl), i) == LowOf(a, x)
  {
  }

  lemma WrapPeriod(z: int, k: int)
    ensures Wrap64(z - k * 0x1_0000_0000_0000_0000) == Wrap64(z)
  {
    var h := z + 0x8000_0000_0000_0000;
    var q, r := h / 0x1_0000_0000_0000_0000, h % 0x1_0000_0000_0000_0000;
    assert h - k * 0x1_0000_0000_0000_0000 == (q - k) * 0x1_0000_0000_0000_0000 + r;
  }

  /** The wrap of 64-bit arithmetic is lost in the 48 bits that are kept. */
  lemma Sext48OfWrap(sum: int)
    ensures Sext48(Wrap64(sum)) == Sext48(sum)
    ensures Wrap64(Sext48(sum)) == Sext48(sum)
  {
    var q := (sum + 0x8000_0000_0000_0000) / 0x1_0000_0000_0000_0000;
    assert Wrap64(sum) == sum - q * 0x1_0000_0000_0000_0000;
    WrapPeriod(sum * 0x1_0000, q * 0x1_0000);
  }

  lemma Sext48Lane(a: V64, i: nat, sum: int)
    requires i < 8 && a[i] == Wrap64(sum)
    ensures Sext48V(a)[i] == Sext48(sum)
  {
    Sext48OfWrap(sum);
    assert Shl(a, 0x1_0000)[i] == Wrap64(a[i] as int * 0x1_0000);
  }

  /** No product of two halves, doubled or shifted, leaves 64 bits. */
  lemma ProductFits(a: int, b: int)
    requires -0x8000 <= a < 0x1_0000 && -0x8000 <= b < 0x1_0000
    ensures Wrap64(a * b) == a * b && Wrap64(a * b * 2) == a * b * 2 && Wrap64(a * b * 0x1_0000) == a * b * 0x1_0000
    ensures Wrap64(a * b * 2 + 0x8000) == a * b * 2 + 0x8000
  {
    MulBound(a, b, 0x1_0000, 0x1_0000);
  }

  /** Lane i of the products the text forms. */
  lemma ProductLanes(s: Row, t: Row, i: nat)
    requires i < 8
    ensures Mul(WideS(s), WideS(t))[i] == s[i] as int * t[i]
    ensures Mul(WideS(s), WideU(t))[i] == s[i] as int * U16(t[i])
    ensures Mul(WideU(s), WideS(t))[i] == U16(s[i]) * t[i]
    ensures Mul(WideU(s), WideU(t))[i] == U16(s[i]) * U16(t[i])
    ensures Shl(Mul(WideS(s), WideS(t)), 2)[i] == s[i] as int * t[i] * 2
    ensures Shl(Mul(WideS(s), WideS(t)), 0x1_0000)[i] == s[i] as int * t[i] * 0x1_0000
  {
    ProductFits(s[i], t[i]);
    ProductFits(s[i], U16(t[i]));
    ProductFits(U16(s[i]), t[i]);
    ProductFits(U16(s[i]), U16(t[i]));
  }

  lemma MidCase(a: V64, fl: Flags, i: nat, sum: int, x: Lane)
    requires i < 8 && a[i] == Wrap64(sum) && x == FlagLane(a, fl, i).(acc := x.acc)
    ensures OutLane(MidText(Sext48V(a), fl), i) == MidOf(sum, x)
  {
    Sext48Lane(a, i, sum);
    MidLane(Sext48V(a), fl, i, sum, x);
  }

  lemma LowCase(a: V64, fl: Flags, i: nat, sum: int, x: Lane)
    requires i < 8 && a[i] == Wrap64(sum) && x == FlagLane(a, fl, i).(acc := x.acc)
    ensures OutLane(LowText(Sext48V(a), fl), i) == LowOf(Sext48(sum), x)
  {
    Sext48Lane(a, i, sum);
    LowLane(Sext48V(a), fl, i, Sext48(sum), x);
  }

  lemma MulfAgrees(s: Row, t: Row, acc: V64, fl: Flags, i: nat)
    requires i < 8
    ensures OutLane(MulText(0x00, s, t, acc, fl), i) == MulLane(0x00, s[i], t[i], FlagLane(acc, fl, i))
  {
    ProductLanes(s, t, i);
    MidCase(Add(Shl(Mul(WideS(s), WideS(t)), 2), Splat(0x8000)), fl, i,
            s[i] as int * t[i] * 2 + 0x8000, FlagLane(acc, fl, i));
  }

  lemma LShrLane(s: Row, t: Row, i: nat)
    requires i < 8
    ensures LShr16(Mul(WideU(s), WideU(t)))[i] == Wrap64(U16(s[i]) * U16(t[i]) / 0x1_0000)
  {
    ProductLanes(s, t, i);
    MulSign(U16(s[i]), U16(t[i]));
    MulBound(U16(s[i]), U16(t[i]), 0x1_0000, 0x1_0000);
    var p := U16(s[i]) * U16(t[i]);
    assert p % 0x1_0000_0000_0000_0000 == p;
  }

  lemma MudlAgrees(s: Row, t: Row, acc: V64, fl: Flags, i: nat)
    requires i < 8
    ensures OutLane(MulText(0x04, s, t, acc, fl), i) == MulLane(0x04, s[i], t[i], FlagLane(acc, fl, i))
  {
    LShrLane(s, t, i);
    LowLane(LShr16(Mul(WideU(s), WideU(t))), fl, i, Wrap64(U16(s[i]) * U16(t[i]) / 0x1_0000), FlagLane(acc, fl, i));
  }

  lemma MulNewAgrees(fn: int, s: Row, t: Row, acc: V64, fl: Flags, i: nat)
    requires (fn == 0x05 || fn == 0x06 || fn == 0x07) && i < 8
    ensures OutLane(MulText(fn, s, t, acc, fl), i) == MulLane(fn, s[i], t[i], FlagLane(acc, fl, i))
  {
    var x := FlagLane(acc, fl, i);
    ProductLanes(s, t, i);
    ProductFits(s[i], t[i]);
    if fn == 0x05 {
      MidCase(Mul(WideS(s), WideU(t)), fl, i, s[i] as int * U16(t[i]), x);
    } else if fn == 0x06 {
      LowCase(Mul(WideU(s), WideS(t)), fl, i, U16(s[i]) * t[i], x);
    } else {
      MidCase(Shl(Mul(WideS(s), WideS(t)), 0x1_0000), fl, i, s[i] as int * t[i] * 0x1_0000, x);
    }
  }

  lemma MulAccAgrees(fn: int, s: Row, t: Row, acc: V64, fl: Flags, i: nat)
    requires (fn == 0x08 || 0x0d <= fn <= 0x0f) && i < 8
    ensures OutLane(MulText(fn, s, t, acc, fl), i) == MulLane(fn, s[i], t[i], FlagLane(acc, fl, i))
  {
    var x, a: int := FlagLane(acc, fl, i), acc[i];
    ProductLanes(s, t, i);
    if fn == 0x08 || fn == 0x0f {
      MacSigned(s, t, acc, fl, i, if fn == 0x08 then 2 else 0x1_0000);
    } else if fn == 0x0d {
      MidCase(Add(acc, Mul(WideS(s), WideU(t))), fl, i, a + s[i] as int * U16(t[i]), x);
    } else {
      LowCase(Add(acc, Mul(WideU(s), WideS(t))), fl, i, a + U16(s[i]) * t[i], x);
    }
  }

  lemma MacSigned(s: Row, t: Row, acc: V64, fl: Flags, i: nat, m: int)
    requires i < 8 && (m == 2 || m == 0x1_0000)
    ensures OutLane(MulText(if m == 2 then 0x08 else 0x0f, s, t, acc, fl), i) ==
            MulLane(if m == 2 then 0x08 else 0x0f, s[i], t[i], FlagLane(acc, fl, i))
  {
    var x, a: int := FlagLane(acc, fl, i), acc[i];
    ProductLanes(s, t, i);
    MidCase(Add(acc, Shl(Mul(WideS(s), WideS(t)), m)), fl, i, a + s[i] as int * t[i] * m, x);
  }

  lemma MulAgrees(fn: int, s: Row, t: Row, acc: V64, fl: Flags, i: nat)
    requires IsTranslatedVectorOp(fn) && fn < 0x10 && i < 8
    ensures OutLane(MulText(fn, s, t, acc, fl), i) == MulLane(fn, s[i], t[i], FlagLane(acc, fl, i))
  {
    if fn == 0x00 {
      MulfAgrees(s, t, acc, fl, i);
    } else if fn == 0x04 {
      MudlAgrees(s, t, acc, fl, i);
    } else if fn <= 0x07 {
      MulNewAgrees(fn, s, t, acc, fl, i);
    } else {
      MulAccAgrees(fn, s, t, acc, fl, i);
    }
  }

  lemma SetAccLowLane(acc: V64, res: Row, i: nat)
    requires i < 8
    ensures SetAccLow(acc, res)[i] == SetLow(acc[i], res[i])
  {
  }

  lemma SumAgrees(x: V64, acc: V64, fl: Flags, i: nat, sum: int)
    requires i < 8 && x[i] == sum
    ensures OutLane(SumText(x, acc, fl), i) == SumOf(sum, FlagLane(acc, fl, i))
  {
  }

  lemma AddcAgrees(e: nat, s: Row, t: Row, acc: V64, fl: Flags, i: nat)
    requires i < 8
    ensures OutLane(AluText(0x14, e, s, t, acc, fl), i) == AluLane(0x14, e, s[i], t[i], FlagLane(acc, fl, i))
  {
    WideSum(s, t, i);
    CarryLane(Add(WideU(s), WideU(t)), acc, fl, i, U16(s[i]) + U16(t[i]));
    CarryCase(e, s[i], t[i], FlagLane(acc, fl, i));
  }

  lemma WideSum(s: Row, t: Row, i: nat)
    requires i < 8
    ensures Add(WideU(s), WideU(t))[i] == U16(s[i]) + U16(t[i])
  {
    SmallSum(U16(s[i]), U16(t[i]));
  }

  lemma SmallSum(x: int, y: int)
    requires 0 <= x < 0x1_0000 && 0 <= y < 0x1_0000
    ensures Wrap64(x + y) == x + y
  {
  }

  lemma CarryCase(e: nat, s: Half, t: Half, x: Lane)
    ensures AluLane(0x14, e, s, t, x) == CarryOf(U16(s) + U16(t), x)
  {
  }

  lemma CarryLane(x: V64, acc: V64, fl: Flags, i: nat, sum: int)
    requires i < 8 && x[i] == sum
    ensures OutLane(CarryText(x, acc, fl), i) == CarryOf(sum, FlagLane(acc, fl, i))
  {
    SetAccLowLane(acc, Trunc(x), i);
    SameSlice(acc[i], sum);
    Odd(sum / 0x1_0000);
  }

  function CarryOf(sum: int, x: Lane): LaneOut {
    LaneOut(ToHalf(sum), x.(acc := SetLow(x.acc, sum), coL := sum / 0x1_0000 % 2 == 1, coH := false))
  }

  lemma SameSlice(a: Int64, sum: int)
    ensures SetLow(a, ToHalf(sum)) == SetLow(a, sum)
  {
    HalfOf(sum);
  }

  lemma Odd(y: int)
    ensures y % 2 != 0 <==> y % 2 == 1
  {
  }

  lemma SarAgrees(e: nat, s: Row, t: Row, acc: V64, fl: Flags, i: nat)
    requires i < 8
    ensures OutLane(AluText(0x1d, e, s, t, acc, fl), i) == AluLane(0x1d, e, s[i], t[i], FlagLane(acc, fl, i))
  {
    SliceLane(acc, 0x1_0000_0000, i);
    SliceLane(acc, 0x1_0000, i);
    SliceLane(acc, 1, i);
    SliceCase(e, s[i], t[i], FlagLane(acc, fl, i));
  }

  lemma SliceCase(e: nat, s: Half, t: Half, x: Lane)
    ensures AluLane(0x1d, e, s, t, x).x == x
    ensures AluLane(0x1d, e, s, t, x).res ==
            ToHalf(if e == 8 then x.acc as int / 0x1_0000_0000 else if e == 9 then x.acc as int / 0x1_0000
                   else if e == 10 then x.acc as int / 1 else 0)
  {
  }

  lemma SliceLane(acc: V64, m: int, i: nat)
    requires i < 8 && (m == 1 || m == 0x1_0000 || m == 0x1_0000_0000)
    ensures Trunc(AShr(acc, m))[i] == ToHalf(acc[i] as int / m)
  {
    var shifted := AShr(acc, m);
    assert shifted[i] == acc[i] as int / m;
  }

  lemma VgeAgrees(s: Row, t: Row, acc: V64, fl: Flags, i: nat)
    requires i < 8
    ensures OutLane(VgeText(s, t, acc, fl), i) == VgeLane(s[i], t[i], FlagLane(acc, fl, i))
  {
    SetAccLowLane(acc, VgeText(s, t, acc, fl).res, i);
  }

  lemma VclFlagLanes(s: Row, t: Row, fl: Flags, i: nat, acc: Int64)
    requires i < 8
    ensures var x := VclLane(s[i], t[i], Lane(acc, fl.vcoL[i], fl.vcoH[i], fl.vccL[i], fl.vccH[i], fl.vce[i])).x;
            VclLow(s, t, fl)[i] == x.ccL && VclHigh(s, t, fl)[i] == x.ccH
  {
    SumLanes(s, t, fl.vcoL, i);
  }

  lemma VclAgrees(s: Row, t: Row, acc: V64, fl: Flags, i: nat)
    requires i < 8
    ensures OutLane(VclText(s, t, acc, fl), i) == VclLane(s[i], t[i], FlagLane(acc, fl, i))
  {
    VclFlagLanes(s, t, fl, i, acc[i]);
    SetAccLowLane(acc, VclText(s, t, acc, fl).res, i);
    NegLane(t, i);
  }

  lemma NegLane(t: Row, i: nat)
    requires i < 8
    ensures Neg16(t)[i] == ToHalf(0 - U16(t[i]))
  {
    var x: int := t[i];
    assert ToHalf(0 - x) == ToHalf(0 - U16(x));
  }

  lemma SumLanes(s: Row, t: Row, c: Bits8, i: nat)
    requires i < 8
    ensures Add(Add(WideS(s), WideS(t)), ZextFlag(c))[i] == s[i] as int + t[i] + (if c[i] then 1 else 0)
    ensures Sub(Sub(WideS(s), WideS(t)), ZextFlag(c))[i] == s[i] as int - t[i] - (if c[i] then 1 else 0)
    ensures Add(WideU(s), WideU(t))[i] == U16(s[i]) + U16(t[i])
  {
    var a, b, u, v, z := WideS(s), WideS(t), WideU(s), WideU(t), ZextFlag(c);
    assert a[i] == s[i] && b[i] == t[i] && u[i] == U16(s[i]) && v[i] == U16(t[i]) && z[i] == if c[i] then 1 else 0;
    SumLane(a, b, z, i);
    SumLane(u, v, z, i);
  }

  lemma SumLane(a: V64, b: V64, z: V64, i: nat)
    requires i < 8 && Small(a[i]) && Small(b[i]) && Small(z[i])
    ensures Add(Add(a, b), z)[i] == a[i] as int + b[i] + z[i] && Sub(Sub(a, b), z)[i] == a[i] as int - b[i] - z[i]
    ensures Add(a, b)[i] == a[i] as int + b[i]
  {
    var p, m := Add(a, b), Sub(a, b);
    assert p[i] == a[i] as int + b[i] && m[i] == a[i] as int - b[i];
  }

  predicate Small(x: int) { -0x1_0000 <= x <= 0x1_0000 }

  lemma AddAgrees(e: nat, s: Row, t: Row, acc: V64, fl: Flags, i: nat)
    requires i < 8
    ensures OutLane(AluText(0x10, e, s, t, acc, fl), i) == AluLane(0x10, e, s[i], t[i], FlagLane(acc, fl, i))
  {
    SumLanes(s, t, fl.vcoL, i);
    var x, sum := Add(Add(WideS(s), WideS(t)), ZextFlag(fl.vcoL)), s[i] as int + t[i] + (if fl.vcoL[i] then 1 else 0);
    SumAgrees(x, acc, fl, i, sum);
    assert AluText(0x10, e, s, t, acc, fl) == SumText(x, acc, fl);
  }

  lemma SubAgrees(e: nat, s: Row, t: Row, acc: V64, fl: Flags, i: nat)
    requires i < 8
    ensures OutLane(AluText(0x11, e, s, t, acc, fl), i) == AluLane(0x11, e, s[i], t[i], FlagLane(acc, fl, i))
  {
    SumLanes(s, t, fl.vcoL, i);
    var x, sum := Sub(Sub(WideS(s), WideS(t)), ZextFlag(fl.vcoL)), s[i] as int - t[i] - (if fl.vcoL[i] then 1 else 0);
    SumAgrees(x, acc, fl, i, sum);
    assert AluText(0x11, e, s, t, acc, fl) == SumText(x, acc, fl);
  }

  lemma LogicAgrees(e: nat, s: Row, t: Row, acc: V64, fl: Flags, i: nat)
    requires i < 8
    ensures OutLane(AluText(0x28, e, s, t, acc, fl), i) == AluLane(0x28, e, s[i], t[i], FlagLane(acc, fl, i))
    ensures OutLane(AluText(0x2c, e, s, t, acc, fl), i) == AluLane(0x2c, e, s[i], t[i], FlagLane(acc, fl, i))
  {
    LogicLane(AndOp, s, t, acc, fl, i);
    LogicLane(XorOp, s, t, acc, fl, i);
    LogicCases(e, s[i], t[i], FlagLane(acc, fl, i));
  }

  lemma LogicLane(op: BitOp, s: Row, t: Row, acc: V64, fl: Flags, i: nat)
    requires i < 8
    ensures OutLane(LogicText(op, s, t, acc, fl), i) == WithLow(Bits16(op, s[i], t[i]), FlagLane(acc, fl, i))
  {
    SetAccLowLane(acc, Logic16(op, s, t), i);
  }

  lemma LogicCases(e: nat, s: Half, t: Half, x: Lane)
    ensures AluLane(0x28, e, s, t, x) == WithLow(Bits16(AndOp, s, t), x)
    ensures AluLane(0x2c, e, s, t, x) == WithLow(Bits16(XorOp, s, t), x)
  {
  }

  lemma AluAgrees(fn: int, e: nat, s: Row, t: Row, acc: V64, fl: Flags, i: nat)
    requires IsTranslatedVectorOp(fn) && fn >= 0x10 && i < 8
    ensures OutLane(AluText(fn, e, s, t, acc, fl), i) == AluLane(fn, e, s[i], t[i], FlagLane(acc, fl, i))
  {
    AddAgrees(e, s, t, acc, fl, i);
    SubAgrees(e, s, t, acc, fl, i);
    AddcAgrees(e, s, t, acc, fl, i);
    SarAgrees(e, s, t, acc, fl, i);
    VgeAgrees(s, t, acc, fl, i);
    VclAgrees(s, t, acc, fl, i);
    LogicAgrees(e, s, t, acc, fl, i);
  }

  /** The emitted vector code leaves exactly what the interpreter's lane loop leaves: result
      register, accumulators and all five flag sets, whichever registers coincide. */
  lemma VectorTextAgrees(w: Word, vu: Vu)
    requires IsTranslatedVectorOp(Fn(w))
    ensures VectorText(w, vu) == VectorOp(w, vu)
  {
    var fn, e, s, t0 := Fn(w), VecE(w), vu.v[VecVs(w)], vu.v[VecVt(w)];
    var t := VtSelect(t0, e);
    var o := if fn < 0x10 then MulText(fn, s, t, vu.acc, vu.fl) else AluText(fn, e, s, t, vu.acc, vu.fl);
    var l := LaneOuts(fn, e, s, t0, vu);
    forall i | 0 <= i < 8 ensures OutLane(o, i) == l[i] {
      assert t[i] == t0[VtLane(e, i)];
      if fn < 0x10 {
        MulAgrees(fn, s, t, vu.acc, vu.fl, i);
      } else {
        AluAgrees(fn, e, s, t, vu.acc, vu.fl, i);
      }
    }
    SameLanes(vu, o, l, VecVd(w));
  }

  lemma SameLanes(vu: Vu, o: Out, l: seq<LaneOut>, vd: Reg)
    requires |l| == 8 && forall i :: 0 <= i < 8 ==> OutLane(o, i) == l[i]
    ensures Vu(vu.v[vd := o.res], o.acc, o.fl) == SetLanes(vu, l, vd)
  {
    var u := SetLanes(vu, l, vd);
    forall i | 0 <= i < 8
      ensures o.res[i] == u.v[vd][i] && o.acc[i] == u.acc[i] && FlagLane(o.acc, o.fl, i) == FlagLane(u.acc, u.fl, i)
    {
      assert OutLane(o, i) == l[i];
    }
    assert o.res == u.v[vd] && o.acc == u.acc;
    assert forall i :: 0 <= i < 8 ==> FlagLane(o.acc, o.fl, i) == FlagLane(u.acc, u.fl, i);
    assert o.fl.vcoL == u.fl.vcoL && o.fl.vcoH == u.fl.vcoH && o.fl.vccL == u.fl.vccL && o.fl.vccH == u.fl.vccH;
    assert o.fl.vce == u.fl.vce;
    assert vu.v[vd := o.res] == u.v;
  }
}
