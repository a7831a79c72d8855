/** The vector ALU of rsp.cc (`cop2`), lane by lane, and what its instruction sequences compute. */
module RspVector {
  import opened Bits
  import opened RspState

  /** 48 bits, sign-extended: `(x << 16) >> 16` on a 64-bit integer. */
  function Sext48(x: int): Int64 { Wrap64(x * 0x1_0000) / 0x1_0000 }

  predicate In48(a: int) { -0x8000_0000_0000 <= a < 0x8000_0000_0000 }

  function ClampS16(x: int): Half { if x < -0x8000 then -0x8000 else if x > 0x7fff then 0x7fff else x }

  function ClampAccLow(a: int): Half {
    if a < -0x8000_0000 then 0 else if a > 0x7fff_ffff then -1 else ToHalf(a)
  }

  /** `(a & ~0xffff) | (x & 0xffff)` */
  function SetLow(a: Int64, x: int): Int64 { a - a % 0x1_0000 + x % 0x1_0000 }

  const HALF_BITS := 16

  function Bits16(op: BitOp, s: Half, t: Half): Half { ToHalf(Bitwise(op, U16(s), U16(t), HALF_BITS)) }

  /** `static_cast<int16_t>(~x)` */
  function Not16(x: Half): Half { -1 - x }

  /** The broadcast of the element specifier: whole, quarters, halves, or one lane. */
  function VtLane(e: nat, i: nat): (j: nat)
    requires i < 8
    ensures j < 8
  {
    if e < 2 then i else if e < 4 then i / 2 * 2 + e % 2 else if e < 8 then i / 4 * 4 + e % 4 else e % 8
  }

  /** One lane of the accumulators and flags. */
  datatype Lane = Lane(acc: Int64, coL: bool, coH: bool, ccL: bool, ccH: bool, ce: bool)

  datatype LaneOut = LaneOut(res: Half, x: Lane)

  function LaneAt(vu: Vu, i: nat): Lane
    requires i < 8
  {
    Lane(vu.acc[i], vu.fl.vcoL[i], vu.fl.vcoH[i], vu.fl.vccL[i], vu.fl.vccH[i], vu.fl.vce[i])
  }

  predicate IsVectorOp(fn: int) {
    fn == 0x00 || 0x04 <= fn <= 0x08 || 0x0d <= fn <= 0x11 || 0x13 <= fn <= 0x15 || fn == 0x1d ||
    fn == 0x23 || fn == 0x24 || 0x27 <= fn <= 0x2d
  }

  /** A result whose low 16 bits also go to the accumulator. */
  function WithLow(res: Half, x: Lane): LaneOut { LaneOut(res, x.(acc := SetLow(x.acc, res))) }

  function MidOf(acc: int, x: Lane): LaneOut {
    LaneOut(ClampS16(Sext48(acc) / 0x1_0000), x.(acc := Sext48(acc)))
  }

  function LowOf(acc: Int64, x: Lane): LaneOut { LaneOut(ClampAccLow(acc), x.(acc := acc)) }

  function SumOf(x: int, l: Lane): LaneOut {
    LaneOut(ClampS16(x), l.(acc := SetLow(l.acc, x), coL := false, coH := false))
  }

  function VgeLane(s: Half, t: Half, x: Lane): LaneOut {
    var ge := s > t || (s == t && !(x.coH && x.coL));
    var o := WithLow(if ge then s else t, x);
    o.(x := o.x.(ccL := ge, ccH := false, coL := false, coH := false))
  }

  function VclLane(s: Half, t: Half, x: Lane): LaneOut {
    var su, tu := U16(s), U16(t);
    var ccL := if x.coL && !x.coH then (if x.ce then su + tu <= 0x1_0000 else su + tu == 0) else x.ccL;
    var ccH := if !x.coL && !x.coH then su - tu >= 0 else x.ccH;
    var res := if x.coL then (if ccL then ToHalf(0 - tu) else s) else (if ccH then t else s);
    var o := WithLow(res, x);
    o.(x := o.x.(ccL := ccL, ccH := ccH, coL := false, coH := false, ce := false))
  }

  /** The multiplies and multiply-accumulates. */
  function MulLane(fn: int, s: Half, t: Half, x: Lane): LaneOut {
    var su, tu := U16(s), U16(t);
    match fn
    case 0x00 => MidOf(s * t * 2 + 0x8000, x)                              // vmulf
    case 0x04 => LowOf(Wrap64(su * tu / 0x1_0000), x)                      // vmudl
    case 0x05 => MidOf(s * tu, x)                                          // vmudm
    case 0x06 => LowOf(Sext48(su * t), x)                                  // vmudn
    case 0x07 => MidOf(s * t * 0x1_0000, x)                                // vmudh
    case 0x08 => MidOf(x.acc + s * t * 2, x)                               // vmacf
    case 0x0d => MidOf(x.acc + s * tu, x)                                  // vmadm
    case 0x0e => LowOf(Sext48(x.acc + su * t), x)                          // vmadn
    case _ => MidOf(x.acc + s * t * 0x1_0000, x)                           // vmadh
  }

  /** Sums, compares and logic. */
  function AluLane(fn: int, e: nat, s: Half, t: Half, x: Lane): LaneOut {
    var su, tu := U16(s), U16(t);
    match fn
    case 0x10 => SumOf(s + t + (if x.coL then 1 else 0), x)                // vadd
    case 0x11 => SumOf(s - t - (if x.coL then 1 else 0), x)                // vsub
    case 0x13 => WithLow(if s < 0 then ToHalf(0 - t) else if s == 0 then 0 else t, x)   // vabs
    case 0x14 =>                                                           // vaddc
      LaneOut(ToHalf(su + tu), x.(acc := SetLow(x.acc, su + tu), coL := (su + tu) / 0x1_0000 % 2 == 1, coH := false))
    case 0x15 =>                                                           // vsubc
      var o := WithLow(ToHalf(s - t), x);
      o.(x := o.x.(coL := s - t < 0, coH := s - t != 0))
    case 0x1d =>                                                           // vsar
      var slice := if e == 8 then x.acc / 0x1_0000_0000 else if e == 9 then x.acc / 0x1_0000
                   else if e == 10 then x.acc else 0;
      LaneOut(ToHalf(slice), x)
    case 0x23 => VgeLane(s, t, x)
    case 0x24 => VclLane(s, t, x)
    case 0x27 => WithLow(if x.ccL then s else t, x)                        // vmrg
    case 0x28 => WithLow(Bits16(AndOp, s, t), x)                           // vand
    case 0x29 => WithLow(Not16(Bits16(AndOp, s, t)), x)                    // vnand
    case 0x2a => WithLow(Bits16(OrOp, s, t), x)                            // vor
    case 0x2b => WithLow(Not16(Bits16(OrOp, s, t)), x)                     // vnor
    case 0x2c => WithLow(Bits16(XorOp, s, t), x)                           // vxor
    case _ => WithLow(Not16(Bits16(XorOp, s, t)), x)                       // vnxor
  }

  /** The body of the lane loop of `cop2`. */
  function LaneOp(fn: int, e: nat, s: Half, t: Half, x: Lane): LaneOut
    requires IsVectorOp(fn)
  {
    if fn < 0x10 then MulLane(fn, s, t, x) else AluLane(fn, e, s, t, x)
  }

  /* ---- the whole instruction ---- */

  function VecE(w: Word): nat { w / 0x20_0000 % 16 }
  function VecVt(w: Word): Reg { Rt(w) }
  function VecVs(w: Word): Reg { Rd(w) }
  function VecVd(w: Word): Reg { Sa(w) }

  /** Lane i of vector operation `fn` on registers s and t (t before the element specifier). */
  function LaneOfOp(fn: int, e: nat, s: Row, t: Row, vu: Vu, i: nat): LaneOut
    requires IsVectorOp(fn) && i < 8
  {
    LaneOp(fn, e, s[i], t[VtLane(e, i)], LaneAt(vu, i))
  }

  function SetLanes(vu: Vu, o: seq<LaneOut>, vd: Reg): Vu
    requires |o| == 8
  {
    Vu(vu.v[vd := seq(8, i requires 0 <= i < 8 => o[i].res)],
       seq(8, i requires 0 <= i < 8 => o[i].x.acc),
       Flags(seq(8, i requires 0 <= i < 8 => o[i].x.coL), seq(8, i requires 0 <= i < 8 => o[i].x.coH),
             seq(8, i requires 0 <= i < 8 => o[i].x.ccL), seq(8, i requires 0 <= i < 8 => o[i].x.ccH),
             seq(8, i requires 0 <= i < 8 => o[i].x.ce)))
  }

  function LaneOuts(fn: int, e: nat, s: Row, t: Row, vu: Vu): (o: seq<LaneOut>)
    requires IsVectorOp(fn)
    ensures |o| == 8 && forall i :: 0 <= i < 8 ==> o[i] == LaneOfOp(fn, e, s, t, vu, i)
  {
    seq(8, i requires 0 <= i < 8 => LaneOfOp(fn, e, s, t, vu, i))
  }

  /** Every lane reads the registers as they were: vd may be vs or vt. */
  function VectorOp(w: Word, vu: Vu): Vu
    requires IsVectorOp(Fn(w))
  {
    SetLanes(vu, LaneOuts(Fn(w), VecE(w), vu.v[VecVs(w)], vu.v[VecVt(w)], vu), VecVd(w))
  }
}
