/** What the vector instructions are for: fixed-point products, saturation, double precision. */
module RspVectorLaws {
  import opened Bits
  import opened RspState
  import opened RspVector

  /** The signed value of a register pair: high half signed, low half unsigned. */
  function Pair(hi: Half, lo: Half): int { hi * 0x1_0000 + U16(lo) }

  function Sat32(x: int): int {
    if x < -0x8000_0000 then -0x8000_0000 else if x > 0x7fff_ffff then 0x7fff_ffff else x
  }

  /** The two shifts pick out the 48-bit residue, whatever the argument. */
  lemma Sext48Meaning(x: int)
    ensures In48(Sext48(x)) && (x - Sext48(x)) % 0x1_0000_0000_0000 == 0
    ensures In48(x) ==> Sext48(x) == x
  {
    var y := x * 0x1_0000;
    var q := (y + 0x8000_0000_0000_0000) / 0x1_0000_0000_0000_0000;
    assert Wrap64(y) == y - q * 0x1_0000_0000_0000_0000;
    assert Sext48(x) == x - q * 0x1_0000_0000_0000;
  }

  lemma MulSign(x: int, y: int)
    requires x >= 0 && y >= 0
    ensures x * y >= 0
  {
  }

  lemma MulBound(x: int, y: int, a: int, b: int)
    requires -a <= x <= a && -b <= y <= b
    ensures -(a * b) <= x * y <= a * b
  {
    MulSign(a - x, b - y);
    MulSign(a - x, b + y);
    MulSign(a + x, b - y);
    MulSign(a + x, b + y);
    assert (a - x) * (b - y) + (a + x) * (b + y) == 2 * (a * b) + 2 * (x * y);
    assert (a - x) * (b + y) + (a + x) * (b - y) == 2 * (a * b) - 2 * (x * y);
  }

  lemma MidKeeps48(acc: int, x: Lane)
    ensures In48(MidOf(acc, x).x.acc)
  {
    Sext48Meaning(acc);
  }

  lemma MulKeeps48(fn: int, s: Half, t: Half, x: Lane)
    ensures In48(MulLane(fn, s, t, x).x.acc)
  {
    forall a: int ensures In48(MidOf(a, x).x.acc) {
      MidKeeps48(a, x);
    }
    forall a: int ensures In48(Sext48(a)) {
      Sext48Meaning(a);
    }
    if fn == 0x04 {
      MudlKeeps48(s, t, x);
    }
  }

  lemma MudlKeeps48(s: Half, t: Half, x: Lane)
    ensures In48(MulLane(0x04, s, t, x).x.acc)
  {
    MulBound(U16(s), U16(t), 0x1_0000, 0x1_0000);
  }

  lemma AluKeeps48(fn: int, e: nat, s: Half, t: Half, x: Lane)
    requires In48(x.acc)
    ensures In48(AluLane(fn, e, s, t, x).x.acc)
  {
    if fn == 0x10 || fn == 0x11 {
      SumKeeps48(if fn == 0x10 then s + t + (if x.coL then 1 else 0) else s - t - (if x.coL then 1 else 0), x);
    } else if fn == 0x14 {
      CarryKeeps48(e, s, t, x);
    } else if fn == 0x23 {
      VgeKeeps48(s, t, x);
    } else if fn == 0x24 {
      VclKeeps48(s, t, x);
    } else if fn != 0x1d {
      ResultKeeps48(fn, e, s, t, x);
    }
  }

  lemma CarryKeeps48(e: nat, s: Half, t: Half, x: Lane)
    requires In48(x.acc)
    ensures In48(AluLane(0x14, e, s, t, x).x.acc)
  {
    LowKeeps48(x.acc, U16(s) + U16(t));
  }

  /** The operations that leave their result in the low slice. */
  lemma ResultKeeps48(fn: int, e: nat, s: Half, t: Half, x: Lane)
    requires In48(x.acc) && fn !in {0x10, 0x11, 0x14, 0x1d, 0x23, 0x24}
    ensures In48(AluLane(fn, e, s, t, x).x.acc)
  {
    LowKeeps48(x.acc, AluLane(fn, e, s, t, x).res);
  }

  lemma SumKeeps48(sum: int, x: Lane)
    requires In48(x.acc)
    ensures In48(SumOf(sum, x).x.acc)
  {
    LowKeeps48(x.acc, sum);
  }

  lemma VgeKeeps48(s: Half, t: Half, x: Lane)
    requires In48(x.acc)
    ensures In48(VgeLane(s, t, x).x.acc)
  {
    LowKeeps48(x.acc, VgeLane(s, t, x).res);
  }

  lemma VclKeeps48(s: Half, t: Half, x: Lane)
    requires In48(x.acc)
    ensures In48(VclLane(s, t, x).x.acc)
  {
    LowKeeps48(x.acc, VclLane(s, t, x).res);
  }

  lemma LowKeeps48(a: Int64, y: int)
    requires In48(a)
    ensures In48(SetLow(a, y))
  {
  }

  /** Every operation, translated or not, leaves a 48-bit accumulator. */
  lemma LaneKeeps48(fn: int, e: nat, s: Half, t: Half, x: Lane)
    requires IsVectorOp(fn) && In48(x.acc)
    ensures In48(LaneOp(fn, e, s, t, x).x.acc)
  {
    if fn < 0x10 {
      MulKeeps48(fn, s, t, x);
    } else {
      AluKeeps48(fn, e, s, t, x);
    }
  }

  lemma AccumulatorsStay48(w: Word, vu: Vu)
    requires IsVectorOp(Fn(w)) && forall i :: 0 <= i < 8 ==> In48(vu.acc[i])
    ensures forall i :: 0 <= i < 8 ==> In48(VectorOp(w, vu).acc[i])
  {
    var e, s, t := VecE(w), vu.v[VecVs(w)], vu.v[VecVt(w)];
    var o := LaneOuts(Fn(w), e, s, t, vu);
    forall i | 0 <= i < 8 ensures In48(VectorOp(w, vu).acc[i]) {
      LaneKeeps48(Fn(w), e, s[i], t[VtLane(e, i)], LaneAt(vu, i));
      assert o[i] == LaneOfOp(Fn(w), e, s, t, vu, i);
    }
  }

  /** The three slices vsar reads put a 48-bit accumulator together again. */
  lemma SlicesRecompose(s: Half, t: Half, x: Lane)
    requires In48(x.acc)
    ensures LaneOp(0x1d, 8, s, t, x).res * 0x1_0000_0000 + U16(LaneOp(0x1d, 9, s, t, x).res) * 0x1_0000 +
            U16(LaneOp(0x1d, 10, s, t, x).res) == x.acc
  {
    var mid := x.acc / 0x1_0000;
    HalfOf(x.acc / 0x1_0000_0000);
    HalfOf(mid);
    HalfOf(x.acc);
    assert mid / 0x1_0000 == x.acc / 0x1_0000_0000;
  }

  lemma HalfOf(y: int)
    ensures U16(ToHalf(y)) == y % 0x1_0000 && (-0x8000 <= y < 0x8000 ==> ToHalf(y) == y)
  {
  }

  /** The middle and low clamps are the two halves of the accumulator saturated to 32 bits. */
  lemma ClampsAreSaturation(a: int)
    requires In48(a)
    ensures Pair(ClampS16(a / 0x1_0000), ClampAccLow(a)) == Sat32(a)
  {
  }

  /* ---- the fixed-point product ---- */

  lemma Distribute(sh: int, sl: int, th: int, tl: int)
    ensures (sh * 0x1_0000 + sl) * (th * 0x1_0000 + tl) ==
            (sh * th * 0x1_0000 + sh * tl + sl * th) * 0x1_0000 + sl * tl
  {
    calc {
      (sh * 0x1_0000 + sl) * (th * 0x1_0000 + tl);
      sh * 0x1_0000 * (th * 0x1_0000 + tl) + sl * (th * 0x1_0000 + tl);
      sh * 0x1_0000 * (th * 0x1_0000) + sh * 0x1_0000 * tl + sl * (th * 0x1_0000) + sl * tl;
    }
  }

  /** What the four multiplies leave in the accumulator. */
  ghost predicate Accumulate(mul: (int, Half, Half, Lane) -> LaneOut) {
    && (forall s: Half, t: Half, x: Lane :: mul(0x04, s, t, x).x.acc == Wrap64(U16(s) * U16(t) / 0x1_0000))
    && (forall s: Half, t: Half, x: Lane :: mul(0x0d, s, t, x).x.acc == Sext48(x.acc + s * U16(t)))
    && (forall s: Half, t: Half, x: Lane :: mul(0x0e, s, t, x).x.acc == Sext48(x.acc + U16(s) * t))
    && (forall s: Half, t: Half, x: Lane :: mul(0x0f, s, t, x).x.acc == Sext48(x.acc + s * t * 0x1_0000))
  }

  lemma MulAccs()
    ensures Accumulate(MulLane)
  {
  }

  /** The four partial products of one lane, in the order vmudl, vmadm, vmadn, vmadh. */
  lemma LaneProduct(sh: Half, sl: Half, th: Half, tl: Half, x0: Lane)
    ensures var x1 := MulLane(0x04, sl, tl, x0).x;
            var x2 := MulLane(0x0d, sh, tl, x1).x;
            var x3 := MulLane(0x0e, sl, th, x2).x;
            var x4 := MulLane(0x0f, sh, th, x3).x;
            x4.acc == Pair(sh, sl) * Pair(th, tl) / 0x1_0000
  {
    MulAccs();
    ProductOf(MulLane, sh, sl, th, tl, x0);
  }

  lemma ProductOf(mul: (int, Half, Half, Lane) -> LaneOut, sh: Half, sl: Half, th: Half, tl: Half, x0: Lane)
    requires Accumulate(mul)
    ensures var x3 := mul(0x0e, sl, th, mul(0x0d, sh, tl, mul(0x04, sl, tl, x0).x).x).x;
            mul(0x0f, sh, th, x3).x.acc == Pair(sh, sl) * Pair(th, tl) / 0x1_0000
  {
    var x1 := mul(0x04, sl, tl, x0).x;
    var x2 := mul(0x0d, sh, tl, x1).x;
    var x3 := mul(0x0e, sl, th, x2).x;
    ProductOfPairs(sh, U16(sl), th, U16(tl), x1.acc, x2.acc, x3.acc);
  }

  lemma ProductOfPairs(sh: Half, sl: int, th: Half, tl: int, a1: int, a2: int, a3: int)
    requires 0 <= sl < 0x1_0000 && 0 <= tl < 0x1_0000
    requires a1 == Wrap64(sl * tl / 0x1_0000) && a2 == Sext48(a1 + sh * tl) && a3 == Sext48(a2 + sl * th)
    ensures Sext48(a3 + sh * th * 0x1_0000) == (sh * 0x1_0000 + sl) * (th * 0x1_0000 + tl) / 0x1_0000
  {
    ProductsBounded(sh, sl, th, tl);
    Distribute(sh, sl, th, tl);
    PartialSums(sl * tl, sh * tl, sl * th, sh * th, a1, a2, a3, (sh * 0x1_0000 + sl) * (th * 0x1_0000 + tl));
  }

  lemma ProductsBounded(sh: Half, sl: int, th: Half, tl: int)
    requires 0 <= sl < 0x1_0000 && 0 <= tl < 0x1_0000
    ensures 0 <= sl * tl <= 0xfffe_0001 && -0x7fff_8000 <= sh * tl <= 0x7fff_8000
    ensures -0x7fff_8000 <= sl * th <= 0x7fff_8000 && -0x4000_0000 <= sh * th <= 0x4000_0000
  {
    MulBound(sl, tl, 0xffff, 0xffff);
    MulSign(sl, tl);
    MulBound(sh, tl, 0x8000, 0xffff);
    MulBound(sl, th, 0xffff, 0x8000);
    MulBound(sh, th, 0x8000, 0x8000);
  }

  /** No partial sum wraps at 48 bits. */
  lemma PartialSums(ll: int, hl: int, lh: int, hh: int, a1: int, a2: int, a3: int, product: int)
    requires 0 <= ll <= 0xfffe_0001 && -0x7fff_8000 <= hl <= 0x7fff_8000
    requires -0x7fff_8000 <= lh <= 0x7fff_8000 && -0x4000_0000 <= hh <= 0x4000_0000
    requires a1 == Wrap64(ll / 0x1_0000) && a2 == Sext48(a1 + hl) && a3 == Sext48(a2 + lh)
    requires product == (hh * 0x1_0000 + hl + lh) * 0x1_0000 + ll
    ensures Sext48(a3 + hh * 0x1_0000) == product / 0x1_0000
  {
    HighPart(ll);
    NoWrap48(a1 + hl);
    NoWrap48(a2 + lh);
    NoWrap48(a3 + hh * 0x1_0000);
    WholeAndPart(hh * 0x1_0000 + hl + lh, ll);
  }

  lemma HighPart(ll: int)
    requires 0 <= ll <= 0xfffe_0001
    ensures 0 <= ll / 0x1_0000 <= 0xfffe && Wrap64(ll / 0x1_0000) == ll / 0x1_0000
  {
  }

  lemma NoWrap48(x: int)
    requires In48(x)
    ensures Sext48(x) == x
  {
    Sext48Meaning(x);
  }

  lemma WholeAndPart(k: int, ll: int)
    ensures (k * 0x1_0000 + ll) / 0x1_0000 == k + ll / 0x1_0000
  {
  }

  /** The idiom on whole registers: S = sh:sl, T = th:tl, every element specifier. */
  lemma FixedPointProduct(vu: Vu, w1: Word, w2: Word, w3: Word, w4: Word, sh: Reg, sl: Reg, th: Reg, tl: Reg, i: nat)
    requires i < 8
    requires Fn(w1) == 0x04 && Fn(w2) == 0x0d && Fn(w3) == 0x0e && Fn(w4) == 0x0f
    requires VecE(w1) == VecE(w2) == VecE(w3) == VecE(w4)
    requires VecVs(w1) == VecVs(w3) == sl && VecVs(w2) == VecVs(w4) == sh
    requires VecVt(w1) == VecVt(w2) == tl && VecVt(w3) == VecVt(w4) == th
    requires VecVd(w1) !in {sh, sl, th, tl} && VecVd(w2) !in {sh, sl, th} && VecVd(w3) !in {sh, th}
    ensures var j := VtLane(VecE(w1), i);
            var product := Pair(vu.v[sh][i], vu.v[sl][i]) * Pair(vu.v[th][j], vu.v[tl][j]) / 0x1_0000;
            var vu4 := VectorOp(w4, VectorOp(w3, VectorOp(w2, VectorOp(w1, vu))));
            vu4.acc[i] == product && vu4.v[VecVd(w4)][i] == ClampS16(product / 0x1_0000)
  {
    var e, j := VecE(w1), VtLane(VecE(w1), i);
    var vu1 := VectorOp(w1, vu);
    var vu2 := VectorOp(w2, vu1);
    var vu3 := VectorOp(w3, vu2);
    OpLane(w1, vu, i);
    OpLane(w2, vu1, i);
    OpLane(w3, vu2, i);
    OpLane(w4, vu3, i);
    LaneProduct(vu.v[sh][i], vu.v[sl][i], vu.v[th][j], vu.v[tl][j], LaneAt(vu, i));
  }

  /** Lane i after a vector operation is what the lane function says. */
  lemma OpLane(w: Word, vu: Vu, i: nat)
    requires IsVectorOp(Fn(w)) && i < 8
    ensures var o := LaneOp(Fn(w), VecE(w), vu.v[VecVs(w)][i], vu.v[VecVt(w)][VtLane(VecE(w), i)], LaneAt(vu, i));
            LaneAt(VectorOp(w, vu), i) == o.x && VectorOp(w, vu).v[VecVd(w)][i] == o.res
    ensures forall r: Reg :: r != VecVd(w) ==> VectorOp(w, vu).v[r] == vu.v[r]
  {
  }

  /* ---- double precision ---- */

  predicate Fits32(x: int) { -0x8000_0000 <= x < 0x8000_0000 }

  /** vaddc on the low halves, then vadd on the high halves: the exact 32-bit sum when it
      fits, else a saturated high half; the carry is used up. */
  lemma DoublePrecisionAdd(e: nat, sh: Half, sl: Half, th: Half, tl: Half, x0: Lane)
    ensures var lo := LaneOp(0x14, e, sl, tl, x0);
            var hi := LaneOp(0x10, e, sh, th, lo.x);
            var sum := Pair(sh, sl) + Pair(th, tl);
            !hi.x.coL && !hi.x.coH && U16(lo.res) == sum % 0x1_0000 &&
            (if Fits32(sum) then Pair(hi.res, lo.res) == sum else hi.res == (if sum < 0 then -0x8000 else 0x7fff))
  {
    var lo := LaneOp(0x14, e, sl, tl, x0);
    VaddcLane(e, sl, tl, x0);
    PairSum(sh, sl, th, tl, if lo.x.coL then 1 else 0, lo.res);
  }

  lemma VaddcLane(e: nat, s: Half, t: Half, x: Lane)
    ensures var o := LaneOp(0x14, e, s, t, x);
            U16(o.res) == U16(s) + U16(t) - (if o.x.coL then 0x1_0000 else 0)
  {
    HalfBits(U16(s) + U16(t));
    CarryOut(U16(s), U16(t));
  }

  lemma CarryOut(s: int, t: int)
    requires 0 <= s < 0x1_0000 && 0 <= t < 0x1_0000
    ensures (s + t) / 0x1_0000 % 2 == if s + t < 0x1_0000 then 0 else 1
    ensures (s + t) % 0x1_0000 == s + t - (if s + t < 0x1_0000 then 0 else 0x1_0000)
  {
  }

  /** The high half of a sum, given the carry out of the low half. */
  lemma PairSum(sh: Half, sl: Half, th: Half, tl: Half, c: int, lo: Half)
    requires 0 <= c <= 1 && U16(lo) == U16(sl) + U16(tl) - c * 0x1_0000
    ensures var sum, h := Pair(sh, sl) + Pair(th, tl), sh + th + c;
            U16(lo) == sum % 0x1_0000 &&
            (if Fits32(sum) then Pair(ClampS16(h), lo) == sum else ClampS16(h) == (if sum < 0 then -0x8000 else 0x7fff))
  {
    assert Pair(sh, sl) + Pair(th, tl) == (sh + th + c) * 0x1_0000 + U16(lo);
  }

  lemma DoublePrecisionAddAll(vu: Vu, w1: Word, w2: Word, sh: Reg, sl: Reg, th: Reg, tl: Reg, i: nat)
    requires i < 8 && Fn(w1) == 0x14 && Fn(w2) == 0x10 && VecE(w1) == VecE(w2)
    requires VecVs(w1) == sl && VecVt(w1) == tl && VecVs(w2) == sh && VecVt(w2) == th
    requires VecVd(w1) !in {sh, th} && VecVd(w1) != VecVd(w2)
    ensures var j := VtLane(VecE(w1), i);
            var sum := Pair(vu.v[sh][i], vu.v[sl][i]) + Pair(vu.v[th][j], vu.v[tl][j]);
            var vu2 := VectorOp(w2, VectorOp(w1, vu));
            var hi, lo := vu2.v[VecVd(w2)][i], vu2.v[VecVd(w1)][i];
            !vu2.fl.vcoL[i] && !vu2.fl.vcoH[i] && U16(lo) == sum % 0x1_0000 &&
            (if Fits32(sum) then Pair(hi, lo) == sum else hi == (if sum < 0 then -0x8000 else 0x7fff))
  {
    var j := VtLane(VecE(w1), i);
    OpLane(w1, vu, i);
    OpLane(w2, VectorOp(w1, vu), i);
    DoublePrecisionAdd(VecE(w1), vu.v[sh][i], vu.v[sl][i], vu.v[th][j], vu.v[tl][j], LaneAt(vu, i));
  }

  /** The subtraction sequence is not exact in general: vsubc takes its borrow from the signed
      low halves.  A difference that fits comes out exact just when these have the same sign,
      or when saturating the high half hides the wrong borrow; one that does not fit saturates. */
  lemma DoublePrecisionSubtract(e: nat, sh: Half, sl: Half, th: Half, tl: Half, x0: Lane)
    ensures var lo := LaneOp(0x15, e, sl, tl, x0);
            var hi := LaneOp(0x11, e, sh, th, lo.x);
            var d := Pair(sh, sl) - Pair(th, tl);
            !hi.x.coL && !hi.x.coH && U16(lo.res) == d % 0x1_0000 && Difference(sl, tl, hi.res, lo.res, d)
  {
    var lo := LaneOp(0x15, e, sl, tl, x0);
    VsubcLane(e, sl, tl, x0);
    PairDifference(sh, sl, th, tl, lo.res);
  }

  /** What hi and lo hold of the difference d. */
  predicate Difference(sl: Half, tl: Half, hi: Half, lo: Half, d: int) {
    if Fits32(d) then
      Pair(hi, lo) == d <==> (sl < 0) == (tl < 0) || (sl < 0 && d < -0x7fff_0000) || (tl < 0 && d >= 0x7fff_0000)
    else hi == (if d < 0 then -0x8000 else 0x7fff)
  }

  lemma VsubcLane(e: nat, s: Half, t: Half, x: Lane)
    ensures var o := LaneOp(0x15, e, s, t, x);
            U16(o.res) == U16(s) - U16(t) + (if U16(s) < U16(t) then 0x1_0000 else 0) && o.x.coL == (s < t)
  {
    HalfBits(s - t);
    HalfDifference(s, t);
  }

  lemma HalfBits(x: int)
    ensures U16(ToHalf(x)) == x % 0x1_0000
  {
  }

  lemma HalfDifference(s: Half, t: Half)
    ensures (s - t) % 0x1_0000 == U16(s) - U16(t) + (if U16(s) < U16(t) then 0x1_0000 else 0)
  {
    HalfAsInt(s);
    HalfAsInt(t);
  }

  lemma HalfAsInt(s: Half)
    ensures U16(s) == if s < 0 then s + 0x1_0000 else s
  {
  }

  /** The high half of a difference: with the true borrow b, and with the one vsubc leaves. */
  lemma PairDifference(sh: Half, sl: Half, th: Half, tl: Half, lo: Half)
    requires U16(lo) == U16(sl) - U16(tl) + (if U16(sl) < U16(tl) then 0x1_0000 else 0)
    ensures var d, h := Pair(sh, sl) - Pair(th, tl), sh - th - (if sl < tl then 1 else 0);
            U16(lo) == d % 0x1_0000 && Difference(sl, tl, ClampS16(h), lo, d)
  {
    var b := if U16(sl) < U16(tl) then 1 else 0;
    var d, h := Pair(sh, sl) - Pair(th, tl), sh - th - b;
    assert d == h * 0x1_0000 + U16(lo);
    assert d < -0x7fff_0000 <==> h <= -0x8000;
    assert d >= 0x7fff_0000 <==> h >= 0x7fff;
  }

  /** 0x0001_0000 - 0x0000_ffff comes out as 0x0001_0001. */
  lemma SubtractWrong(x0: Lane)
    ensures var lo := LaneOp(0x15, 0, 0, -1, x0);
            var hi := LaneOp(0x11, 0, 1, 0, lo.x);
            Pair(1, 0) - Pair(0, -1) == 1 && Pair(hi.res, lo.res) == 0x1_0001
  {
  }
}
