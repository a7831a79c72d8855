/** Plain instructions of `rsp_t::run`: everything but the transfers and BREAK. */
module RspExec {
  import opened Bits
  import opened RspState
  import opened RspControl
  import opened RspVector
  import opened RspMemory
  import opened RspDma

  /* ---- the integer core ---- */

  predicate IsSpecial(fn: int) {
    fn == 0 || fn == 2 || fn == 3 || fn == 4 || fn == 6 || fn == 7 || 0x20 <= fn <= 0x27 || fn == 0x2a || fn == 0x2b
  }

  function SpecialOp(w: Word, r: Regs): Word {
    var a, b := r[Rs(w)], r[Rt(w)];
    match Fn(w)
    case 0x00 => Shl32(b, Sa(w))
    case 0x02 => Lshr32(b, Sa(w))
    case 0x03 => Ashr32(b, Sa(w))
    case 0x04 => Shl32(b, a % 32)
    case 0x06 => Lshr32(b, a % 32)
    case 0x07 => Ashr32(b, a % 32)
    case 0x20 => Add32(a, b)
    case 0x21 => Add32(a, b)
    case 0x22 => Sub32(a, b)
    case 0x23 => Sub32(a, b)
    case 0x24 => And32(a, b)
    case 0x25 => Or32(a, b)
    case 0x26 => Xor32(a, b)
    case 0x27 => Not32(Or32(a, b))
    case 0x2a => Slt32(a, b)
    case _ => Sltu32(a, b)
  }

  function ImmediateOp(w: Word, r: Regs): Word {
    var a, simm := r[Rs(w)], Wrap32(Simm(w));
    match Op(w)
    case 0x08 => Add32(a, simm)
    case 0x09 => Add32(a, simm)
    case 0x0a => Slt32(a, simm)
    case 0x0b => Sltu32(a, simm)
    case 0x0c => And32(a, Uimm(w))
    case 0x0d => Or32(a, Uimm(w))
    case 0x0e => Xor32(a, Uimm(w))
    case _ => Shl32(Uimm(w), 16)
  }

  predicate IsLoad(op: int) { op == 0x20 || op == 0x21 || 0x23 <= op <= 0x25 }

  predicate IsStore(op: int) { op == 0x28 || op == 0x29 || op == 0x2b }

  function LoadValue(op: int, mem: Mem, ea: int): Word {
    match op
    case 0x20 => Wrap32(Signed8(DByte(mem, ea)))
    case 0x21 => Wrap32(ToHalf(Rd16(mem, ea)))
    case 0x23 => Rd32(mem, ea)
    case 0x24 => DByte(mem, ea)
    case _ => Rd16(mem, ea)
  }

  function LoadOp(w: Word, r: Regs, mem: Mem): Word { LoadValue(Op(w), mem, r[Rs(w)] as int + Simm(w)) }

  function StoreSize(op: int): nat { if op == 0x28 then 1 else if op == 0x29 then 2 else 4 }

  function StoreOp(w: Word, r: Regs, mem: Mem): Mem {
    WriteBytes(mem, r[Rs(w)] as int + Simm(w), BeBytes(r[Rt(w)], StoreSize(Op(w))))
  }

  /* ---- COP0: the SP registers ---- */

  /** The eight signals, from the i-th up: two command bits of x each, clear before set. */
  function StatusBits(status: Word, x: Word, i: nat): Word
    requires i <= 8
    decreases 8 - i
  {
    if i == 8 then status else
    var cleared :=
      if BitSet(x, 9 + 2 * i) && BitSet(status, 7 + i) then Wrap32(status as int - Pow2(7 + i)) else status;
    var written :=
      if BitSet(x, 10 + 2 * i) && !BitSet(cleared, 7 + i) then Wrap32(cleared as int + Pow2(7 + i)) else cleared;
    StatusBits(written, x, i + 1)
  }

  function ApplyStatusWrite(status: Word, x: Word): Word { StatusBits(status, x, 0) }

  predicate Mfc0Implemented(rd: Reg) { rd <= 15 }

  function Mfc0(sp: Sp, rd: Reg): Word {
    match rd
    case 0 => sp.memAddr
    case 1 => sp.dramAddr
    case 2 => 0xff8
    case 3 => 0xff8
    case 4 => sp.status
    case _ => 0
  }

  predicate Mtc0Implemented(rd: Reg) { rd <= 4 || 7 <= rd <= 15 }

  function Mtc0(s: Rsp, rd: Reg, x: Word): Rsp {
    match rd
    case 0 => s.(sp := s.sp.(memAddr := x % 0x2000))
    case 1 => s.(sp := s.sp.(dramAddr := x % 0x100_0000))
    case 2 => Dma(s, x, true)
    case 3 => Dma(s, x, false)
    case 4 => s.(sp := s.sp.(status := ApplyStatusWrite(s.sp.status, x)))
    case _ => s
  }

  /* ---- COP2 moves ---- */

  function Mfc2(row: Row, e: nat): Word { Wrap32(ToHalf(Be16(VByte(row, e), VByte(row, e + 1)))) }

  function Mtc2(row: Row, e: nat, x: Word): Row {
    var high := SetVByte(row, e, x / 0x100 % 0x100);
    if e != 15 then SetVByte(high, e + 1, x % 0x100) else high
  }

  /** Bits lo[0..8] as bits 0..7 of a number. */
  function PackBits(lo: Bits8, i: nat): (n: nat)
    requires i <= 8
    decreases 8 - i, lo
  {
    if i == 8 then 0 else (if lo[i] then Pow2(i) else 0) + PackBits(lo, i + 1)
  }

  function FlagLow(fl: Flags, which: Reg): Bits8 {
    if which == 0 then fl.vcoL else if which == 1 then fl.vccL else fl.vce
  }

  function FlagHigh(fl: Flags, which: Reg): Bits8 { if which == 0 then fl.vcoH else fl.vccH }

  function GetVflags(fl: Flags, which: Reg): nat {
    PackBits(FlagLow(fl, which), 0) + (if which != 2 then 0x100 * PackBits(FlagHigh(fl, which), 0) else 0)
  }

  function UnpackBits(x: Word, from: nat): Bits8 { seq(8, i requires 0 <= i < 8 => BitSet(x, from + i)) }

  function SetVflags(fl: Flags, which: Reg, x: Word): Flags {
    var lo, hi := UnpackBits(x, 0), UnpackBits(x, 8);
    if which == 0 then fl.(vcoL := lo, vcoH := hi)
    else if which == 1 then fl.(vccL := lo, vccH := hi)
    else if which == 2 then fl.(vce := lo)
    else fl.(vce := lo, vccH := hi)
  }

  /* ---- dispatch ---- */

  function ExecCop0(w: Word, s: Rsp): Outcome {
    if Rs(w) == 0 then (if Mfc0Implemented(Rd(w)) then Ok(SetReg(s, Rt(w), Mfc0(s.sp, Rd(w)))) else Die)
    else if Rs(w) == 4 then (if Mtc0Implemented(Rd(w)) then Ok(SetReg(Mtc0(s, Rd(w), s.r[Rt(w)]), 0, 0)) else Die)
    else Die
  }

  predicate IsVector(w: Word) { w as int / 0x200_0000 % 2 == 1 }

  function SetRow(s: Rsp, vd: Reg, row: Row): Rsp { s.(vu := s.vu.(v := s.vu.v[vd := row])) }

  function ExecCop2(w: Word, s: Rsp): Outcome {
    var vd, e, rt := Rd(w), VmE(w), Rt(w);
    if IsVector(w) then
      (if IsVectorOp(Fn(w)) then Ok(SetReg(s.(vu := VectorOp(w, s.vu)), 0, 0)) else Die)
    else match Rs(w)
      case 0 => Ok(SetReg(s, rt, Mfc2(s.vu.v[vd], e)))
      case 4 => Ok(SetReg(SetRow(s, vd, Mtc2(s.vu.v[vd], e, s.r[rt])), 0, 0))
      case 2 => Ok(SetReg(s, rt, Wrap32(ToHalf(GetVflags(s.vu.fl, vd)))))
      case 6 => Ok(SetReg(s.(vu := s.vu.(fl := SetVflags(s.vu.fl, vd, s.r[rt]))), 0, 0))
      case _ => Die
  }

  function ExecVecMem(w: Word, s: Rsp): Outcome {
    if Op(w) == 0x32 then
      (if LoadImplemented(w) then Ok(SetReg(s.(vu := s.vu.(v := LoadVec(w, s.r, s.vu.v, s.mem))), 0, 0)) else Die)
    else
      (if StoreImplemented(w) then Ok(SetReg(s.(mem := StoreVec(w, s.r, s.vu.v, s.mem)), 0, 0)) else Die)
  }

  /** The interpreter's switch, without the cases that transfer control. */
  function Exec(w: Word, s: Rsp): Outcome {
    var op := Op(w);
    if op == 0 then (if IsSpecial(Fn(w)) then Ok(SetReg(s, Rd(w), SpecialOp(w, s.r))) else Die)
    else if 0x08 <= op <= 0x0f then Ok(SetReg(s, Rt(w), ImmediateOp(w, s.r)))
    else if op == 0x10 then ExecCop0(w, s)
    else if op == 0x12 then ExecCop2(w, s)
    else if IsLoad(op) then Ok(SetReg(s, Rt(w), LoadOp(w, s.r, s.mem)))
    else if IsStore(op) then Ok(SetReg(s.(mem := StoreOp(w, s.r, s.mem)), 0, 0))
    else if op == 0x32 || op == 0x3a then ExecVecMem(w, s)
    else Die
  }

  /** No plain instruction but a DMA into its bank changes instruction memory. */
  lemma PlainKeepsImem(w: Word, s: Rsp)
    ensures Exec(w, s).Ok? ==>
              var s' := Exec(w, s).s;
              s'.gen >= s.gen && (s'.gen == s.gen ==> ImageOf(s') == ImageOf(s)) && s'.r[0] == 0 &&
              s'.halted == s.halted && (s'.gen != s.gen ==> Op(w) == 0x10 && Rs(w) == 4 && Rd(w) == 2)
  {
    if Op(w) == 0x10 {
      Cop0KeepsImem(w, s);
    } else if Op(w) == 0x12 {
      Cop2KeepsImem(w, s);
    } else if Op(w) == 0x32 || Op(w) == 0x3a {
      VecMemKeepsImem(w, s);
    } else if IsStore(Op(w)) {
      WritesSpareImem(s.mem, s.r[Rs(w)] as int + Simm(w), BeBytes(s.r[Rt(w)], StoreSize(Op(w))));
    }
  }

  predicate SameImem(s: Rsp, s': Rsp) {
    s'.gen == s.gen && ImageOf(s') == ImageOf(s) && s'.r[0] == 0 && s'.halted == s.halted
  }

  lemma Cop0KeepsImem(w: Word, s: Rsp)
    ensures ExecCop0(w, s).Ok? ==>
              var s' := ExecCop0(w, s).s;
              SameImem(s, s') || (Rs(w) == 4 && Rd(w) == 2 && s'.gen > s.gen && s'.r[0] == 0 && s'.halted == s.halted)
  {
    if Rs(w) == 4 && 2 <= Rd(w) <= 3 {
      ImemChangesCounted(s, s.r[Rt(w)], Rd(w) == 2);
    }
  }

  lemma Cop2KeepsImem(w: Word, s: Rsp)
    ensures ExecCop2(w, s).Ok? ==> SameImem(s, ExecCop2(w, s).s)
  {
  }

  lemma VecMemKeepsImem(w: Word, s: Rsp)
    ensures ExecVecMem(w, s).Ok? ==> SameImem(s, ExecVecMem(w, s).s)
  {
    if StoreImplemented(w) {
      StoreSparesImem(w, s.r, s.vu.v, s.mem);
    }
  }

  lemma StoreSparesImem(w: Word, r: Regs, v: VRegs, mem: Mem)
    requires StoreImplemented(w)
    ensures StoreVec(w, r, v, mem)[IMEM..] == mem[IMEM..]
  {
    forall ea: int, b: seq<Byte> ensures WriteBytes(mem, ea, b)[IMEM..] == mem[IMEM..] {
      WritesSpareImem(mem, ea, b);
    }
  }
}
