/** What the text of one plain instruction does to the frame (generateIR of the classes in
    rspInstruction.cc), and that it refines the interpreter. */
module RspEmit {
  import opened Bits
  import opened RspState
  import opened RspControl
  import opened RspDecode
  import opened RspVector
  import opened RspMemory
  import opened RspVectorText
  import opened RspMemoryText
  import opened RspExec
  import opened BlockGraph
  import opened Simulation

  /* ---- integer classes: operands a = GPR[rs], b = GPR[rt] ---- */

  function RTypeText(w: Word, f: Frame): Word {
    var a, b := f.GetGpr(Rs(w)), f.GetGpr(Rt(w));
    var fn := Fn(w);
    if fn == 0x20 || fn == 0x21 then Add32(a, b)
    else if fn == 0x22 || fn == 0x23 then Sub32(a, b)
    else if fn == 0x24 then And32(a, b)
    else if fn == 0x25 then Or32(a, b)
    else if fn == 0x26 then Xor32(a, b)
    else if fn == 0x27 then Not32(Or32(a, b))
    else if fn == 0x2a then Slt32(a, b)
    else if fn == 0x2b then Sltu32(a, b)
    else if fn == 0x04 then Shl32(b, a % 32)
    else if fn == 0x06 then Lshr32(b, a % 32)
    else if fn == 0x07 then Ashr32(b, a % 32)
    else if fn == 0x00 then Shl32(b, Sa(w))
    else if fn == 0x02 then Lshr32(b, Sa(w))
    else Ashr32(b, Sa(w))
  }

  /** effAddr: the sum is an i32, so it wraps. */
  function EffAddr(w: Word, f: Frame): Word { Add32(f.GetGpr(Rs(w)), Wrap32(Simm(w))) }

  function ITypeText(w: Word, f: Frame): Word {
    var a, op := f.GetGpr(Rs(w)), Op(w);
    if op == 0x0a then Slt32(a, Wrap32(Simm(w)))
    else if op == 0x0b then Sltu32(a, Wrap32(Simm(w)))
    else if op == 0x0c then And32(a, Uimm(w))
    else if op == 0x0d then Or32(a, Uimm(w))
    else if op == 0x0e then Xor32(a, Uimm(w))
    else if op == 0x0f then Wrap32(Uimm(w) * 0x1_0000)
    else EffAddr(w, f)
  }

  /** Sign or zero extension of what loadMem returned. */
  function ExtendText(op: int, x: int): Word {
    if op == 0x20 then Wrap32(Signed8(x % 0x100)) else if op == 0x21 then Wrap32(ToHalf(x)) else Wrap32(x)
  }

  function LoadSize(op: int): nat { if op == 0x20 || op == 0x24 then 1 else if op == 0x21 || op == 0x25 then 2 else 4 }

  function LoadValueText(op: int, mem: Mem, ea: int): Word { ExtendText(op, LoadText(mem, ea, LoadSize(op))) }

  function LoadInsnText(w: Word, f: Frame): Word { LoadValueText(Op(w), f.c.mem, EffAddr(w, f)) }

  function StoreInsnText(w: Word, f: Frame): Frame {
    var n := if Op(w) == 0x28 then 1 else if Op(w) == 0x29 then 2 else 4;
    f.(c := f.c.(mem := StoreText(f.c.mem, EffAddr(w, f), f.GetGpr(Rt(w)), n)))
  }

  /* ---- COP0 ---- */

  function Mfc0Text(w: Word, f: Frame): Emitted {
    if Mfc0Implemented(Rd(w)) then Fine(f.SetGpr(Rt(w), Mfc0(f.c.sp, Rd(w)))) else Dies
  }

  /** The callback says whether instruction memory was replaced; if so the text leaves. */
  function Mtc0Text(w: Word, a: Addr, f: Frame): Emitted {
    if !Mtc0Implemented(Rd(w)) then Dies else
    var c := Mtc0(f.c, Rd(w), f.GetGpr(Rt(w)));
    if c.gen != f.c.gen then Leave(Next(a), f.(c := c)) else Fine(f.(c := c))
  }

  /* ---- COP2 moves, which number the bytes of a register from its top ---- */

  function GetByteText(row: Row, k: nat): Byte {
    var lane := U16(row[k % 16 / 2]);
    if k % 2 == 1 then lane % 0x100 else lane / 0x100
  }

  function SetByteText(row: Row, k: nat, x: Word): Row {
    var lane := U16(row[k % 16 / 2]);
    var changed := if k % 2 == 1 then lane - lane % 0x100 + x % 0x100 else lane % 0x100 + 0x100 * (x as int % 0x100);
    row[k % 16 / 2 := ToHalf(changed)]
  }

  function Mfc2Text(w: Word, f: Frame): Frame {
    var row, e := f.vu.v[Rd(w)], VmE(w);
    f.SetGpr(Rt(w), Wrap32(ToHalf(0x100 * GetByteText(row, e) as int + GetByteText(row, e + 1))))
  }

  function Mtc2Text(w: Word, f: Frame): Frame {
    var x, e := f.GetGpr(Rt(w)), VmE(w);
    var high := SetByteText(f.vu.v[Rd(w)], e, x / 0x100);
    SetVec(f, Rd(w), if e != 15 then SetByteText(high, e + 1, x) else high)
  }

  /** The text of a word decode() accepts as a plain instruction. */
  function Emit(w: Word, a: Addr, f: Frame): Emitted {
    var op := Op(w);
    if op == 0 then Fine(f.SetGpr(Rd(w), RTypeText(w, f)))
    else if op < 0x10 then Fine(f.SetGpr(Rt(w), ITypeText(w, f)))
    else if op == 0x10 then (if Rs(w) == 0 then Mfc0Text(w, f) else Mtc0Text(w, a, f))
    else if op == 0x12 then
      Fine(if IsVector(w) then f.(vu := VectorText(w, f.vu)) else if Rs(w) == 0 then Mfc2Text(w, f) else Mtc2Text(w, f))
    else if op < 0x28 then Fine(f.SetGpr(Rt(w), LoadInsnText(w, f)))
    else if op < 0x30 then Fine(StoreInsnText(w, f))
    else if op == 0x32 then (if 1 <= VmOp(w) <= 5 then Fine(VecLoadText(w, f)) else Dies)
    else (if 1 <= VmOp(w) <= 4 then Fine(VecStoreText(w, f)) else Dies)
  }

  /* ---- agreement, class by class ---- */

  ghost predicate Agrees(w: Word, a: Addr, f: Frame) { RefinesAt(Exec, Emit, w, a, f) }

  /** A register result: the interpreter's SetReg on the synchronised state. */
  lemma SetGprSync(f: Frame, i: Reg, x: Word)
    requires f.c.r[0] == 0
    ensures Sync(f.SetGpr(i, x)) == SetReg(Sync(f), i, x) && f.SetGpr(i, x).c == f.c
  {
    SyncRegs(f);
  }

  lemma IntegerAgrees(w: Word, a: Addr, f: Frame)
    requires f.c.r[0] == 0 && Classify(w).PlainInsn? && Op(w) < 0x10
    ensures Agrees(w, a, f)
  {
    SyncRegs(f);
    if Op(w) == 0 {
      SpecialAgrees(w, f, Sync(f).r);
      SetGprSync(f, Rd(w), RTypeText(w, f));
    } else {
      ImmediateAgrees(w, f, Sync(f).r);
      SetGprSync(f, Rt(w), ITypeText(w, f));
    }
  }

  lemma SpecialAgrees(w: Word, f: Frame, r: Regs)
    requires IsSpecial(Fn(w)) && r[Rs(w)] == f.GetGpr(Rs(w)) && r[Rt(w)] == f.GetGpr(Rt(w))
    ensures RTypeText(w, f) == SpecialOp(w, r)
  {
  }

  lemma ImmediateAgrees(w: Word, f: Frame, r: Regs)
    requires 0x08 <= Op(w) <= 0x0f && r[Rs(w)] == f.GetGpr(Rs(w))
    ensures ITypeText(w, f) == ImmediateOp(w, r)
  {
    Pow2Values();
  }

  lemma Cop0Agrees(w: Word, a: Addr, f: Frame)
    requires f.c.r[0] == 0 && Classify(w).PlainInsn? && Op(w) == 0x10
    ensures Agrees(w, a, f)
  {
    SyncRegs(f);
    PlainKeepsImem(w, Sync(f));
    if Rs(w) == 0 {
      SetGprSync(f, Rt(w), Mfc0(f.c.sp, Rd(w)));
    } else {
      Mtc0OnFrame(f, Rd(w), f.GetGpr(Rt(w)));
    }
  }

  /** The device callbacks read and write nothing that lives in the locals. */
  lemma Mtc0OnFrame(f: Frame, rd: Reg, x: Word)
    requires f.c.r[0] == 0
    ensures Sync(f.(c := Mtc0(f.c, rd, x))) == SetReg(Mtc0(Sync(f), rd, x), 0, 0)
    ensures Mtc0(f.c, rd, x).gen == Mtc0(Sync(f), rd, x).gen && Mtc0(f.c, rd, x).r[0] == 0
  {
    SyncRegs(f);
  }

  /** The i32 effective address is the sum up to a multiple of 2^32. */
  lemma EffAddrWraps(w: Word, f: Frame) returns (q: int)
    ensures EffAddr(w, f) == f.GetGpr(Rs(w)) as int + Simm(w) - q * 0x1_0000_0000
  {
    var g: int, simm: int := f.GetGpr(Rs(w)), Simm(w);
    var d := if simm < 0 then 1 else 0;
    assert Wrap32(simm) == simm + d * 0x1_0000_0000;
    q := (g + simm + d * 0x1_0000_0000) / 0x1_0000_0000 - d;
  }

  lemma SameResidue(y: int, q: int)
    ensures (y - q * 0x1_0000_0000) % 0x1000 == y % 0x1000
  {
    assert (y - (q * 0x10_0000) * 0x1000) % 0x1000 == y % 0x1000;
  }

  lemma SameByteAt(mem: Mem, x: int, y: int, q: int, i: nat)
    requires x == y - q * 0x1_0000_0000
    ensures DByte(mem, x + i) == DByte(mem, y + i)
  {
    SameResidue(y + i, q);
  }

  lemma SameReads(mem: Mem, x: int, y: int, q: int)
    requires x == y - q * 0x1_0000_0000
    ensures DByte(mem, x) == DByte(mem, y) && Rd16(mem, x) == Rd16(mem, y) && Rd32(mem, x) == Rd32(mem, y)
  {
    SameByteAt(mem, x, y, q, 0);
    SameByteAt(mem, x, y, q, 1);
    SameByteAt(mem, x, y, q, 2);
    SameByteAt(mem, x, y, q, 3);
  }

  lemma SameWrite(mem: Mem, x: int, y: int, q: int, b: seq<Byte>)
    requires x == y - q * 0x1_0000_0000
    ensures WriteBytes(mem, x, b) == WriteBytes(mem, y, b)
  {
    var wx, wy := WriteBytes(mem, x, b), WriteBytes(mem, y, b);
    forall k | 0 <= k < MEM_SIZE ensures wx[k] == wy[k] {
      SameResidue(k - y, 0 - q);
    }
  }

  lemma LoadValueAgrees(op: int, mem: Mem, ea: int)
    requires IsLoad(op)
    ensures LoadValueText(op, mem, ea) == LoadValue(op, mem, ea)
  {
    ScalarLoadAgrees(mem, ea, LoadSize(op));
    ExtendAgrees(op, mem, ea, LoadText(mem, ea, LoadSize(op)));
  }

  lemma ExtendAgrees(op: int, mem: Mem, ea: int, x: int)
    requires IsLoad(op)
    requires x == (if LoadSize(op) == 1 then DByte(mem, ea) as int
                   else if LoadSize(op) == 2 then Rd16(mem, ea) else Rd32(mem, ea))
    ensures ExtendText(op, x) == LoadValue(op, mem, ea)
  {
    if op == 0x20 {
      SmallMod(DByte(mem, ea), 0x100);
    } else if op != 0x21 {
      WordsFit(mem, ea);
      SmallMod(x, 0x1_0000_0000);
    }
  }

  lemma SmallMod(x: int, n: int)
    requires 0 <= x < n
    ensures x % n == x
  {
  }

  lemma WordsFit(mem: Mem, ea: int)
    ensures 0 <= Rd16(mem, ea) < 0x1_0000 && 0 <= Rd32(mem, ea) < 0x1_0000_0000
  {
  }

  lemma LoadInsnAgrees(w: Word, f: Frame, r: Regs)
    requires IsLoad(Op(w)) && r[Rs(w)] == f.GetGpr(Rs(w))
    ensures LoadInsnText(w, f) == LoadOp(w, r, f.c.mem)
  {
    var q := EffAddrWraps(w, f);
    LoadsAlike(Op(w), f.c.mem, EffAddr(w, f), r[Rs(w)] as int + Simm(w), q);
  }

  lemma LoadsAlike(op: int, mem: Mem, x: int, y: int, q: int)
    requires IsLoad(op) && x == y - q * 0x1_0000_0000
    ensures LoadValueText(op, mem, x) == LoadValue(op, mem, y)
  {
    LoadValueAgrees(op, mem, x);
    SameReads(mem, x, y, q);
    SameValue(op, mem, x, y);
  }

  lemma SameValue(op: int, mem: Mem, x: int, y: int)
    requires DByte(mem, x) == DByte(mem, y) && Rd16(mem, x) == Rd16(mem, y) && Rd32(mem, x) == Rd32(mem, y)
    ensures LoadValue(op, mem, x) == LoadValue(op, mem, y)
  {
  }

  lemma StoreInsnAgrees(w: Word, f: Frame, r: Regs)
    requires IsStore(Op(w)) && r[Rs(w)] == f.GetGpr(Rs(w)) && r[Rt(w)] == f.GetGpr(Rt(w))
    ensures StoreInsnText(w, f) == f.(c := f.c.(mem := StoreOp(w, r, f.c.mem)))
  {
    var q := EffAddrWraps(w, f);
    StoresAlike(f.c.mem, EffAddr(w, f), r[Rs(w)] as int + Simm(w), q, r[Rt(w)], StoreSize(Op(w)));
  }

  lemma StoresAlike(mem: Mem, x: int, y: int, q: int, v: Word, n: nat)
    requires (n == 1 || n == 2 || n == 4) && x == y - q * 0x1_0000_0000
    ensures StoreText(mem, x, v, n) == WriteBytes(mem, y, BeBytes(v, n))
  {
    ScalarStoreAgrees(mem, x, v, n);
    SameWrite(mem, x, y, q, BeBytes(v, n));
  }

  lemma ScalarMemoryAgrees(w: Word, a: Addr, f: Frame)
    requires f.c.r[0] == 0 && Classify(w).PlainInsn? && (IsLoad(Op(w)) || IsStore(Op(w)))
    ensures Agrees(w, a, f)
  {
    SyncRegs(f);
    PlainKeepsImem(w, Sync(f));
    if IsLoad(Op(w)) {
      LoadInsnAgrees(w, f, Sync(f).r);
      SetGprSync(f, Rt(w), LoadInsnText(w, f));
    } else {
      StoreInsnAgrees(w, f, Sync(f).r);
    }
  }

  lemma MoveBytesAgree(row: Row, e: nat, x: Word)
    ensures GetByteText(row, e) == VByte(row, e) && SetByteText(row, e, x) == SetVByte(row, e, x % 0x100)
  {
  }

  lemma Mfc2Agrees(w: Word, f: Frame)
    requires f.c.r[0] == 0
    ensures Sync(Mfc2Text(w, f)) == SetReg(Sync(f), Rt(w), Mfc2(f.vu.v[Rd(w)], VmE(w))) && Mfc2Text(w, f).c == f.c
  {
    var row, e := f.vu.v[Rd(w)], VmE(w);
    MoveBytesAgree(row, e, 0);
    MoveBytesAgree(row, e + 1, 0);
    SetGprSync(f, Rt(w), Mfc2(row, e));
  }

  lemma Mtc2Agrees(w: Word, f: Frame)
    requires f.c.r[0] == 0
    ensures Sync(Mtc2Text(w, f)) == SetReg(SetRow(Sync(f), Rd(w), Mtc2(f.vu.v[Rd(w)], VmE(w), f.GetGpr(Rt(w)))), 0, 0)
    ensures Mtc2Text(w, f).c == f.c
  {
    var row, e, x := f.vu.v[Rd(w)], VmE(w), f.GetGpr(Rt(w));
    MoveBytesAgree(row, e, x / 0x100);
    MoveBytesAgree(SetVByte(row, e, x / 0x100 % 0x100), e + 1, x);
    SyncRegs(SetVec(f, Rd(w), Mtc2(row, e, x)));
  }

  lemma VectorAgrees(w: Word, f: Frame)
    requires f.c.r[0] == 0 && IsTranslatedVectorOp(Fn(w))
    ensures IsVectorOp(Fn(w)) && Sync(f.(vu := VectorText(w, f.vu))) == SetReg(Sync(f).(vu := VectorOp(w, f.vu)), 0, 0)
  {
    VectorTextAgrees(w, f.vu);
    SyncRegs(f);
  }

  lemma Cop2Agrees(w: Word, a: Addr, f: Frame)
    requires f.c.r[0] == 0 && Classify(w).PlainInsn? && Op(w) == 0x12
    ensures Agrees(w, a, f)
  {
    SyncRegs(f);
    if IsVector(w) {
      VectorAgrees(w, f);
    } else if Rs(w) == 0 {
      Mfc2Agrees(w, f);
    } else {
      Mtc2Agrees(w, f);
    }
  }

  lemma VectorMemoryAgrees(w: Word, a: Addr, f: Frame)
    requires f.c.r[0] == 0 && Classify(w).PlainInsn? && (Op(w) == 0x32 || Op(w) == 0x3a)
    ensures Agrees(w, a, f)
  {
    SyncRegs(f);
    PlainKeepsImem(w, Sync(f));
    if Op(w) == 0x32 {
      VecLoadAgrees(w, f);
    } else {
      VecStoreAgrees(w, f);
    }
  }

  /** Every plain instruction the translator accepts: same registers, vectors, accumulators,
      flags, memory, SP registers and DRAM, the same death, and the exit exactly on a swap. */
  lemma EmitRefinesExec()
    ensures Refines(Exec, Emit)
  {
    forall w: Word, a: Addr, f: Frame | Classify(w).PlainInsn? && f.c.r[0] == 0
      ensures RefinesAt(Exec, Emit, w, a, f)
    {
      PlainAgrees(w, a, f);
    }
  }

  lemma PlainAgrees(w: Word, a: Addr, f: Frame)
    requires Classify(w).PlainInsn? && f.c.r[0] == 0
    ensures Agrees(w, a, f)
  {
    if Op(w) < 0x10 {
      IntegerAgrees(w, a, f);
    } else if Op(w) == 0x10 {
      Cop0Agrees(w, a, f);
    } else if Op(w) == 0x12 {
      Cop2Agrees(w, a, f);
    } else if Op(w) == 0x32 || Op(w) == 0x3a {
      VectorMemoryAgrees(w, a, f);
    } else {
      ScalarMemoryAgrees(w, a, f);
    }
  }
}
