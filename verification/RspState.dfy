/** The architectural state of the RSP (rsp.hh). */
module RspState {
  import opened Bits

  const MEM_SIZE := 0x2000
  const IMEM := 0x1000
  /** A DMA row may start at the last byte of the 24-bit address space and is at most
      4 KB long; the host buffer has to cover it. */
  const DRAM_SIZE := 0x100_1000

  type Regs = s: seq<Word> | |s| == 32 witness seq(32, _ => 0)
  type Row = s: seq<Half> | |s| == 8 witness seq(8, _ => 0)
  const ZERO_ROW: Row := seq(8, _ => 0)
  type VRegs = s: seq<Row> | |s| == 32 witness seq<Row>(32, _ => ZERO_ROW)
  type Accs = s: seq<Int64> | |s| == 8 witness seq(8, _ => 0)
  type Bits8 = s: seq<bool> | |s| == 8 witness seq(8, _ => false)
  type Mem = s: seq<Byte> | |s| == MEM_SIZE witness seq(MEM_SIZE, _ => 0)
  type Image = s: seq<Byte> | |s| == 0x1000 witness seq(0x1000, _ => 0)
  type Dram = s: seq<Byte> | |s| == DRAM_SIZE witness seq(DRAM_SIZE, _ => 0)

  /** VCO carry / not-equal, VCC compare / clip, VCE. */
  datatype Flags = Flags(vcoL: Bits8, vcoH: Bits8, vccL: Bits8, vccH: Bits8, vce: Bits8)

  /** The vector unit. */
  datatype Vu = Vu(v: VRegs, acc: Accs, fl: Flags)

  /** The SP registers COP0 reaches. */
  datatype Sp = Sp(memAddr: Word, dramAddr: Word, status: Word)

  datatype Rsp = Rsp(r: Regs, vu: Vu, mem: Mem, sp: Sp, dram: Dram, gen: nat, halted: bool)

  function ImageOf(s: Rsp): Image { s.mem[IMEM..] }

  /** The big-endian word at `a` of an instruction-memory image. */
  function WordAt(im: Image, a: Addr): Word {
    Be32(im[4 * a], im[4 * a + 1], im[4 * a + 2], im[4 * a + 3])
  }

  /** A register write followed by the interpreter's `r[0] = 0`. */
  function SetReg(s: Rsp, i: Reg, x: Word): Rsp { s.(r := s.r[i := x][0 := 0]) }

  /* ---- instruction fields ---- */
  function Op(w: Word): int { w / 0x400_0000 }
  function Rs(w: Word): Reg { w / 0x20_0000 % 32 }
  function Rt(w: Word): Reg { w / 0x1_0000 % 32 }
  function Rd(w: Word): Reg { w / 0x800 % 32 }
  function Sa(w: Word): Reg { w / 0x40 % 32 }
  function Fn(w: Word): int { w % 64 }
  function Uimm(w: Word): int { w % 0x1_0000 }
  function Simm(w: Word): Half { ToHalf(w) }
}
