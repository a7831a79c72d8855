/** What the translator of r4300bt.cc emits for one plain MIPS III instruction: a list of
    architectural effects, each of which can be predicated.  Floating-point arithmetic is
    the parameter `fp`; only where its operands and results live is modelled. */
module R4300Insn {
  import opened Collections
  import opened Bits
  import opened RspState

  type Dword = x: int | 0 <= x < 0x1_0000_0000_0000_0000

  type Gprs = s: seq<Dword> | |s| == 32 witness seq(32, _ => 0)
  /** The 32 slots of cpr1 as 32-bit halves: slot r is halves 2r (low) and 2r + 1. */
  type Fprs = s: seq<Word> | |s| == 64 witness seq(64, _ => 0)

  /** A masked address is below 0x2000_0000 and an access is at most eight bytes long. */
  const RAM_SIZE := 0x2000_0008
  type Ram = s: seq<Byte> | |s| == RAM_SIZE witness seq(RAM_SIZE, _ => 0)

  datatype Cpu = Cpu(gpr: Gprs, lo: Dword, hi: Dword, fpr: Fprs, fcc: Word) {
    function Get(r: Reg): Dword { if r == 0 then 0 else gpr[r] }
    function Slot(r: Reg): Dword { fpr[2 * r] as int + 0x1_0000_0000 * fpr[2 * r + 1] as int }
  }

  datatype Machine = Machine(cpu: Cpu, ram: Ram)

  /** Floating-point arithmetic and comparison, by function code and format. */
  datatype Fp = Fp(arith: (int, bool, Dword, Dword) -> Dword, compare: (int, bool, Dword, Dword) -> bool)

  /* ---- integer arithmetic ---- */

  function Lo32(x: Dword): Word { x % 0x1_0000_0000 }
  function Sext32(x: Word): Dword { if x < 0x8000_0000 then x else x + 0xffff_ffff_0000_0000 }
  function Wrap64u(x: int): Dword { x % 0x1_0000_0000_0000_0000 }
  function Signed64(x: Dword): int { if x < 0x8000_0000_0000_0000 then x else x - 0x1_0000_0000_0000_0000 }
  function Bits64(op: BitOp, x: Dword, y: Dword): Dword { Wrap64u(Bitwise(op, x, y, 64)) }
  function Flag(b: bool): Dword { if b then 1 else 0 }

  /** sdiv and srem truncate toward zero. */
  function TruncDiv(a: int, d: int): int
    requires d != 0
  {
    var q := (if a < 0 then 0 - a else a) / (if d < 0 then 0 - d else d);
    if (a < 0) == (d < 0) then q else 0 - q
  }

  function TruncRem(a: int, d: int): int
    requires d != 0
  {
    a - d * TruncDiv(a, d)
  }

  /* ---- memory ---- */

  /** The TLB alias at 0x7000_0000 is physical 0; everything else is masked like kseg0. */
  function PhysAddr(ea: Dword): Pa {
    var va: int := Lo32(ea);
    if va / 0x1000_0000 == 7 then va % 0x1000_0000 else va % 0x2000_0000
  }

  function EffAddr(w: Word, c: Cpu): Dword { Wrap64u(c.Get(Rs(w)) as int + Simm(w)) }

  /** The big-endian value of some bytes. */
  function BeValue(b: seq<Byte>): (v: nat)
  {
    if b == [] then 0 else BeValue(b[..|b| - 1]) * 0x100 + b[|b| - 1] as int
  }

  function BeBytesOf(v: int, n: nat): (b: seq<Byte>)
    ensures |b| == n
    decreases n
  {
    if n == 0 then [] else BeBytesOf(v / 0x100, n - 1) + [v % 0x100]
  }

  /** The width of a memory instruction, 0 for the others. */
  function LoadWidth(w: Word): nat {
    match Op(w)
    case 0x20 => 1 case 0x24 => 1
    case 0x21 => 2 case 0x25 => 2
    case 0x23 => 4 case 0x27 => 4 case 0x31 => 4
    case 0x37 => 8 case 0x35 => 8
    case _ => 0
  }

  function Loaded(w: Word, m: Machine): seq<Byte> {
    var pa := PhysAddr(EffAddr(w, m.cpu));
    m.ram[pa..pa + LoadWidth(w)]
  }

  /* ---- effects ---- */

  type Pa = x: int | 0 <= x < 0x2000_0000
  type Access = b: seq<Byte> | |b| <= 8
  type Half64 = x: int | 0 <= x < 64

  datatype Effect =
    | SetGpr(r: Reg, v: Dword)
    | Store(pa: Pa, b: Access)
    | SetLo(v: Dword)
    | SetHi(v: Dword)
    | SetFcc(cc: Word)
    | SetHalf(i: Half64, x: Word)
    | SetSlot(fr: Reg, v: Dword)

  /** An address that is written, when predication squashes a store, instead of the real one. */
  const BITBUCKET_PA := 0x0070_0b00

  function Poke(ram: Ram, pa: nat, b: seq<Byte>): Ram
    requires pa + |b| <= RAM_SIZE
  {
    ram[..pa] + b + ram[pa + |b|..]
  }

  /** An effect outside a branch-likely slot (`pred == nullptr`). */
  function Apply(e: Effect, m: Machine): Machine
  {
    var c := m.cpu;
    match e
    case SetGpr(r, v) => if r == 0 then m else m.(cpu := c.(gpr := c.gpr[r := v]))
    case Store(pa, b) => m.(ram := Poke(m.ram, pa, b))
    case SetLo(v) => m.(cpu := c.(lo := v))
    case SetHi(v) => m.(cpu := c.(hi := v))
    case SetFcc(cc) => m.(cpu := c.(fcc := cc))
    case SetHalf(i, x) => m.(cpu := c.(fpr := c.fpr[i := x]))
    case SetSlot(fr, v) => m.(cpu := c.(fpr := c.fpr[2 * fr := Lo32(v)][2 * fr + 1 := Wrap32(v / 0x1_0000_0000)]))
  }

  /** The same effect selected on `p`: the old value is written back, or the bit bucket is hit. */
  function ApplyIf(p: bool, e: Effect, m: Machine): Machine
  {
    var c := m.cpu;
    match e
    case SetGpr(r, v) => if r == 0 then m else m.(cpu := c.(gpr := c.gpr[r := if p then v else c.gpr[r]]))
    case Store(pa, b) => m.(ram := Poke(m.ram, if p then pa else BITBUCKET_PA, b))
    case SetLo(v) => m.(cpu := c.(lo := if p then v else c.lo))
    case SetHi(v) => m.(cpu := c.(hi := if p then v else c.hi))
    case SetFcc(cc) => m.(cpu := c.(fcc := if p then cc else c.fcc))
    case SetHalf(i, x) => m.(cpu := c.(fpr := c.fpr[i := if p then x else c.fpr[i]]))
    case SetSlot(fr, v) =>
      m.(cpu := c.(fpr := c.fpr[2 * fr := if p then Lo32(v) else c.fpr[2 * fr]]
                               [2 * fr + 1 := if p then Wrap32(v / 0x1_0000_0000) else c.fpr[2 * fr + 1]]))
  }

  function ApplyAll(es: seq<Effect>, m: Machine): Machine
  {
    if es == [] then m else ApplyAll(es[1..], Apply(es[0], m))
  }

  function ApplyAllIf(p: bool, es: seq<Effect>, m: Machine): Machine
  {
    if es == [] then m else ApplyAllIf(p, es[1..], ApplyIf(p, es[0], m))
  }

  /* ---- emitCop1 ---- */

  /** With FR = 0 a single sits in one half of an even slot. */
  function HalfIndex(r: Reg): Half64 { 2 * (r - r % 2) + r % 2 }

  function FprOperand(c: Cpu, dbl: bool, r: Reg): Dword { if dbl then c.Slot(r) else c.fpr[2 * r] }

  function PutFpr(dbl: bool, r: Reg, v: Dword): Effect { if dbl then SetSlot(r, v) else SetHalf(2 * r, Lo32(v)) }

  function PutFcc(fcc: Word, cc: nat, b: bool): Word {
    if b && !BitSet(fcc, cc) then Wrap32(fcc as int + Pow2(cc))
    else if !b && BitSet(fcc, cc) then Wrap32(fcc as int - Pow2(cc))
    else fcc
  }

  function FpArith(fp: Fp, w: Word, c: Cpu, dbl: bool): Option<seq<Effect>> {
    var fn, fs, ft, fd := Fn(w), Rd(w), Rt(w), Sa(w);
    var a, b := FprOperand(c, dbl, fs), FprOperand(c, dbl, ft);
    if fn <= 0x03 then Some([PutFpr(dbl, fd, fp.arith(fn, dbl, a, b))])
    else if fn == 0x05 || fn == 0x07 then Some([PutFpr(dbl, fd, fp.arith(fn, dbl, a, 0))])
    else if fn == 0x06 then Some([PutFpr(dbl, fd, a)])
    else if fn == 0x0d then Some([SetHalf(2 * fd, Lo32(fp.arith(fn, dbl, a, 0)))])
    else if fn >= 0x30 then
      if fn % 16 == 1 || fn % 16 == 2 || fn % 16 == 12 || fn % 16 == 14
      then Some([SetFcc(PutFcc(c.fcc, w / 0x100 % 8, fp.compare(fn % 16, dbl, a, b)))])
      else None
    else if fn == 0x20 && dbl then Some([PutFpr(false, fd, fp.arith(fn, dbl, a, 0))])
    else if fn == 0x21 && !dbl then Some([PutFpr(true, fd, fp.arith(fn, dbl, a, 0))])
    else None
  }

  function Cop1Effects(fp: Fp, w: Word, c: Cpu): Option<seq<Effect>> {
    var fn, rt, fs, fd := Fn(w), Rt(w), Rd(w), Sa(w);
    match Rs(w)
    case 0x00 => Some([SetGpr(rt, Sext32(c.fpr[HalfIndex(fs)]))])
    case 0x04 => Some([SetHalf(HalfIndex(fs), Lo32(c.Get(rt)))])
    case 0x10 => FpArith(fp, w, c, false)
    case 0x11 => FpArith(fp, w, c, true)
    case 0x14 =>
      if fn == 0x20 then Some([PutFpr(false, fd, fp.arith(0x120, false, c.fpr[2 * fs], 0))])
      else if fn == 0x21 then Some([PutFpr(true, fd, fp.arith(0x121, true, c.fpr[2 * fs], 0))])
      else None
    case _ => None
  }

  /* ---- emitOne ---- */

  function Product(y: int): seq<Effect> {
    [SetLo(Sext32(Wrap32(y))), SetHi(Sext32(Wrap32(y / 0x1_0000_0000)))]
  }

  /** A zero divisor keeps lo and hi, and is replaced so that the host does not trap. */
  function DivEffects(c: Cpu, rs: Reg, rt: Reg, signed: bool): seq<Effect> {
    var a, b := Lo32(c.Get(rs)), Lo32(c.Get(rt));
    var d := if b != 0 then b else 1;
    var q, r := if signed then TruncDiv(Signed32(a), Signed32(d)) else a as int / d,
                if signed then TruncRem(Signed32(a), Signed32(d)) else a as int % d;
    var nz := if signed then b != 0 else c.Get(rt) != 0;
    [SetLo(if nz then Sext32(Wrap32(q)) else c.lo), SetHi(if nz then Sext32(Wrap32(r)) else c.hi)]
  }

  function SpecialEffects(w: Word, c: Cpu): Option<seq<Effect>> {
    var rs, rt, rd := Rs(w), Rt(w), Rd(w);
    var s, t := c.Get(rs), c.Get(rt);
    var s32, t32 := Lo32(s), Lo32(t);
    match Fn(w)
    case 0x00 => Some([SetGpr(rd, Sext32(Shl32(t32, Sa(w))))])
    case 0x02 => Some([SetGpr(rd, Sext32(Lshr32(t32, Sa(w))))])
    case 0x03 => Some([SetGpr(rd, Sext32(Ashr32(t32, Sa(w))))])
    case 0x04 => Some([SetGpr(rd, Sext32(Shl32(t32, s32 % 32)))])
    case 0x06 => Some([SetGpr(rd, Sext32(Lshr32(t32, s32 % 32)))])
    case 0x07 => Some([SetGpr(rd, Sext32(Ashr32(t32, s32 % 32)))])
    case 0x10 => Some([SetGpr(rd, c.hi)])
    case 0x11 => Some([SetHi(s)])
    case 0x12 => Some([SetGpr(rd, c.lo)])
    case 0x13 => Some([SetLo(s)])
    case 0x18 => Some(Product(Signed32(s32) * Signed32(t32)))
    case 0x19 => Some(Product(s32 as int * t32))
    case 0x1a => Some(DivEffects(c, rs, rt, true))
    case 0x1b => Some(DivEffects(c, rs, rt, false))
    case 0x21 => Some([SetGpr(rd, Sext32(Add32(s32, t32)))])
    case 0x23 => Some([SetGpr(rd, Sext32(Sub32(s32, t32)))])
    case 0x24 => Some([SetGpr(rd, Bits64(AndOp, s, t))])
    case 0x25 => Some([SetGpr(rd, Bits64(OrOp, s, t))])
    case 0x26 => Some([SetGpr(rd, Bits64(XorOp, s, t))])
    case 0x27 => Some([SetGpr(rd, 0xffff_ffff_ffff_ffff - Bits64(OrOp, s, t))])
    case 0x2a => Some([SetGpr(rd, Flag(Signed64(s) < Signed64(t)))])
    case 0x2b => Some([SetGpr(rd, Flag(s < t))])
    case _ => None
  }

  /** Sign extension of a value whose sign bit weighs `half`. */
  function SextFrom(v: int, half: int): Dword { Wrap64u(if v < half then v else v - 2 * half) }

  /** emitOne: `b` is what a load at the effective address reads.  None is "not translated". */
  function Effects(fp: Fp, w: Word, c: Cpu, b: seq<Byte>): Option<seq<Effect>> {
    var rs, rt := Rs(w), Rt(w);
    var s, t, ea, simm := c.Get(rs), c.Get(rt), EffAddr(w, c), Wrap64u(Simm(w));
    match Op(w)
    case 0x00 => SpecialEffects(w, c)
    case 0x09 => Some([SetGpr(rt, Sext32(Add32(Lo32(s), Wrap32(Simm(w)))))])
    case 0x0a => Some([SetGpr(rt, Flag(Signed64(s) < Simm(w)))])
    case 0x0b => Some([SetGpr(rt, Flag(s < simm))])
    case 0x0c => Some([SetGpr(rt, Bits64(AndOp, s, Uimm(w)))])
    case 0x0d => Some([SetGpr(rt, Bits64(OrOp, s, Uimm(w)))])
    case 0x0e => Some([SetGpr(rt, Bits64(XorOp, s, Uimm(w)))])
    case 0x0f => Some([SetGpr(rt, Sext32(Wrap32(Uimm(w) * 0x1_0000)))])
    case 0x20 => Some([SetGpr(rt, SextFrom(BeValue(b), 0x80))])
    case 0x21 => Some([SetGpr(rt, SextFrom(BeValue(b), 0x8000))])
    case 0x23 => Some([SetGpr(rt, SextFrom(BeValue(b), 0x8000_0000))])
    case 0x24 => Some([SetGpr(rt, Wrap64u(BeValue(b)))])
    case 0x25 => Some([SetGpr(rt, Wrap64u(BeValue(b)))])
    case 0x27 => Some([SetGpr(rt, Wrap64u(BeValue(b)))])
    case 0x37 => Some([SetGpr(rt, Wrap64u(BeValue(b)))])
    case 0x28 => Some([Store(PhysAddr(ea), BeBytesOf(t, 1))])
    case 0x29 => Some([Store(PhysAddr(ea), BeBytesOf(t, 2))])
    case 0x2b => Some([Store(PhysAddr(ea), BeBytesOf(t, 4))])
    case 0x3f => Some([Store(PhysAddr(ea), BeBytesOf(t, 8))])
    case 0x31 => Some([SetHalf(HalfIndex(rt), Wrap32(BeValue(b)))])
    case 0x35 => Some([SetSlot(rt - rt % 2, Wrap64u(BeValue(b)))])
    case 0x39 => Some([Store(PhysAddr(ea), BeBytesOf(c.fpr[HalfIndex(rt)], 4))])
    case 0x3d => Some([Store(PhysAddr(ea), BeBytesOf(c.Slot(rt - rt % 2), 8))])
    case 0x11 => Cop1Effects(fp, w, c)
    case _ => None
  }

  /* ---- if-conversion ---- */

  predicate InBucket(k: int) { BITBUCKET_PA <= k < BITBUCKET_PA + 8 }

  /** The machines agree on everything but the eight bytes of the bit bucket. */
  ghost predicate Twins(m: Machine, t: Machine) {
    m.cpu == t.cpu && forall k :: 0 <= k < RAM_SIZE && !InBucket(k) ==> m.ram[k] == t.ram[k]
  }

  lemma SquashedEffect(e: Effect, m: Machine)
    ensures Twins(ApplyIf(false, e, m), m) && ApplyIf(true, e, m) == Apply(e, m)
  {
    var c := m.cpu;
    if e.SetGpr? && e.r != 0 {
      assert c.gpr[e.r := c.gpr[e.r]] == c.gpr;
    } else if e.SetHalf? {
      assert c.fpr[e.i := c.fpr[e.i]] == c.fpr;
    } else if e.SetSlot? {
      assert c.fpr[2 * e.fr := c.fpr[2 * e.fr]][2 * e.fr + 1 := c.fpr[2 * e.fr + 1]] == c.fpr;
    }
  }

  /** Predicated effects: all of them when the predicate holds, none but the bucket when it does not. */
  lemma {:induction false} Squashed(p: bool, es: seq<Effect>, m: Machine)
    ensures if p then ApplyAllIf(p, es, m) == ApplyAll(es, m) else Twins(ApplyAllIf(p, es, m), m)
  {
    if es != [] {
      SquashedEffect(es[0], m);
      Squashed(p, es[1..], ApplyIf(p, es[0], m));
    }
  }

  /** Twins stay twins under one effect list. */
  lemma EffectKeepsTwins(e: Effect, m: Machine, t: Machine)
    requires Twins(m, t)
    ensures Twins(Apply(e, m), Apply(e, t))
  {
  }

  lemma {:induction false} EffectsKeepTwins(es: seq<Effect>, m: Machine, t: Machine)
    requires Twins(m, t)
    ensures Twins(ApplyAll(es, m), ApplyAll(es, t))
  {
    if es != [] {
      EffectKeepsTwins(es[0], m, t);
      EffectsKeepTwins(es[1..], Apply(es[0], m), Apply(es[0], t));
    }
  }

  /** The instruction reads no byte of the bit bucket. */
  predicate SparesBucket(w: Word, c: Cpu) {
    var pa := PhysAddr(EffAddr(w, c));
    pa + LoadWidth(w) <= BITBUCKET_PA || BITBUCKET_PA + 8 <= pa || LoadWidth(w) == 0
  }

  lemma TwinsLoadAlike(w: Word, m: Machine, t: Machine)
    requires Twins(m, t) && SparesBucket(w, t.cpu)
    ensures Loaded(w, m) == Loaded(w, t)
  {
    var pa := PhysAddr(EffAddr(w, m.cpu));
    var a, b := Loaded(w, m), Loaded(w, t);
    forall k | 0 <= k < LoadWidth(w) ensures a[k] == b[k] {
      assert !InBucket(pa + k);
    }
  }
}
