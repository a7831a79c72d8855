/** The text of a block of a translated MIPS III function against the machine it stands for: delayed
    branches, and branch-likely slots that are annulled when the branch is not taken.  The
    text never annuls: it runs every slot, selected on the condition. */
module R4300Likely {
  import opened Collections
  import opened Bits
  import opened RspState
  import opened R4300Insn

  /** Instruction words by guest address. */
  type Code = map<Word, Word>

  function Plus(pc: Word, d: int): Word { Wrap32(pc as int + d) }

  predicate IsBranchOp(w: Word) {
    4 <= Op(w) <= 7 || Op(w) == 1 || 0x14 <= Op(w) <= 0x17 || (Op(w) == 0x11 && Rs(w) == 0x08)
  }

  predicate IsControl(w: Word) {
    Op(w) == 2 || Op(w) == 3 || IsBranchOp(w) || (Op(w) == 0 && (Fn(w) == 0x08 || Fn(w) == 0x09))
  }

  predicate IsLink(w: Word) { Op(w) == 3 || (Op(w) == 0 && Fn(w) == 0x09) }

  predicate IsLikely(w: Word) {
    0x14 <= Op(w) <= 0x17 || ((Op(w) == 1 || Op(w) == 0x11) && Rt(w) / 2 % 2 == 1)
  }

  /** The trap and link forms of REGIMM are left to the interpreter. */
  predicate IsForeign(w: Word) { Op(w) == 1 && Rt(w) > 3 }

  /** branchCond */
  predicate Cond(w: Word, c: Cpu) {
    var s, t := c.Get(Rs(w)), c.Get(Rt(w));
    match Op(w)
    case 0x04 => s == t
    case 0x14 => s == t
    case 0x05 => s != t
    case 0x15 => s != t
    case 0x06 => Signed64(s) <= 0
    case 0x16 => Signed64(s) <= 0
    case 0x07 => Signed64(s) > 0
    case 0x17 => Signed64(s) > 0
    case 0x01 => if Rt(w) % 2 == 0 then Signed64(s) < 0 else Signed64(s) >= 0
    case _ => BitSet(c.fcc, w / 0x4_0000 % 8) == (Rt(w) % 2 == 1)
  }

  /** The conditions of the architecture: equality, the sign bit, zero, the condition bit. */
  predicate Taken(w: Word, c: Cpu) {
    var s, t := c.Get(Rs(w)), c.Get(Rt(w));
    var negative := s >= 0x8000_0000_0000_0000;
    if Op(w) == 1 then negative == (Rt(w) % 2 == 0)
    else if Op(w) == 0x11 then (Rt(w) % 2 == 1 <==> BitSet(c.fcc, w / 0x4_0000 % 8))
    else if Op(w) % 4 < 2 then (s == t <==> Op(w) % 4 == 0)
    else (negative || s == 0) <==> Op(w) % 4 == 2
  }

  /** branchCond decides them. */
  lemma CondAgrees(w: Word, c: Cpu)
    requires IsBranchOp(w)
    ensures Cond(w, c) <==> Taken(w, c)
  {
  }

  function BranchTo(w: Word, pc: Word): Word { Plus(pc, 4 + 4 * Simm(w)) }

  function JumpTo(w: Word, pc: Word): Word { pc / 0x1000_0000 * 0x1000_0000 + w % 0x400_0000 * 4 }

  function Linked(m: Machine, link: Word): Machine { m.(cpu := m.cpu.(gpr := m.cpu.gpr[31 := Sext32(link)])) }

  /* ---- what instructions do ---- */

  /** The effects of an instruction, given what a load at its effective address reads; None
      outside the translated ones.  Module R4300Insn supplies them. */
  type EmitFn = (Word, Cpu, seq<Byte>) -> Option<seq<Effect>>

  predicate RegularAt(ef: EmitFn, w: Word, c: Cpu, b: seq<Byte>) {
    var es := ef(w, c, b);
    && (IsControl(w) ==> es.None? && w != 0)
    && (w == 0 ==> es.Some? && |es.value| == 1 && es.value[0].SetGpr? && es.value[0].r == 0)
  }

  /** No transfer is translated as a plain instruction, and word 0 is a nop. */
  ghost predicate Regular(ef: EmitFn) {
    forall w, c, b {:trigger RegularAt(ef, w, c, b)} :: RegularAt(ef, w, c, b)
  }

  function Emission(fp: Fp): EmitFn { (w: Word, c: Cpu, b: seq<Byte>) => Effects(fp, w, c, b) }

  lemma EmissionRegular(fp: Fp)
    ensures Regular(Emission(fp))
  {
    forall w, c, b ensures RegularAt(Emission(fp), w, c, b) {
      if w == 0 {
        NopEffects(fp, w, c, b);
      } else if IsControl(w) {
        ControlEffects(fp, w, c, b);
      }
    }
  }

  lemma NopEffects(fp: Fp, w: Word, c: Cpu, b: seq<Byte>)
    requires w == 0
    ensures !IsControl(w) && Effects(fp, w, c, b) == Some([SetGpr(0, Sext32(Shl32(Lo32(c.Get(Rt(w))), Sa(w))))])
  {
    assert Op(w) == 0 && Fn(w) == 0 && Rd(w) == 0;
  }

  lemma ControlEffects(fp: Fp, w: Word, c: Cpu, b: seq<Byte>)
    requires IsControl(w)
    ensures Effects(fp, w, c, b).None?
  {
  }

  /* ---- the machine ---- */

  datatype Cfg = At(pc: Word, npc: Word, m: Machine) | Unknown

  /** What an instruction that is not a transfer does; None outside the modelled ones. */
  function Execute(ef: EmitFn, w: Word, m: Machine): Option<Machine> {
    match ef(w, m.cpu, Loaded(w, m))
    case None => None
    case Some(es) => Some(ApplyAll(es, m))
  }

  /** One instruction.  A transfer takes effect after the instruction at npc; a likely branch
      that is not taken annuls that instruction. */
  function Step(ef: EmitFn, code: Code, c: Cfg): Cfg {
    if !c.At? then c
    else if c.pc !in code then Unknown
    else
      var w, m := code[c.pc], c.m;
      if !IsControl(w) then
        match Execute(ef, w, m)
        case None => Unknown
        case Some(m') => At(c.npc, Plus(c.npc, 4), m')
      else if IsForeign(w) then Unknown
      else if IsBranchOp(w) then
        if Taken(w, m.cpu) then At(c.npc, BranchTo(w, c.pc), m)
        else if IsLikely(w) then At(Plus(c.npc, 4), Plus(c.npc, 8), m)
        else At(c.npc, Plus(c.npc, 4), m)
      else
        var to := if Op(w) == 0 then Lo32(m.cpu.Get(Rs(w))) else JumpTo(w, c.pc);
        At(c.npc, to, if IsLink(w) then Linked(m, Plus(c.npc, 4)) else m)
  }

  function Steps(ef: EmitFn, code: Code, n: nat, c: Cfg): Cfg {
    if n == 0 then c else Steps(ef, code, n - 1, Step(ef, code, c))
  }

  function InLine(pc: Word, m: Machine): Cfg { At(pc, Plus(pc, 4), m) }

  /* ---- the text of a function ---- */

  datatype Blk = Blk(start: Word, end: Word, succs: seq<Word>)

  datatype Outcome =
    | Goto(pc: Word, m: Machine)
    | Bail(pc: Word, m: Machine)                  // the interpreter goes on at pc
    | Returned(to: Word, m: Machine)              // jr $31
    | CallTo(target: Word, link: Word, m: Machine)
    | TailTo(target: Word, link: Word, m: Machine)   // j to code of another function, called with a link

  /** The emitted slot: a nop emits nothing. */
  function SlotEffects(ef: EmitFn, slot: Word, m: Machine): Option<seq<Effect>> {
    if slot == 0 then Some([]) else ef(slot, m.cpu, Loaded(slot, m))
  }

  function RunSlotText(likely: bool, cond: bool, es: seq<Effect>, m: Machine): Machine {
    if likely then ApplyAllIf(cond, es, m) else ApplyAll(es, m)
  }

  /** Where the text goes after the slot; `to` was read before it. */
  function Leave(w: Word, pc: Word, cond: bool, to: Word, keys: set<Word>, succs: seq<Word>, m: Machine): Outcome {
    if Op(w) == 2 then
      (if JumpTo(w, pc) in keys then Goto(JumpTo(w, pc), m) else TailTo(JumpTo(w, pc), Plus(pc, 8), m))
    else if Op(w) == 3 then CallTo(JumpTo(w, pc), Plus(pc, 8), m)
    else if Op(w) == 0 && Fn(w) == 0x09 then CallTo(to, Plus(pc, 8), m)
    else if Op(w) == 0 then
      if Rs(w) == 31 then Returned(to, m)
      else if to in succs then Goto(to, m)
      else Bail(to, m)
    else Goto(if cond then BranchTo(w, pc) else Plus(pc, 8), m)
  }

  /** The control case of emitBody. */
  function ControlText(ef: EmitFn, code: Code, keys: set<Word>, succs: seq<Word>, w: Word, pc: Word,
                       m: Machine): Outcome {
    if Plus(pc, 4) !in code || IsForeign(w) then Bail(pc, m)
    else
      var slot, cond, to := code[Plus(pc, 4)], IsBranchOp(w) && Cond(w, m.cpu), Lo32(m.cpu.Get(Rs(w)));
      var m1 := AfterLink(w, pc, m);
      match SlotEffects(ef, slot, m1)
      case None => Bail(pc, m1)
      case Some(es) => Leave(w, pc, cond, to, keys, succs, RunSlotText(IsLikely(w), cond, es, m1))
  }

  const TOP := 0xffff_fff0

  /** The text of block `b` from `pc` on. */
  function BlockText(ef: EmitFn, code: Code, keys: set<Word>, b: Blk, pc: Word, m: Machine): Outcome
    requires b.end <= TOP
    decreases b.end - pc
  {
    if pc >= b.end then Goto(b.end, m)
    else if pc !in code then Bail(pc, m)
    else if IsControl(code[pc]) then ControlText(ef, code, keys, b.succs, code[pc], pc, m)
    else
      match Execute(ef, code[pc], m)
      case None => Bail(pc, m)
      case Some(m') => BlockText(ef, code, keys, b, pc + 4, m')
  }

  predicate BlockFits(blocks: map<Word, Blk>, a: Word)
    requires a in blocks
  {
    blocks[a].start == a <= blocks[a].end <= TOP && (blocks[a].end - a) % 4 == 0
  }

  ghost predicate BlocksFit(blocks: map<Word, Blk>) {
    forall a {:trigger BlockFits(blocks, a)} :: a in blocks ==> BlockFits(blocks, a)
  }

  /** The text goes on after this outcome. */
  predicate MovesOn(x: Outcome) { x.Goto? || x.CallTo? }

  /* ---- the text simulates the machine ---- */

  /** No executed instruction reads the bit bucket. */
  ghost predicate CleanAt(ef: EmitFn, code: Code, n: nat, c: Cfg) {
    var c' := Steps(ef, code, n, c);
    c'.At? && c'.pc in code ==> SparesBucket(code[c'.pc], c'.m.cpu)
  }

  ghost predicate Clean(ef: EmitFn, code: Code, c: Cfg) {
    forall n: nat {:trigger CleanAt(ef, code, n, c)} :: CleanAt(ef, code, n, c)
  }

  /** The machine is in line at `pc`, with the text's state but for the bit bucket. */
  ghost predicate Stands(c: Cfg, pc: Word, m: Machine) {
    c.At? && c.pc == pc && c.npc == Plus(pc, 4) && Twins(m, c.m)
  }

  /** A transfer whose slot is not translated has already written $31 when the text gives up. */
  ghost predicate StandsLinked(code: Code, c: Cfg, pc: Word, m: Machine) {
    c.At? && c.pc == pc && c.npc == Plus(pc, 4) && pc in code && IsLink(code[pc]) && Twins(m, Linked(c.m, Plus(pc, 8)))
  }

  ghost predicate Lands(code: Code, c: Cfg, x: Outcome) {
    match x
    case Goto(pc, m) => Stands(c, pc, m)
    case Bail(pc, m) => Stands(c, pc, m) || StandsLinked(code, c, pc, m)
    case Returned(to, m) => Stands(c, to, m)
    case CallTo(target, _, m) => Stands(c, target, m)
    case TailTo(target, _, m) => Stands(c, target, m)
  }

  lemma {:induction false} StepsAdd(ef: EmitFn, code: Code, m: nat, n: nat, c: Cfg)
    ensures Steps(ef, code, m + n, c) == Steps(ef, code, n, Steps(ef, code, m, c))
  {
    if m > 0 {
      StepsAdd(ef, code, m - 1, n, Step(ef, code, c));
    }
  }

  lemma CleanLater(ef: EmitFn, code: Code, m: nat, c: Cfg)
    requires Clean(ef, code, c)
    ensures Clean(ef, code, Steps(ef, code, m, c))
  {
    forall n: nat ensures CleanAt(ef, code, n, Steps(ef, code, m, c)) {
      StepsAdd(ef, code, m, n, c);
      assert CleanAt(ef, code, m + n, c);
    }
  }

  lemma CleanNow(ef: EmitFn, code: Code, c: Cfg)
    requires Clean(ef, code, c) && c.At? && c.pc in code
    ensures SparesBucket(code[c.pc], c.m.cpu)
  {
    assert CleanAt(ef, code, 0, c);
  }

  lemma OneStep(ef: EmitFn, code: Code, n: nat, c: Cfg)
    ensures Steps(ef, code, 1, c) == Step(ef, code, c)
    ensures Steps(ef, code, n + 1, c) == Steps(ef, code, n, Step(ef, code, c))
  {
    assert Steps(ef, code, 1, c) == Steps(ef, code, 0, Step(ef, code, c));
  }

  /** Twins execute one instruction alike. */
  lemma TwinsExecute(ef: EmitFn, w: Word, m: Machine, t: Machine)
    requires Twins(m, t) && SparesBucket(w, t.cpu)
    ensures Execute(ef, w, m).None? <==> Execute(ef, w, t).None?
    ensures Execute(ef, w, m).Some? ==> Twins(Execute(ef, w, m).value, Execute(ef, w, t).value)
  {
    TwinsLoadAlike(w, m, t);
    var es := ef(w, m.cpu, Loaded(w, m));
    if es.Some? {
      EffectsKeepTwins(es.value, m, t);
    }
  }

  /** A nop is emitted as nothing and does nothing. */
  lemma SlotIsExecuted(ef: EmitFn, slot: Word, m: Machine)
    requires Regular(ef)
    ensures SlotEffects(ef, slot, m).None? <==> Execute(ef, slot, m).None?
    ensures SlotEffects(ef, slot, m).Some? ==> Execute(ef, slot, m) == Some(ApplyAll(SlotEffects(ef, slot, m).value, m))
  {
    if slot == 0 {
      assert RegularAt(ef, slot, m.cpu, Loaded(slot, m));
      var es := ef(slot, m.cpu, Loaded(slot, m)).value;
      assert es == [SetGpr(0, es[0].v)];
      NothingApplied(es[0].v, m);
    }
  }

  lemma NothingApplied(v: Dword, m: Machine)
    ensures ApplyAll([SetGpr(0, v)], m) == m == ApplyAll([], m)
  {
    var es := [SetGpr(0, v)];
    assert es[1..] == [];
  }

  /** If-conversion: running the slot of a likely branch selected on its condition is running
      it when the branch is taken and annulling it when it is not, up to the bit bucket. */
  lemma IfConversion(ef: EmitFn, likely: bool, cond: bool, slot: Word, m: Machine)
    requires Regular(ef)
    requires SlotEffects(ef, slot, m).Some?
    ensures var m' := RunSlotText(likely, cond, SlotEffects(ef, slot, m).value, m);
            if likely && !cond then Twins(m', m) else Execute(ef, slot, m) == Some(m')
  {
    Squashed(cond, SlotEffects(ef, slot, m).value, m);
    SlotIsExecuted(ef, slot, m);
  }

  /** The machine executes the slot and goes to `to`. */
  lemma SlotSim(ef: EmitFn, code: Code, pc: Word, to: Word, m: Machine, t: Machine, m': Machine)
    requires Regular(ef)
    requires pc in code && Twins(m, t) && SparesBucket(code[pc], t.cpu)
    requires SlotEffects(ef, code[pc], m).Some? && Execute(ef, code[pc], m) == Some(m')
    ensures Stands(Step(ef, code, At(pc, to, t)), to, m')
  {
    TwinsExecute(ef, code[pc], m, t);
    assert RegularAt(ef, code[pc], m.cpu, Loaded(code[pc], m));
  }

  lemma TwinsTransitive(a: Machine, b: Machine, c: Machine)
    requires Twins(a, b) && Twins(b, c)
    ensures Twins(a, c)
  {
  }

  lemma PlusTwice(pc: Word, d: int, e: int)
    ensures Plus(Plus(pc, d), e) == Plus(pc, d + e)
  {
    assert (pc as int + d) % 0x1_0000_0000 + e == pc as int + d + e - (pc as int + d) / 0x1_0000_0000 * 0x1_0000_0000;
  }

  /** A transfer and its slot: the text goes, or gives up, where the machine is. */
  lemma ControlSim(ef: EmitFn, code: Code, keys: set<Word>, succs: seq<Word>, pc: Word, m: Machine, t: Machine)
      returns (n: nat)
    requires Regular(ef)
    requires pc in code && IsControl(code[pc]) && Twins(m, t) && Clean(ef, code, InLine(pc, t))
    ensures Lands(code, Steps(ef, code, n, InLine(pc, t)), ControlText(ef, code, keys, succs, code[pc], pc, m))
    ensures MovesOn(ControlText(ef, code, keys, succs, code[pc], pc, m)) ==> n > 0
  {
    var w, c := code[pc], InLine(pc, t);
    n := 0;
    PlusTwice(pc, 4, 4);
    if Plus(pc, 4) in code && !IsForeign(w) {
      assert Twins(AfterLink(w, pc, m), AfterLink(w, pc, t));
      var slot := SlotEffects(ef, code[Plus(pc, 4)], AfterLink(w, pc, m));
      if slot.Some? {
        n := TransferSim(ef, code, w, pc, m, t);
      }
    }
  }

  /** Where the transfer at `pc` sends the machine, and the condition it found. */
  function Destination(w: Word, pc: Word, m: Machine): Word {
    if IsBranchOp(w) then (if Cond(w, m.cpu) then BranchTo(w, pc) else Plus(pc, 8))
    else if Op(w) == 0 then Lo32(m.cpu.Get(Rs(w)))
    else JumpTo(w, pc)
  }

  lemma TransferSim(ef: EmitFn, code: Code, w: Word, pc: Word, m: Machine, t: Machine) returns (n: nat)
    requires Regular(ef)
    requires pc in code && Plus(pc, 4) in code && w == code[pc] && IsControl(w) && !IsForeign(w)
    requires Twins(m, t) && Clean(ef, code, InLine(pc, t))
    requires SlotEffects(ef, code[Plus(pc, 4)], AfterLink(w, pc, m)).Some?
    ensures n > 0
    ensures var m1 := AfterLink(w, pc, m);
            var cond := IsBranchOp(w) && Cond(w, m.cpu);
            var m2 := RunSlotText(IsLikely(w), cond, SlotEffects(ef, code[Plus(pc, 4)], m1).value, m1);
            Stands(Steps(ef, code, n, InLine(pc, t)), Destination(w, pc, m), m2)
  {
    var c, sp := InLine(pc, t), Plus(pc, 4);
    var m1, t1 := AfterLink(w, pc, m), AfterLink(w, pc, t);
    var cond, to := IsBranchOp(w) && Cond(w, m.cpu), Destination(w, pc, m);
    TransferStep(ef, code, pc, t);
    IfConversion(ef, IsLikely(w), cond, code[sp], m1);
    OneStep(ef, code, 1, c);
    var m2 := RunSlotText(IsLikely(w), cond, SlotEffects(ef, code[sp], m1).value, m1);
    if IsLikely(w) && !cond {
      TwinsTransitive(m2, m1, t1);
      n := 1;
    } else {
      CleanLater(ef, code, 1, c);
      CleanNow(ef, code, Step(ef, code, c));
      SlotSim(ef, code, sp, to, m1, t1, m2);
      OneStep(ef, code, 0, Step(ef, code, c));
      n := 2;
    }
  }

  function AfterLink(w: Word, pc: Word, m: Machine): Machine { if IsLink(w) then Linked(m, Plus(pc, 8)) else m }

  lemma TransferStep(ef: EmitFn, code: Code, pc: Word, t: Machine)
    requires pc in code && IsControl(code[pc]) && !IsForeign(code[pc])
    ensures var w := code[pc];
            Step(ef, code, InLine(pc, t)) ==
              if IsLikely(w) && !Cond(w, t.cpu) then InLine(Plus(pc, 8), t)
              else At(Plus(pc, 4), Destination(w, pc, t), AfterLink(w, pc, t))
    ensures IsLikely(code[pc]) ==> IsBranchOp(code[pc]) && !IsLink(code[pc])
  {
    PlusTwice(pc, 4, 4);
    PlusTwice(pc, 4, 8);
    PlusTwice(pc, 8, 4);
    if IsBranchOp(code[pc]) {
      CondAgrees(code[pc], t.cpu);
    }
  }

  /** A block. */
  lemma {:induction false} BlockSim(ef: EmitFn, code: Code, keys: set<Word>, b: Blk, pc: Word, m: Machine, t: Machine)
      returns (n: nat)
    requires Regular(ef)
    requires b.end <= TOP && pc <= b.end && (b.end - pc) % 4 == 0 && Twins(m, t) && Clean(ef, code, InLine(pc, t))
    ensures Lands(code, Steps(ef, code, n, InLine(pc, t)), BlockText(ef, code, keys, b, pc, m))
    ensures pc < b.end && MovesOn(BlockText(ef, code, keys, b, pc, m)) ==> n > 0
    decreases b.end - pc
  {
    n := 0;
    if pc < b.end && pc in code {
      var c := InLine(pc, t);
      if IsControl(code[pc]) {
        n := ControlSim(ef, code, keys, b.succs, pc, m, t);
      } else if Execute(ef, code[pc], m).Some? {
        var m' := Execute(ef, code[pc], m).value;
        WholeWords(pc, b.end);
        var t' := PlainSim(ef, code, pc, m, t);
        var k := BlockSim(ef, code, keys, b, pc + 4, m', t');
        TextGoesOn(ef, code, keys, b, pc, m, m');
        OneStep(ef, code, k, c);
        n := k + 1;
      } else {
        PlainStuck(code, pc, m, t);
      }
    }
  }

  lemma TextGoesOn(ef: EmitFn, code: Code, keys: set<Word>, b: Blk, pc: Word, m: Machine, m': Machine)
    requires pc < b.end <= TOP && pc in code && !IsControl(code[pc]) && Execute(ef, code[pc], m) == Some(m')
    ensures BlockText(ef, code, keys, b, pc, m) == BlockText(ef, code, keys, b, pc + 4, m')
  {
  }

  /** The text leaves for the interpreter only where it cannot go on: at `q` nothing is mapped,
      the instruction or its slot is not translated, or the jr there found no case for `at`. */
  ghost predicate GivesUp(ef: EmitFn, code: Code, succs: seq<Word>, q: Word, at: Word) {
    q !in code ||
    (!IsControl(code[q]) && exists m :: Execute(ef, code[q], m).None?) ||
    (IsControl(code[q]) && (Plus(q, 4) !in code || IsForeign(code[q]) ||
      exists m :: SlotEffects(ef, code[Plus(q, 4)], m).None?)) ||
    (Op(code[q]) == 0 && Fn(code[q]) == 0x08 && Rs(code[q]) != 31 && at !in succs)
  }

  lemma {:induction false} BailsOnlyThen(ef: EmitFn, code: Code, keys: set<Word>, b: Blk, pc: Word, m: Machine)
      returns (q: Word)
    requires b.end <= TOP && BlockText(ef, code, keys, b, pc, m).Bail?
    ensures pc <= q < b.end && GivesUp(ef, code, b.succs, q, BlockText(ef, code, keys, b, pc, m).pc)
    decreases b.end - pc
  {
    q := pc;
    if pc in code && !IsControl(code[pc]) && Execute(ef, code[pc], m).Some? {
      q := BailsOnlyThen(ef, code, keys, b, pc + 4, Execute(ef, code[pc], m).value);
    }
  }

  lemma WholeWords(pc: int, end: int)
    requires pc < end && (end - pc) % 4 == 0
    ensures pc + 4 <= end && (end - (pc + 4)) % 4 == 0
  {
  }

  lemma PlainStuck(code: Code, pc: Word, m: Machine, t: Machine)
    requires Twins(m, t)
    ensures Lands(code, InLine(pc, t), Bail(pc, m))
  {
  }

  lemma PlainSim(ef: EmitFn, code: Code, pc: Word, m: Machine, t: Machine) returns (t': Machine)
    requires pc in code && pc + 4 <= TOP && !IsControl(code[pc]) && Execute(ef, code[pc], m).Some?
    requires Twins(m, t) && Clean(ef, code, InLine(pc, t))
    ensures Step(ef, code, InLine(pc, t)) == InLine(pc + 4, t') && Twins(Execute(ef, code[pc], m).value, t')
    ensures Clean(ef, code, InLine(pc + 4, t'))
  {
    var c := InLine(pc, t);
    CleanNow(ef, code, c);
    TwinsExecute(ef, code[pc], m, t);
    t' := Execute(ef, code[pc], t).value;
    PlusTwice(pc, 4, 4);
    CleanLater(ef, code, 1, c);
    OneStep(ef, code, 0, c);
  }
}
