/** Instruction memory replaced from a delay slot: where the translator does not follow the
    interpreter, and exactly when it does. */
module RspBtLimits {
  import opened Bits
  import opened RspState
  import opened RspControl
  import opened RspDecode
  import opened BlockGraph
  import opened Simulation
  import opened RspDma
  import opened RspExec
  import opened RspEmit
  import opened RspPrograms

  /** A transfer whose slot replaces instruction memory leaves for slot + 4, which is where
      the interpreter goes exactly when that is the target of the transfer. */
  lemma SlotSwapExact(im: Image, t: Term, a: Addr, f: Frame)
    requires InImage(im, f) && FaithfulTerm(im, t, a) && (t.CondBr? || t.Br? || t.Switch?)
    requires RunTerm(Emit, t, a, f).Out? && RunTerm(Emit, t, a, f).f.c.gen != f.c.gen
    ensures var c, x := At(a, Sync(f)), RunTerm(Emit, t, a, f);
            Step(Exec, c).Running? &&
            (Steps(Exec, 2, c) == At(x.pc, Sync(x.f)) <==> Step(Exec, c).npc == LinkOf(a))
  {
    EmitRefinesExec();
    SlotSwap(Exec, Emit, im, t, a, f);
  }

  lemma SlotSwap(ex: Plain, tx: PlainText, im: Image, t: Term, a: Addr, f: Frame)
    requires Refines(ex, tx) && InImage(im, f) && FaithfulTerm(im, t, a) && (t.CondBr? || t.Br? || t.Switch?)
    requires RunTerm(tx, t, a, f).Out? && RunTerm(tx, t, a, f).f.c.gen != f.c.gen
    ensures var c, x := At(a, Sync(f)), RunTerm(tx, t, a, f);
            Step(ex, c).Running? &&
            (Steps(ex, 2, c) == At(x.pc, Sync(x.f)) <==> Step(ex, c).npc == LinkOf(a))
  {
    var c, w := At(a, Sync(f)), WordAt(im, a);
    OneStep(ex, c, 1);
    OneStep(ex, Step(ex, c), 0);
    match t
    case CondBr(_, _, taken, notTaken) =>
      BranchStep(ex, im, a, f);
      SlotSim(ex, tx, im, a, f,
              if Condition(w, f.GetGpr(Rs(w)), f.GetGpr(Rt(w))) then taken.addr else notTaken.addr);
    case Br(link, _, to) =>
      JumpStep(ex, im, a, f);
      SlotSim(ex, tx, im, a, SetLink(f, link), to.addr);
    case Switch(rs, link, _, _) =>
      SwitchStep(ex, im, a, f);
      SlotSim(ex, tx, im, a, SetLink(f, link), MaskPc(f.GetGpr(rs)));
  }

  /** At 0 a jump to 0x40 whose slot starts a DMA of eight bytes to 0x800 of instruction memory. */
  predicate SwapsInSlot(s: Rsp) {
    && WordAt(ImageOf(s), 0) == J_40 && WordAt(ImageOf(s), 1) == MTC0_RD_LEN && WordAt(ImageOf(s), 2) == BREAK
    && WordAt(ImageOf(s), 0x10) == ADD_1 && WordAt(ImageOf(s), 0x11) == BREAK
    && s.sp.memAddr == 0x1800 && s.r == seq(32, _ => 0) && !s.halted
  }

  const SWAP_WORDS: seq<Word> := [J_40, MTC0_RD_LEN, BREAK, 0, 0, 0, 0, 0, 0, 0, 0, 0, 0, 0, 0, 0, ADD_1, BREAK]

  /** Such a state. */
  function SwapProgram(): Rsp { Loaded(SWAP_WORDS, 0x1800) }

  lemma SwapProgramSwaps()
    ensures SwapsInSlot(SwapProgram())
  {
    SwapWords();
    LoadedWord(SWAP_WORDS, 0x1800, 0);
    LoadedWord(SWAP_WORDS, 0x1800, 1);
    LoadedWord(SWAP_WORDS, 0x1800, 2);
    LoadedWord(SWAP_WORDS, 0x1800, 0x10);
    LoadedWord(SWAP_WORDS, 0x1800, 0x11);
  }

  lemma SwapWords()
    ensures WordOf(SWAP_WORDS, 0) == J_40 && WordOf(SWAP_WORDS, 1) == MTC0_RD_LEN && WordOf(SWAP_WORDS, 2) == BREAK
    ensures WordOf(SWAP_WORDS, 0x10) == ADD_1 && WordOf(SWAP_WORDS, 0x11) == BREAK
  {
  }

  /** The state after that DMA. */
  function Swapped(s: Rsp): Rsp { SetReg(Dma(s, 0, true), 0, 0) }

  lemma OneShortRow(sp: Sp)
    requires sp.memAddr == 0x1800
    ensures FirstRow(sp).off == 0x800 && BankOf(sp) == 0x1000 && Clip(8, 0x800) == 8
    ensures RowBytesOf(0) == 8 && RowsOf(0) == 1 && SkipOf(0) == 0
  {
  }

  lemma SwappedKeepsCode(s: Rsp, a: Addr)
    requires SwapsInSlot(s) && a < 0x200
    ensures WordAt(ImageOf(Swapped(s)), a) == WordAt(ImageOf(s), a) && Swapped(s).gen == s.gen + 1
    ensures Swapped(s).r == s.r && !Swapped(s).halted
  {
    var b, c := Buffers(s.mem, s.dram), FirstRow(s.sp);
    OneShortRow(s.sp);
    forall i | 0x1000 <= i < 0x1800 ensures Dma(s, 0, true).mem[i] == s.mem[i] {
      assert !InBankRow(NextRow(c, 8, 0), 8, 0, 0, i - 0x1000);
      ToRspFrame(b, 0x1000, c, 8, 0, 1, i);
    }
  }

  lemma Mtc0Swaps(s: Rsp)
    requires s.r == seq(32, _ => 0)
    ensures Exec(MTC0_RD_LEN, s) == Ok(Swapped(s))
  {
    DecodedOperands();
  }

  lemma JumpGoes(s: Rsp)
    requires s.r == seq(32, _ => 0)
    ensures IsTransfer(J_40) && !IsBreak(J_40) && Transfer(J_40, 1, s) == (0x10, s)
  {
    assert SetReg(s, 0, 0) == s by {
      assert s.r[0 := 0][0 := 0] == s.r;
    }
    Decoded();
  }

  lemma JumpTaken(ex: Plain, s: Rsp)
    requires SwapsInSlot(s)
    ensures Step(ex, Start(0, s)) == Running(1, 0x10, s)
  {
    JumpGoes(s);
    assert Start(0, s) == Running(0, 1, s);
  }

  lemma SlotTaken(ex: Plain, s: Rsp)
    requires SwapsInSlot(s) && ex(MTC0_RD_LEN, s) == Ok(Swapped(s))
    ensures Step(ex, Running(1, 0x10, s)) == At(0x10, Swapped(s))
  {
    Decoded();
  }

  /** The interpreter runs the target and halts with $1 = 1. */
  lemma InterpreterTakesJump(s: Rsp)
    requires SwapsInSlot(s)
    ensures Steps(Exec, 4, Start(0, s)).Halted? && Steps(Exec, 4, Start(0, s)).s.r[1] == 1
  {
    SwappedKeepsCode(s, 0x10);
    SwappedKeepsCode(s, 0x11);
    AddSets(Swapped(s));
    Mtc0Swaps(s);
    TakesJump(Exec, s);
  }

  lemma TakesJump(ex: Plain, s: Rsp)
    requires SwapsInSlot(s) && ex(MTC0_RD_LEN, s) == Ok(Swapped(s))
    requires ex(ADD_1, Swapped(s)) == Ok(SetReg(Swapped(s), 1, 1))
    requires WordAt(ImageOf(Swapped(s)), 0x10) == ADD_1 && WordAt(ImageOf(Swapped(s)), 0x11) == BREAK
    ensures Steps(ex, 4, Start(0, s)).Halted? && Steps(ex, 4, Start(0, s)).s.r[1] == 1
  {
    JumpTaken(ex, s);
    SlotTaken(ex, s);
    AddBreak(ex, Swapped(s), 0x10);
    OneStep(ex, Start(0, s), 3);
    OneStep(ex, Running(1, 0x10, s), 2);
  }

  lemma JumpBlock(tx: PlainText, g: Graph, s: Rsp, fuel: nat)
    requires SwapsInSlot(s) && fuel > 0 && Translates(g, ImageOf(s)) && 0 in g.entry
    requires tx(MTC0_RD_LEN, 1, Enter(s)).Leave? && tx(MTC0_RD_LEN, 1, Enter(s)).pc == 2
    ensures CallText(tx, g, s, 0, fuel) == Out(2, tx(MTC0_RD_LEN, 1, Enter(s)).f)
  {
    Decoded();
    NotPlainBlock(g, ImageOf(s), 0);
    var b := g.blocks[g.entry[0]];
    assert b.term.Br? && b.term.slot == MTC0_RD_LEN && b.term.link == NoLink;
    assert RunBlock(tx, b, Enter(s)) == Out(2, tx(MTC0_RD_LEN, 1, Enter(s)).f);
  }

  /** Any translation leaves for 8 and, called there again, halts with $1 = 0. */
  lemma TranslationMissesJump(s: Rsp, g: Graph, g2: Graph, fuel: nat)
    requires SwapsInSlot(s) && fuel > 0
    requires Translates(g, ImageOf(s)) && 0 in g.entry
    requires Translates(g2, ImageOf(Swapped(s))) && 2 in g2.entry
    ensures var x := CallText(Emit, g, s, 0, fuel);
            x.Out? && x.pc == 2 && x.f.c.gen != s.gen && Sync(x.f) == Swapped(s)
    ensures var y := CallText(Emit, g2, Swapped(s), Bytes(2), fuel);
            y.Done? && Sync(y.f).r[1] == 0
  {
    SwappedKeepsCode(s, 2);
    Mtc0Swaps(s);
    SlotLeaves(s);
    JumpBlock(Emit, g, s, fuel);
    BreakHalts(Emit, Swapped(s), g2, 2, fuel);
  }

  lemma SlotLeaves(s: Rsp)
    requires SwapsInSlot(s) && Exec(MTC0_RD_LEN, s) == Ok(Swapped(s)) && Swapped(s).gen != s.gen
    ensures var e := Emit(MTC0_RD_LEN, 1, Enter(s));
            e.Leave? && e.pc == 2 && Sync(e.f) == Swapped(s) && e.f.c.gen == Swapped(s).gen
  {
    EmitRefinesExec();
    LeavesWhenRefined(Exec, Emit, s);
  }

  lemma LeavesWhenRefined(ex: Plain, tx: PlainText, s: Rsp)
    requires Refines(ex, tx) && SwapsInSlot(s) && ex(MTC0_RD_LEN, s) == Ok(Swapped(s)) && Swapped(s).gen != s.gen
    ensures var e := tx(MTC0_RD_LEN, 1, Enter(s));
            e.Leave? && e.pc == 2 && Sync(e.f) == Swapped(s) && e.f.c.gen == Swapped(s).gen
  {
    var f := Enter(s);
    assert Sync(f) == s by {
      assert s.r[0 := s.r[0]] == s.r;
    }
    Decoded();
    assert RefinesAt(ex, tx, MTC0_RD_LEN, 1, f);
    assert Sync(tx(MTC0_RD_LEN, 1, f).f).gen == tx(MTC0_RD_LEN, 1, f).f.c.gen;
  }
}
