/** Every run of a translated block graph is a run of the interpreter. */
module Simulation {
  import opened Bits
  import opened RspState
  import opened RspControl
  import opened RspDecode
  import opened BlockGraph

  /** The interpreter about to execute `a` outside any delay slot. */
  function At(a: Addr, s: Rsp): Cfg { Running(a, Next(a), s) }

  /** The text of plain instruction `w` at `a` does to the frame what the interpreter does
      to the synchronised state, and leaves for a + 4 just when instruction memory was replaced. */
  ghost predicate RefinesAt(ex: Plain, tx: PlainText, w: Word, a: Addr, f: Frame) {
    match ex(w, Sync(f))
    case Die => tx(w, a, f).Dies?
    case Ok(s) =>
      && s.r[0] == 0
      && (if s.gen == f.c.gen then tx(w, a, f).Fine? && ImageOf(s) == ImageOf(f.c)
          else tx(w, a, f).Leave? && tx(w, a, f).pc == Next(a))
      && Sync(tx(w, a, f).f) == s
  }

  ghost predicate Refines(ex: Plain, tx: PlainText) {
    forall w: Word, a: Addr, f: Frame {:trigger RefinesAt(ex, tx, w, a, f)} ::
      Classify(w).PlainInsn? && f.c.r[0] == 0 ==> RefinesAt(ex, tx, w, a, f)
  }

  /** A DMA into instruction memory is not in the slot of a transfer that goes anywhere
      but to the instruction after the slot. */
  ghost predicate SwapOk(ex: Plain, c: Cfg) {
    var c' := Step(ex, c);
    c.Running? && c'.Running? && c'.s.gen != c.s.gen ==> c.npc == Next(c.pc)
  }

  ghost predicate SwapOkAfter(ex: Plain, n: nat, c: Cfg) { SwapOk(ex, Steps(ex, n, c)) }

  ghost predicate SwapsSafely(ex: Plain, c: Cfg) {
    forall n: nat :: SwapOkAfter(ex, n, c)
  }

  lemma SafeLater(ex: Plain, m: nat, c: Cfg)
    requires SwapsSafely(ex, c)
    ensures SwapsSafely(ex, Steps(ex, m, c))
  {
    forall n: nat ensures SwapOkAfter(ex, n, Steps(ex, m, c)) {
      StepsAdd(ex, m, n, c);
      assert SwapOkAfter(ex, m + n, c);
    }
  }

  /** The frame is that of code translated from `im`. */
  ghost predicate InImage(im: Image, f: Frame) { f.c.r[0] == 0 && ImageOf(f.c) == im }

  /** After `n` steps from `c` the interpreter is where the emitted code says it is. */
  ghost predicate Matches(ex: Plain, im: Image, gen: nat, c: Cfg, n: nat, x: Exit) {
    match x
    case Go(k, f) => Steps(ex, n, c) == At(k.addr, Sync(f)) && n >= 1 && InImage(im, f) && f.c.gen == gen
    case Out(pc, f) =>
      && Steps(ex, n, c) == At(pc, Sync(f)) && f.c.r[0] == 0
      && (if f.c.gen == gen then ImageOf(f.c) == im else n >= 1)
    case Done(f) => Steps(ex, n, c) == Halted(Sync(f)) && f.c.r[0] == 0
    case Dead => Steps(ex, n, c) == Died
  }

  lemma MatchesLater(ex: Plain, im: Image, gen: nat, c: Cfg, n: nat, m: nat, x: Exit)
    requires Matches(ex, im, gen, Steps(ex, n, c), m, x)
    ensures Matches(ex, im, gen, c, n + m, x)
  {
    StepsAdd(ex, n, m, c);
  }

  /** The step from `c` takes the interpreter to `to`, in the state the text `x` leaves. */
  ghost predicate StepMatches(ex: Plain, im: Image, c: Cfg, gen: nat, to: Addr, x: Emitted) {
    match x
    case Fine(f) => Step(ex, c) == At(to, Sync(f)) && InImage(im, f) && f.c.gen == gen
    case Leave(_, f) => Step(ex, c) == At(to, Sync(f)) && f.c.gen != gen && f.c.r[0] == 0
    case Dies => Step(ex, c) == Died
  }

  /** One plain instruction outside a delay slot. */
  lemma PlainSim(ex: Plain, tx: PlainText, im: Image, a: Addr, f: Frame)
    requires Refines(ex, tx) && InImage(im, f) && Classify(WordAt(im, a)).PlainInsn?
    ensures StepMatches(ex, im, At(a, Sync(f)), f.c.gen, Next(a), tx(WordAt(im, a), a, f))
    ensures var x := tx(WordAt(im, a), a, f);
            x.Leave? ==> x.pc == Next(a)
  {
    DecodeAgrees(WordAt(im, a));
    assert RefinesAt(ex, tx, WordAt(im, a), a, f);
  }

  lemma AddrAtNext(a: Addr, n: nat)
    ensures AddrAt(a, 0) == a && AddrAt(Next(a), n) == AddrAt(a, n + 1)
  {
    assert (a + 1 - 0x400 + n) % 0x400 == (a + 1 + n) % 0x400;
  }

  lemma OneStep(ex: Plain, c: Cfg, n: nat)
    ensures Steps(ex, 1, c) == Step(ex, c) && Steps(ex, n + 1, c) == Steps(ex, n, Step(ex, c))
  {
    assert Steps(ex, 1, c) == Steps(ex, 0, Step(ex, c));
  }

  /** After `n` steps from `a` the interpreter is where `len` words of straight-line text left off. */
  ghost predicate BodyMatches(ex: Plain, im: Image, len: nat, a: Addr, f: Frame, n: nat, x: Emitted) {
    match x
    case Fine(f') =>
      n == len && Steps(ex, n, At(a, Sync(f))) == At(AddrAt(a, n), Sync(f')) && InImage(im, f') && f'.c.gen == f.c.gen
    case Leave(pc, f') => Matches(ex, im, f.c.gen, At(a, Sync(f)), n, Out(pc, f')) && f'.c.gen != f.c.gen
    case Dies => Steps(ex, n, At(a, Sync(f))) == Died
  }

  /** Straight-line text. */
  lemma {:induction false} BodySim(ex: Plain, tx: PlainText, im: Image, body: seq<Word>, a: Addr, f: Frame)
      returns (n: nat)
    requires Refines(ex, tx) && InImage(im, f)
    requires PlainRun(im, body, a)
    ensures BodyMatches(ex, im, |body|, a, f, n, RunBody(tx, body, a, f))
  {
    if body == [] {
      return 0;
    }
    var c := At(a, Sync(f));
    PlainSim(ex, tx, im, a, f);
    match tx(body[0], a, f)
    case Fine(f') =>
      n := BodySim(ex, tx, im, body[1..], Next(a), f');
      AddrAtNext(a, n);
      OneStep(ex, c, n);
      n := n + 1;
    case _ =>
      OneStep(ex, c, 0);
      n := 1;
  }

  /** A transfer at `a` has sent the interpreter to `to` after its slot; `f` is the frame
      once the link register is written. */
  lemma SlotSim(ex: Plain, tx: PlainText, im: Image, a: Addr, f: Frame, to: Addr)
    requires Refines(ex, tx) && InImage(im, f) && Classify(WordAt(im, Next(a))).PlainInsn?
    ensures StepMatches(ex, im, Running(Next(a), to, Sync(f)), f.c.gen, to, tx(WordAt(im, Next(a)), Next(a), f))
    ensures var x := tx(WordAt(im, Next(a)), Next(a), f);
            x.Leave? ==> x.pc == LinkOf(a)
  {
    var slot := WordAt(im, Next(a));
    DecodeAgrees(slot);
    assert RefinesAt(ex, tx, slot, Next(a), f);
  }

  /** The two views of the registers agree, and the interpreter's `r[0] = 0` is idle. */
  lemma SyncRegs(f: Frame)
    requires f.c.r[0] == 0
    ensures forall i: Reg :: Sync(f).r[i] == f.GetGpr(i)
    ensures SetReg(Sync(f), 0, 0) == Sync(f)
    ensures forall i: Reg, x: Word :: SetReg(Sync(f), i, x) == Sync(f.SetGpr(i, x))
  {
    forall i: Reg, x: Word ensures SetReg(Sync(f), i, x) == Sync(f.SetGpr(i, x)) {
      assert SetReg(Sync(f), i, x).r == Sync(f.SetGpr(i, x)).r;
    }
    assert SetReg(Sync(f), 0, 0).r == Sync(f).r;
  }

  lemma TargetFromSlot(w: Word, a: Addr)
    ensures MaskPc(4 * Next(a) + 4 * Simm(w)) == BranchTarget(w, a)
  {
    assert (4 * a + 4 - 0x1000 + 4 * Simm(w)) / 4 == (4 * a + 4 + 4 * Simm(w)) / 4 - 0x400;
  }

  lemma BranchStep(ex: Plain, im: Image, a: Addr, f: Frame)
    requires InImage(im, f) && Classify(WordAt(im, a)).Branch?
    ensures var w := WordAt(im, a);
            Step(ex, At(a, Sync(f))) ==
              Running(Next(a),
                      if Condition(w, f.GetGpr(Rs(w)), f.GetGpr(Rt(w))) then BranchTarget(w, a) else LinkOf(a), Sync(f))
  {
    SyncRegs(f);
    var w := WordAt(im, a);
    TargetFromSlot(w, a);
    DecodeAgrees(w);
    ConditionAgrees(w, f.GetGpr(Rs(w)), f.GetGpr(Rt(w)));
  }

  lemma JumpStep(ex: Plain, im: Image, a: Addr, f: Frame)
    requires InImage(im, f) && (Classify(WordAt(im, a)).Jump? || Classify(WordAt(im, a)).Call?)
    ensures var w := WordAt(im, a);
            var link := if Classify(w).Jump? then NoLink else LinkTo(31, LinkOf(a));
            Step(ex, At(a, Sync(f))) == Running(Next(a), JumpTarget(w), Sync(SetLink(f, link)))
  {
    SyncRegs(f);
  }

  lemma SwitchStep(ex: Plain, im: Image, a: Addr, f: Frame)
    requires InImage(im, f) && (Classify(WordAt(im, a)).JumpReg? || Classify(WordAt(im, a)).CallReg?)
    ensures var w := WordAt(im, a);
            var link := if Classify(w).JumpReg? then NoLink else LinkTo(Rd(w), LinkOf(a));
            Step(ex, At(a, Sync(f))) == Running(Next(a), MaskPc(f.GetGpr(Rs(w))), Sync(SetLink(f, link)))
  {
    SyncRegs(f);
  }

  /** A transfer and its slot. */
  lemma TransferSim(ex: Plain, tx: PlainText, im: Image, t: Term, a: Addr, f: Frame)
    requires Refines(ex, tx) && InImage(im, f) && FaithfulTerm(im, t, a) && (t.CondBr? || t.Br? || t.Switch?)
    requires SwapOk(ex, Step(ex, At(a, Sync(f))))
    ensures Matches(ex, im, f.c.gen, At(a, Sync(f)), 2, RunTerm(tx, t, a, f))
  {
    var c, w := At(a, Sync(f)), WordAt(im, a);
    OneStep(ex, c, 1);
    OneStep(ex, Step(ex, c), 0);
    match t
    case CondBr(_, _, taken, notTaken) =>
      BranchStep(ex, im, a, f);
      SlotSim(ex, tx, im, a, f, if Condition(w, f.GetGpr(Rs(w)), f.GetGpr(Rt(w))) then taken.addr else notTaken.addr);
    case Br(link, _, to) =>
      JumpStep(ex, im, a, f);
      SlotSim(ex, tx, im, a, SetLink(f, link), to.addr);
    case Switch(rs, link, _, _) =>
      SwitchStep(ex, im, a, f);
      SlotSim(ex, tx, im, a, SetLink(f, link), MaskPc(f.GetGpr(rs)));
  }

  /** One block: entered with pc at its address, it leaves exactly where the interpreter is. */
  lemma BlockSim(ex: Plain, tx: PlainText, im: Image, b: Block, f: Frame) returns (n: nat)
    requires Refines(ex, tx) && InImage(im, f) && FaithfulBlock(im, b)
    requires SwapsSafely(ex, At(b.start, Sync(f)))
    ensures Matches(ex, im, f.c.gen, At(b.start, Sync(f)), n, RunBlock(tx, b, f))
  {
    var c0 := At(b.start, Sync(f));
    n := BodySim(ex, tx, im, b.body, b.start, f);
    var out := RunBody(tx, b.body, b.start, f);
    if out.Fine? {
      var a, f1 := AddrAt(b.start, |b.body|), out.f;
      SafeLater(ex, n, c0);
      var m := TermSim(ex, tx, im, b.term, a, f1);
      if !b.term.Fall? {
        MatchesLater(ex, im, f.c.gen, c0, n, m, RunTerm(tx, b.term, a, f1));
      }
      n := n + m;
    }
  }

  lemma TermSim(ex: Plain, tx: PlainText, im: Image, t: Term, a: Addr, f: Frame) returns (n: nat)
    requires Refines(ex, tx) && InImage(im, f) && FaithfulTerm(im, t, a)
    requires SwapsSafely(ex, At(a, Sync(f)))
    ensures t.Fall? ==> n == 0
    ensures !t.Fall? ==> Matches(ex, im, f.c.gen, At(a, Sync(f)), n, RunTerm(tx, t, a, f))
  {
    var c := At(a, Sync(f));
    match t
    case ExitAt(_) => n := 0;
    case Fall(_) => n := 0;
    case HaltExit =>
      DecodeAgrees(WordAt(im, a));
      SyncRegs(f);
      OneStep(ex, c, 0);
      n := 1;
    case _ =>
      OneStep(ex, c, 0);
      assert SwapOkAfter(ex, 1, c);
      TransferSim(ex, tx, im, t, a, f);
      n := 2;
  }

  /** The emitted function: load the locals, dispatch on the entry, run. */
  function CallText(tx: PlainText, g: Graph, s: Rsp, pc: int, fuel: nat): Exit {
    var a := MaskPc(pc);
    if a in g.entry then RunFrom(tx, g, g.entry[a], Enter(s), fuel) else Out(a, Enter(s))
  }

  /** The same for a block of a translation, which then goes only to blocks that exist. */
  lemma NamedBlockSim(ex: Plain, tx: PlainText, im: Image, g: Graph, k: Key, f: Frame) returns (n: nat)
    requires Refines(ex, tx) && InImage(im, f) && Translates(g, im) && k in g.blocks
    requires SwapsSafely(ex, At(k.addr, Sync(f)))
    ensures Matches(ex, im, f.c.gen, At(k.addr, Sync(f)), n, RunBlock(tx, g.blocks[k], f))
    ensures RunBlock(tx, g.blocks[k], f).Go? ==> RunBlock(tx, g.blocks[k], f).to in g.blocks
  {
    assert BlockOk(g, im, k);
    GoesToTarget(tx, g.blocks[k], f);
    n := BlockSim(ex, tx, im, g.blocks[k], f);
  }

  /** Matches, for a run that may also have used up its `fuel` blocks. */
  ghost predicate RunMatches(ex: Plain, im: Image, gen: nat, c: Cfg, n: nat, fuel: nat, x: Exit) {
    if x.Go? then n >= fuel && Steps(ex, n, c) == At(x.to.addr, Sync(x.f)) else Matches(ex, im, gen, c, n, x)
  }

  lemma RunMatchesLater(ex: Plain, im: Image, gen: nat, c: Cfg, n: nat, c': Cfg, m: nat, fuel: nat, x: Exit)
    requires Steps(ex, n, c) == c' && n >= 1
    requires RunMatches(ex, im, gen, c', m, fuel, x)
    ensures RunMatches(ex, im, gen, c, n + m, fuel + 1, x)
  {
    if x.Go? {
      StepsAdd(ex, n, m, c);
    } else {
      MatchesLater(ex, im, gen, c, n, m, x);
    }
  }

  /** Any number of blocks: whatever the call strings on the way, the interpreter follows. */
  lemma {:induction false} RunSim(ex: Plain, tx: PlainText, im: Image, g: Graph, k: Key, f: Frame, fuel: nat)
      returns (n: nat)
    requires Refines(ex, tx) && InImage(im, f) && Translates(g, im) && k in g.blocks
    requires SwapsSafely(ex, At(k.addr, Sync(f)))
    ensures RunMatches(ex, im, f.c.gen, At(k.addr, Sync(f)), n, fuel, RunFrom(tx, g, k, f, fuel))
    decreases fuel
  {
    if fuel == 0 {
      return 0;
    }
    var c, x := At(k.addr, Sync(f)), RunBlock(tx, g.blocks[k], f);
    n := NamedBlockSim(ex, tx, im, g, k, f);
    assert RunFrom(tx, g, k, f, fuel) == if x.Go? then RunFrom(tx, g, x.to, x.f, fuel - 1) else x;
    if x.Go? {
      SafeLater(ex, n, c);
      assert Steps(ex, n, c) == At(x.to.addr, Sync(x.f)) && n >= 1 && InImage(im, x.f) && x.f.c.gen == f.c.gen;
      var m := RunSim(ex, tx, im, g, x.to, x.f, fuel - 1);
      RunMatchesLater(ex, im, x.f.c.gen, c, n, At(x.to.addr, Sync(x.f)), m, fuel - 1,
                      RunFrom(tx, g, x.to, x.f, fuel - 1));
      n := n + m;
    }
  }

  lemma GoesToTarget(tx: PlainText, b: Block, f: Frame)
    ensures RunBlock(tx, b, f).Go? ==> RunBlock(tx, b, f).to in Targets(b.term)
  {
  }

  /** A whole call of the emitted function. */
  lemma CallSim(ex: Plain, tx: PlainText, im: Image, g: Graph, s: Rsp, pc: int, fuel: nat) returns (n: nat)
    requires Refines(ex, tx) && Translates(g, im) && ImageOf(s) == im && s.r[0] == 0
    requires SwapsSafely(ex, At(MaskPc(pc), s))
    ensures RunMatches(ex, im, s.gen, At(MaskPc(pc), s), n, fuel, CallText(tx, g, s, pc, fuel))
  {
    assert Sync(Enter(s)) == s by {
      assert s.r[0 := s.r[0]] == s.r;
    }
    var a := MaskPc(pc);
    if a in g.entry {
      assert EntryOk(g, a);
      n := RunSim(ex, tx, im, g, g.entry[a], Enter(s), fuel);
    } else {
      n := 0;
    }
  }
}
