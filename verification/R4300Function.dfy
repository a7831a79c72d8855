/** Whole functions of translated MIPS III code: blocks, the calls between them, and where the
    text leaves for the interpreter. */
module R4300Function {
  import opened Collections
  import opened Bits
  import opened RspState
  import opened R4300Insn
  import opened R4300Likely

  /** Where the machine is when the text is in some state: in that state too; at a transfer whose
      link the text has already written; or elsewhere, or in another state. */
  datatype Place = InStep(pc: Word) | AboutToLink(pc: Word) | Adrift

  /** What the caller of a function finds when it goes on. */
  datatype Back = Back(place: Place, m: Machine)

  /** A call to an address with a link; None when it does not come back within the callee's budget. */
  type Callee = (Word, Word, Machine) -> Option<Back>

  /** How a run of a function ends.  A translated function returns one word: 0 when it returned, and
      otherwise the pc at which the interpreter is to go on. */
  datatype End =
    | Done(word: Word, place: Place, m: Machine)
    | Going(pc: Word, on: bool, m: Machine)          // the budget is used up
    | Waiting(target: Word, on: bool, m: Machine)    // in a call that has not come back

  function PlaceOf(code: Code, pc: Word): Place {
    if pc in code && IsLink(code[pc]) then AboutToLink(pc) else InStep(pc)
  }

  /** The word returned on leaving at `pc` is `pc` itself, whatever it is. */
  function Left(code: Code, pc: Word, on: bool, m: Machine): End {
    Done(pc, if on then PlaceOf(code, pc) else Adrift, m)
  }

  /** The function from the block at `pc`, for at most `fuel` blocks; one that was named but not
      found leaves.  `on`: the machine has been where the text is so far. */
  function FunctionText(ef: EmitFn, code: Code, callee: Callee, blocks: map<Word, Blk>, pc: Word, m: Machine, on: bool,
                        fuel: nat): (e: End)
    requires BlocksFit(blocks)
    ensures e.Done? && e.word != 0 ==> e.place == PlaceOf(code, e.word) || e.place.Adrift?
    decreases fuel, 0
  {
    if pc !in blocks then Left(code, pc, on, m)
    else if fuel == 0 then Going(pc, on, m)
    else
      assert BlockFits(blocks, pc);
      AfterText(ef, code, callee, blocks, BlockText(ef, code, blocks.Keys, blocks[pc], pc, m), on, fuel - 1)
  }

  /** After a block.  When the callee comes back a call goes on at its link, and a tail call returns. */
  function AfterText(ef: EmitFn, code: Code, callee: Callee, blocks: map<Word, Blk>, x: Outcome, on: bool, fuel: nat)
      : (e: End)
    requires BlocksFit(blocks)
    ensures e.Done? && e.word != 0 ==> e.place == PlaceOf(code, e.word) || e.place.Adrift?
    decreases fuel, 1
  {
    match x
    case Goto(pc, m) => FunctionText(ef, code, callee, blocks, pc, m, on, fuel)
    case Bail(pc, m) => Left(code, pc, on, m)
    case Returned(to, m) => Done(0, if on then InStep(to) else Adrift, m)
    case CallTo(target, link, m) =>
      (match callee(target, link, m)
       case None => Waiting(target, on, m)
       case Some(back) =>
         FunctionText(ef, code, callee, blocks, link, back.m, on && back.place == InStep(link), fuel))
    case TailTo(target, link, m) =>
      match callee(target, link, m)
      case None => Waiting(target, on, m)
      case Some(back) => Done(0, if on then back.place else Adrift, back.m)
  }

  /* ---- the text follows the machine ---- */

  ghost predicate StandsAt(code: Code, c: Cfg, place: Place, m: Machine) {
    match place
    case InStep(pc) => Stands(c, pc, m)
    case AboutToLink(pc) => Stands(c, pc, m) || StandsLinked(code, c, pc, m)
    case Adrift => true
  }

  ghost predicate Follows(code: Code, c: Cfg, e: End) {
    match e
    case Done(_, place, m) => StandsAt(code, c, place, m)
    case Going(pc, on, m) => on ==> Stands(c, pc, m)
    case Waiting(target, on, m) => on ==> Stands(c, target, m)
  }

  /** The machine reaches the place the callee names. */
  ghost predicate ComesBackAt(ef: EmitFn, code: Code, callee: Callee, target: Word, link: Word, m: Machine,
                              t: Machine) {
    var back := callee(target, link, m);
    Twins(m, t) && Clean(ef, code, InLine(target, t)) && back.Some? ==> Reaches(ef, code, InLine(target, t), back.value)
  }

  ghost predicate Reaches(ef: EmitFn, code: Code, c: Cfg, back: Back) {
    exists n: nat :: StandsAt(code, Steps(ef, code, n, c), back.place, back.m)
  }

  ghost predicate ComesBack(ef: EmitFn, code: Code, callee: Callee) {
    forall target: Word, link: Word, m: Machine, t: Machine
      {:trigger ComesBackAt(ef, code, callee, target, link, m, t)} :: ComesBackAt(ef, code, callee, target, link, m, t)
  }

  /** Every block holds an instruction, so every block of text takes the machine forward. */
  ghost predicate NoneEmpty(blocks: map<Word, Blk>) { forall a :: a in blocks ==> a < blocks[a].end }

  /** A call, and where the machine is when it comes back. */
  lemma CallSim(ef: EmitFn, code: Code, callee: Callee, c: Cfg, target: Word, link: Word, m: Machine) returns (n: nat)
    requires ComesBack(ef, code, callee) && Clean(ef, code, c) && Stands(c, target, m)
    requires callee(target, link, m).Some?
    ensures var back := callee(target, link, m).value; StandsAt(code, Steps(ef, code, n, c), back.place, back.m)
  {
    var back := callee(target, link, m).value;
    assert ComesBackAt(ef, code, callee, target, link, m, c.m);
    n :| StandsAt(code, Steps(ef, code, n, InLine(target, c.m)), back.place, back.m);
  }

  /** Off the machine's track nothing is claimed. */
  lemma {:induction false} DriftsOn(ef: EmitFn, code: Code, callee: Callee, blocks: map<Word, Blk>, pc: Word,
                                    m: Machine, fuel: nat, c: Cfg)
    requires BlocksFit(blocks)
    ensures var e := FunctionText(ef, code, callee, blocks, pc, m, false, fuel);
            Follows(code, c, e) && (e.Going? ==> !e.on)
    decreases fuel
  {
    if pc in blocks && fuel > 0 {
      assert BlockFits(blocks, pc);
      var x := BlockText(ef, code, blocks.Keys, blocks[pc], pc, m);
      if x.Goto? {
        DriftsOn(ef, code, callee, blocks, x.pc, x.m, fuel - 1, c);
      } else if x.CallTo? && callee(x.target, x.link, x.m).Some? {
        DriftsOn(ef, code, callee, blocks, x.link, callee(x.target, x.link, x.m).value.m, fuel - 1, c);
      }
    }
  }

  /** A whole function: any number of blocks, calls and tail calls.  The text ends, or is still
      going, in the state of the machine at the same address, up to the bit bucket, until a call
      comes back elsewhere than where the machine is. */
  lemma {:induction false} FunctionSim(ef: EmitFn, code: Code, callee: Callee, blocks: map<Word, Blk>, pc: Word,
                                       m: Machine, t: Machine, fuel: nat)
      returns (n: nat)
    requires Regular(ef) && ComesBack(ef, code, callee)
    requires BlocksFit(blocks) && Twins(m, t) && Clean(ef, code, InLine(pc, t))
    ensures var e := FunctionText(ef, code, callee, blocks, pc, m, true, fuel);
            Follows(code, Steps(ef, code, n, InLine(pc, t)), e) && (NoneEmpty(blocks) && e.Going? && e.on ==> n >= fuel)
    decreases fuel, 0
  {
    n := 0;
    if pc in blocks && fuel > 0 {
      assert BlockFits(blocks, pc);
      n := BlockSim(ef, code, blocks.Keys, blocks[pc], pc, m, t);
      var x := BlockText(ef, code, blocks.Keys, blocks[pc], pc, m);
      n := AfterSim(ef, code, callee, blocks, x, InLine(pc, t), n, fuel - 1);
    }
  }

  /** What comes after a block that ended in `x` after n steps. */
  lemma {:induction false} AfterSim(ef: EmitFn, code: Code, callee: Callee, blocks: map<Word, Blk>, x: Outcome, c: Cfg,
                                    n: nat, fuel: nat)
      returns (n': nat)
    requires Regular(ef) && ComesBack(ef, code, callee) && BlocksFit(blocks) && Clean(ef, code, c)
    requires Lands(code, Steps(ef, code, n, c), x)
    ensures var e := AfterText(ef, code, callee, blocks, x, true, fuel);
            Follows(code, Steps(ef, code, n', c), e) && (NoneEmpty(blocks) && e.Going? && e.on ==> n' >= n + fuel)
    decreases fuel, 2
  {
    n' := n;
    if x.Goto? {
      n' := LinkSim(ef, code, callee, blocks, Back(InStep(x.pc), x.m), x.pc, c, n, fuel);
    } else if (x.CallTo? || x.TailTo?) && callee(x.target, x.link, x.m).Some? {
      CleanLater(ef, code, n, c);
      var k := CallSim(ef, code, callee, Steps(ef, code, n, c), x.target, x.link, x.m);
      StepsAdd(ef, code, n, k, c);
      n' := n + k;
      if x.CallTo? {
        n' := LinkSim(ef, code, callee, blocks, callee(x.target, x.link, x.m).value, x.link, c, n', fuel);
      }
    }
  }

  /** The block the text goes on at after n steps. */
  lemma {:induction false} LinkSim(ef: EmitFn, code: Code, callee: Callee, blocks: map<Word, Blk>, back: Back,
                                   link: Word, c: Cfg, n: nat, fuel: nat)
      returns (n': nat)
    requires Regular(ef) && ComesBack(ef, code, callee) && BlocksFit(blocks) && Clean(ef, code, c)
    requires StandsAt(code, Steps(ef, code, n, c), back.place, back.m)
    ensures var e := FunctionText(ef, code, callee, blocks, link, back.m, back.place == InStep(link), fuel);
            Follows(code, Steps(ef, code, n', c), e) && (NoneEmpty(blocks) && e.Going? && e.on ==> n' >= n + fuel)
    decreases fuel, 1
  {
    n' := n;
    if back.place == InStep(link) {
      CleanLater(ef, code, n, c);
      var k := FunctionSim(ef, code, callee, blocks, link, back.m, Steps(ef, code, n, c).m, fuel);
      StepsAdd(ef, code, n, k, c);
      n' := n + k;
    } else {
      DriftsOn(ef, code, callee, blocks, link, back.m, fuel, Steps(ef, code, n, c));
    }
  }

  /* ---- calls through the interpreter ---- */

  /** r4300bt_call: the machine goes on until it is at `link`, outside a slot. */
  function RunTo(ef: EmitFn, code: Code, link: Word, c: Cfg, fuel: nat): Option<Machine>
    decreases fuel
  {
    if !c.At? then None
    else if c.pc == link && c.npc == Plus(link, 4) then Some(c.m)
    else if fuel == 0 then None
    else RunTo(ef, code, link, Step(ef, code, c), fuel - 1)
  }

  function Interpret(ef: EmitFn, code: Code, link: Word, target: Word, m: Machine, fuel: nat): Option<Back> {
    match RunTo(ef, code, link, InLine(target, m), fuel)
    case None => None
    case Some(m') => Some(Back(InStep(link), m'))
  }

  function Interpreted(ef: EmitFn, code: Code, fuel: nat): Callee {
    (target: Word, link: Word, m: Machine) => Interpret(ef, code, link, target, m, fuel)
  }

  /** At the same place, with states equal up to the bit bucket. */
  ghost predicate TwinCfgs(c: Cfg, d: Cfg) {
    c.At? == d.At? && (c.At? ==> c.pc == d.pc && c.npc == d.npc && Twins(c.m, d.m))
  }

  lemma TwinsStep(ef: EmitFn, code: Code, c: Cfg, d: Cfg)
    requires TwinCfgs(c, d) && Clean(ef, code, d)
    ensures TwinCfgs(Step(ef, code, c), Step(ef, code, d))
  {
    if c.At? && c.pc in code {
      CleanNow(ef, code, d);
      TwinsExecute(ef, code[c.pc], c.m, d.m);
    }
  }

  lemma {:induction false} RunToReaches(ef: EmitFn, code: Code, link: Word, c: Cfg, d: Cfg, fuel: nat) returns (n: nat)
    requires TwinCfgs(c, d) && Clean(ef, code, d) && RunTo(ef, code, link, c, fuel).Some?
    ensures Stands(Steps(ef, code, n, d), link, RunTo(ef, code, link, c, fuel).value)
    decreases fuel
  {
    if c.pc == link && c.npc == Plus(link, 4) {
      n := 0;
    } else {
      TwinsStep(ef, code, c, d);
      CleanLater(ef, code, 1, d);
      OneStep(ef, code, 0, d);
      var k := RunToReaches(ef, code, link, Step(ef, code, c), Step(ef, code, d), fuel - 1);
      OneStep(ef, code, k, d);
      n := k + 1;
    }
  }

  /** A call that the interpreter runs comes back as the machine does. */
  lemma InterpretedComesBack(ef: EmitFn, code: Code, fuel: nat)
    ensures ComesBack(ef, code, Interpreted(ef, code, fuel))
  {
    var callee := Interpreted(ef, code, fuel);
    forall target: Word, link: Word, m: Machine, t: Machine ensures ComesBackAt(ef, code, callee, target, link, m, t) {
      if Twins(m, t) && Clean(ef, code, InLine(target, t)) && callee(target, link, m).Some? {
        var n := RunToReaches(ef, code, link, InLine(target, m), InLine(target, t), fuel);
        var back := callee(target, link, m).value;
        assert StandsAt(code, Steps(ef, code, n, InLine(target, t)), back.place, back.m);
      }
    }
  }

  /* ---- where the text gives up on a linking transfer ---- */

  /** $31 is already written when the slot turns out not to be translated.  The machine resumed
      there does the same as one resumed in the true state, unless the transfer is a jalr
      through $31 itself, which then jumps to its own link. */
  lemma LinkedBailResumes(ef: EmitFn, code: Code, keys: set<Word>, succs: seq<Word>, pc: Word, m: Machine)
    requires pc in code && Plus(pc, 4) in code && IsControl(code[pc]) && IsLink(code[pc])
    requires SlotEffects(ef, code[Plus(pc, 4)], AfterLink(code[pc], pc, m)).None?
    ensures var x := ControlText(ef, code, keys, succs, code[pc], pc, m);
            x == Bail(pc, Linked(m, Plus(pc, 8))) &&
            (Step(ef, code, InLine(pc, x.m)) == Step(ef, code, InLine(pc, m)) <==>
               Op(code[pc]) == 3 || Rs(code[pc]) != 31 || Lo32(m.cpu.Get(31)) == Plus(pc, 8))
  {
    LinkedTwice(m, Plus(pc, 8));
    TransferStep(ef, code, pc, m);
    TransferStep(ef, code, pc, Linked(m, Plus(pc, 8)));
    LinkedDestination(code[pc], pc, m);
  }

  lemma LinkedTwice(m: Machine, link: Word)
    ensures Linked(Linked(m, link), link) == Linked(m, link)
  {
    var l := Linked(m, link);
    assert l.cpu.gpr[31 := Sext32(link)] == l.cpu.gpr;
  }

  lemma LinkedDestination(w: Word, pc: Word, m: Machine)
    requires IsLink(w)
    ensures Destination(w, pc, Linked(m, Plus(pc, 8))) == Destination(w, pc, m) <==>
            Op(w) == 3 || Rs(w) != 31 || Lo32(m.cpu.Get(31)) == Plus(pc, 8)
  {
    assert Lo32(Sext32(Plus(pc, 8))) == Plus(pc, 8);
  }

  /** jalr $31 with `add $0, $0, $0`, which is not translated, in its slot. */
  const SELF_LINK: Code := map[0x1000 := 0x03e0_f809, 0x1004 := 0x0000_0020]

  /** With $31 = 0x2000 the machine goes to 0x2000, and resumed after the bail to 0x1008. */
  lemma SelfLinkMissesTarget(fp: Fp, m: Machine)
    requires m.cpu.gpr[31] == 0x2000
    ensures var ef, w := Emission(fp), SELF_LINK[0x1000];
            var x := ControlText(ef, SELF_LINK, {}, [], w, 0x1000, m);
            x.Bail? && x.pc == 0x1000 &&
            Step(ef, SELF_LINK, InLine(0x1000, x.m)) != Step(ef, SELF_LINK, InLine(0x1000, m))
  {
    var w, slot: Word := 0x03e0_f809, 0x0000_0020;
    JalrFields(w, slot);
    NotTranslated(fp, slot, AfterLink(w, 0x1000, m));
    LinkedBailResumes(Emission(fp), SELF_LINK, {}, [], 0x1000, m);
  }

  lemma JalrFields(w: Word, slot: Word)
    requires w == 0x03e0_f809 && slot == 0x0000_0020
    ensures Op(w) == 0 && Fn(w) == 0x09 && Rs(w) == 31 && Op(slot) == 0 && Fn(slot) == 0x20
    ensures IsControl(w) && IsLink(w)
  {
  }

  lemma NotTranslated(fp: Fp, slot: Word, m: Machine)
    requires slot != 0 && Op(slot) == 0 && Fn(slot) == 0x20
    ensures SlotEffects(Emission(fp), slot, m).None?
  {
  }

  /* ---- calls to translated functions ---- */

  /** No jalr jumps through the register it links. */
  predicate NoSelfLink(code: Code) {
    forall pc :: pc in code && Op(code[pc]) == 0 && IsLink(code[pc]) ==> Rs(code[pc]) != 31
  }

  type Functions = map<Word, map<Word, Blk>>

  ghost predicate FunctionsFit(fns: Functions) { forall f :: f in fns ==> BlocksFit(fns[f]) }

  /** Which targets are called directly, by link. */
  type Direct = set<(Word, Word)>

  /** r4300bt_call after a word that is not 0: the interpreter goes on at that pc. */
  function Resumed(ef: EmitFn, code: Code, link: Word, word: Word, place: Place, m: Machine, fuel: nat): Option<Back> {
    match RunTo(ef, code, link, InLine(word, m), fuel)
    case None => None
    case Some(m') => Some(Back(if place.Adrift? || word == link then place else InStep(link), m'))
  }

  /** One call.  What was not translated is interpreted from its start.  A translated callee that
      returned 0 has returned; one that returned another word is finished by the interpreter. */
  function CallOnce(ef: EmitFn, code: Code, fns: Functions, direct: Direct, inner: Callee, fuel: nat, target: Word,
                    link: Word, m: Machine)
      : Option<Back>
    requires FunctionsFit(fns)
  {
    if target !in fns || (target, link) !in direct then Interpret(ef, code, link, target, m, fuel)
    else
      match FunctionText(ef, code, inner, fns[target], target, m, true, fuel)
      case Done(word, place, m') =>
        if word == 0 then Some(Back(place, m')) else Resumed(ef, code, link, word, place, m', fuel)
      case _ => None
  }

  /** Calls nested at most `depth` deep. */
  function Called(ef: EmitFn, code: Code, fns: Functions, direct: Direct, fuel: nat, depth: nat): Callee
    requires FunctionsFit(fns)
  {
    if depth == 0 then (target: Word, link: Word, m: Machine) => None
    else
      var inner := Called(ef, code, fns, direct, fuel, depth - 1);
      (target: Word, link: Word, m: Machine) => CallOnce(ef, code, fns, direct, inner, fuel, target, link, m)
  }

  /** A linking transfer does the same with $31 already written. */
  lemma LinkedStep(ef: EmitFn, code: Code, pc: Word, m: Machine, t: Machine)
    requires pc in code && IsLink(code[pc]) && NoSelfLink(code) && Twins(m, Linked(t, Plus(pc, 8)))
    ensures TwinCfgs(Step(ef, code, InLine(pc, m)), Step(ef, code, InLine(pc, t)))
  {
    var w, link := code[pc], Plus(pc, 8);
    LinkIsControl(w);
    TransferStep(ef, code, pc, m);
    TransferStep(ef, code, pc, t);
    LinkedTwice(t, link);
    LinkedDestination(w, pc, t);
    assert Twins(Linked(m, link), Linked(t, link));
  }

  lemma LinkIsControl(w: Word)
    requires IsLink(w)
    ensures IsControl(w) && !IsForeign(w) && !IsLikely(w) && !IsBranchOp(w) && Op(w) % 3 == 0
  {
  }

  /** The interpreter goes on from the pc that was returned, $31 written or not. */
  lemma BailComesBack(ef: EmitFn, code: Code, link: Word, c: Cfg, word: Word, place: Place, m: Machine, fuel: nat)
      returns (n: nat)
    requires NoSelfLink(code) && Clean(ef, code, c) && StandsAt(code, c, place, m)
    requires word != 0 && (place == PlaceOf(code, word) || place.Adrift?)
    requires Resumed(ef, code, link, word, place, m, fuel).Some?
    ensures var back := Resumed(ef, code, link, word, place, m, fuel).value;
            StandsAt(code, Steps(ef, code, n, c), back.place, back.m)
  {
    n := 0;
    if !place.Adrift? && word != link {
      n := FinishedSim(ef, code, link, c, word, m, fuel);
    }
  }

  lemma FinishedSim(ef: EmitFn, code: Code, link: Word, c: Cfg, pc: Word, m: Machine, fuel: nat) returns (n: nat)
    requires NoSelfLink(code) && Clean(ef, code, c) && (Stands(c, pc, m) || StandsLinked(code, c, pc, m)) && pc != link
    requires RunTo(ef, code, link, InLine(pc, m), fuel).Some?
    ensures Stands(Steps(ef, code, n, c), link, RunTo(ef, code, link, InLine(pc, m), fuel).value)
  {
    if Stands(c, pc, m) {
      n := RunToReaches(ef, code, link, InLine(pc, m), c, fuel);
    } else {
      LinkedStep(ef, code, pc, m, c.m);
      CleanLater(ef, code, 1, c);
      OneStep(ef, code, 0, c);
      var k := RunToReaches(ef, code, link, Step(ef, code, InLine(pc, m)), Step(ef, code, c), fuel - 1);
      OneStep(ef, code, k, c);
      n := k + 1;
    }
  }

  lemma CallOnceSim(ef: EmitFn, code: Code, fns: Functions, direct: Direct, inner: Callee, fuel: nat, target: Word,
                    link: Word, m: Machine, t: Machine)
      returns (n: nat)
    requires Regular(ef) && NoSelfLink(code) && FunctionsFit(fns) && ComesBack(ef, code, inner)
    requires Twins(m, t) && Clean(ef, code, InLine(target, t))
    requires CallOnce(ef, code, fns, direct, inner, fuel, target, link, m).Some?
    ensures var back := CallOnce(ef, code, fns, direct, inner, fuel, target, link, m).value;
            StandsAt(code, Steps(ef, code, n, InLine(target, t)), back.place, back.m)
  {
    var c := InLine(target, t);
    if target !in fns || (target, link) !in direct {
      n := RunToReaches(ef, code, link, InLine(target, m), c, fuel);
    } else {
      var e := FunctionText(ef, code, inner, fns[target], target, m, true, fuel);
      n := FunctionSim(ef, code, inner, fns[target], target, m, t, fuel);
      if e.word != 0 {
        CleanLater(ef, code, n, c);
        var k := BailComesBack(ef, code, link, Steps(ef, code, n, c), e.word, e.place, e.m, fuel);
        StepsAdd(ef, code, n, k, c);
        n := n + k;
      }
    }
  }

  /** Calls come back with the machine in the place they name, however deep they nest. */
  lemma {:induction false} CalledComesBack(ef: EmitFn, code: Code, fns: Functions, direct: Direct, fuel: nat,
                                           depth: nat)
    requires Regular(ef) && NoSelfLink(code) && FunctionsFit(fns)
    ensures ComesBack(ef, code, Called(ef, code, fns, direct, fuel, depth))
    decreases depth
  {
    var callee := Called(ef, code, fns, direct, fuel, depth);
    if depth > 0 {
      var inner := Called(ef, code, fns, direct, fuel, depth - 1);
      CalledComesBack(ef, code, fns, direct, fuel, depth - 1);
      forall target: Word, link: Word, m: Machine, t: Machine
        ensures ComesBackAt(ef, code, callee, target, link, m, t)
      {
        if Twins(m, t) && Clean(ef, code, InLine(target, t)) && callee(target, link, m).Some? {
          var n := CallOnceSim(ef, code, fns, direct, inner, fuel, target, link, m, t);
          var back := callee(target, link, m).value;
          assert StandsAt(code, Steps(ef, code, n, InLine(target, t)), back.place, back.m);
        }
      }
    } else {
      forall target: Word, link: Word, m: Machine, t: Machine
        ensures ComesBackAt(ef, code, callee, target, link, m, t)
      {
      }
    }
  }

  /** One function of a translated program, with what the translator emits: through its own calls,
      and those of its callees, its text follows the machine from its entry. */
  lemma TranslatedFunction(fp: Fp, code: Code, fns: Functions, direct: Direct, blocks: map<Word, Blk>, entry: Word,
                           m: Machine, fuel: nat, depth: nat)
      returns (n: nat)
    requires NoSelfLink(code) && FunctionsFit(fns) && BlocksFit(blocks) && Clean(Emission(fp), code, InLine(entry, m))
    ensures var ef := Emission(fp);
            var e := FunctionText(ef, code, Called(ef, code, fns, direct, fuel, depth), blocks, entry, m, true, fuel);
            Follows(code, Steps(ef, code, n, InLine(entry, m)), e) &&
            (NoneEmpty(blocks) && e.Going? && e.on ==> n >= fuel)
  {
    var ef := Emission(fp);
    EmissionRegular(fp);
    CalledComesBack(ef, code, fns, direct, fuel, depth);
    n := FunctionSim(ef, code, Called(ef, code, fns, direct, fuel, depth), blocks, entry, m, m, fuel);
  }

  /* ---- when calls come back to their links ---- */

  /** Every call the text makes comes back with the machine at its link, and every tail call
      somewhere. */
  predicate CallsReturn(ef: EmitFn, code: Code, callee: Callee, blocks: map<Word, Blk>, pc: Word, m: Machine, fuel: nat)
    requires BlocksFit(blocks)
    decreases fuel
  {
    pc in blocks && fuel > 0 ==>
      assert BlockFits(blocks, pc);
      match BlockText(ef, code, blocks.Keys, blocks[pc], pc, m)
      case Goto(pc', m') => CallsReturn(ef, code, callee, blocks, pc', m', fuel - 1)
      case CallTo(target, link, m') =>
        var back := callee(target, link, m');
        back.Some? ==>
          back.value.place == InStep(link) && CallsReturn(ef, code, callee, blocks, link, back.value.m, fuel - 1)
      case TailTo(target, link, m') =>
        var back := callee(target, link, m');
        back.Some? ==> !back.value.place.Adrift?
      case _ => true
  }

  predicate OnTrack(e: End) {
    match e
    case Done(_, place, _) => !place.Adrift?
    case Going(_, on, _) => on
    case Waiting(_, on, _) => on
  }

  lemma {:induction false} NeverOnTrack(ef: EmitFn, code: Code, callee: Callee, blocks: map<Word, Blk>, pc: Word,
                                        m: Machine, fuel: nat)
    requires BlocksFit(blocks)
    ensures !OnTrack(FunctionText(ef, code, callee, blocks, pc, m, false, fuel))
    decreases fuel
  {
    if pc in blocks && fuel > 0 {
      assert BlockFits(blocks, pc);
      var x := BlockText(ef, code, blocks.Keys, blocks[pc], pc, m);
      if x.Goto? {
        NeverOnTrack(ef, code, callee, blocks, x.pc, x.m, fuel - 1);
      } else if x.CallTo? && callee(x.target, x.link, x.m).Some? {
        NeverOnTrack(ef, code, callee, blocks, x.link, callee(x.target, x.link, x.m).value.m, fuel - 1);
      }
    }
  }

  /** The text keeps to the machine's track exactly when all its calls return. */
  lemma {:induction false} OnTrackExact(ef: EmitFn, code: Code, callee: Callee, blocks: map<Word, Blk>, pc: Word,
                                        m: Machine, fuel: nat)
    requires BlocksFit(blocks)
    ensures OnTrack(FunctionText(ef, code, callee, blocks, pc, m, true, fuel)) <==>
            CallsReturn(ef, code, callee, blocks, pc, m, fuel)
    decreases fuel
  {
    if pc in blocks && fuel > 0 {
      assert BlockFits(blocks, pc);
      var x := BlockText(ef, code, blocks.Keys, blocks[pc], pc, m);
      if x.Goto? {
        OnTrackExact(ef, code, callee, blocks, x.pc, x.m, fuel - 1);
      } else if x.CallTo? && callee(x.target, x.link, x.m).Some? {
        var back := callee(x.target, x.link, x.m).value;
        OnTrackExact(ef, code, callee, blocks, x.link, back.m, fuel - 1);
        NeverOnTrack(ef, code, callee, blocks, x.link, back.m, fuel - 1);
      }
    }
  }

  /** A direct call whose callee kept to the track.  The interpreter finishes it exactly when the
      word it returned is not 0, and it comes back to its link exactly when it was finished or the
      machine was there. */
  lemma ReturnedWordExact(ef: EmitFn, code: Code, fns: Functions, direct: Direct, inner: Callee, fuel: nat,
                          target: Word, link: Word, m: Machine)
    requires FunctionsFit(fns) && target in fns && (target, link) in direct
    requires FunctionText(ef, code, inner, fns[target], target, m, true, fuel).Done?
    ensures var e := FunctionText(ef, code, inner, fns[target], target, m, true, fuel);
            var back := CallOnce(ef, code, fns, direct, inner, fuel, target, link, m);
            (e.word == 0 ==> back == Some(Back(e.place, e.m))) &&
            (e.word != 0 && back.Some? ==> RunTo(ef, code, link, InLine(e.word, e.m), fuel) == Some(back.value.m)) &&
            (e.place.InStep? && back.Some? ==>
               (back.value.place == InStep(link) <==> e.word != 0 || e.place.pc == link))
  {
  }

  /** So a callee that leaves for the interpreter at `pc`, where the machine then is, is finished by
      it if and only if `pc` is not 0: at 0 the caller goes on at its link in the state in which
      the callee left. */
  lemma BailExact(ef: EmitFn, code: Code, fns: Functions, direct: Direct, inner: Callee, fuel: nat, target: Word,
                  link: Word, m: Machine, t: Machine, pc: Word, m': Machine)
      returns (n: nat)
    requires FunctionsFit(fns) && target in fns && (target, link) in direct && link != 0
    requires FunctionText(ef, code, inner, fns[target], target, m, true, fuel) == Done(pc, InStep(pc), m')
    requires Regular(ef) && ComesBack(ef, code, inner) && Twins(m, t) && Clean(ef, code, InLine(target, t))
    ensures Stands(Steps(ef, code, n, InLine(target, t)), pc, m')
    ensures var back := CallOnce(ef, code, fns, direct, inner, fuel, target, link, m);
            (back.Some? ==> (back.value.place == InStep(link) <==> pc != 0)) &&
            back == if pc == 0 then Some(Back(InStep(0), m')) else Interpret(ef, code, link, pc, m', fuel)
  {
    ReturnedWordExact(ef, code, fns, direct, inner, fuel, target, link, m);
    n := FunctionSim(ef, code, inner, fns[target], target, m, t, fuel);
  }

  /* ---- a callee that leaves at 0 ---- */

  /** A function at `f` that is a jr through `r` with a nop in its slot, and at 0 another that sets
      `d` to 1 and returns. */
  predicate JumpsToZero(code: Code, f: Word, r: Reg, d: Reg) {
    && f <= TOP - 8 && f in code && f + 4 in code && code[f + 4] == 0 && r !in {0, 31}
    && Op(code[f]) == 0 && Fn(code[f]) == 0x08 && Rs(code[f]) == r
    && 0 in code && Op(code[0]) == 0x09 && Rs(code[0]) == 0 && Rt(code[0]) == d && Uimm(code[0]) == 1 && d !in {0, 31}
    && 4 in code && 8 in code && code[8] == 0 && Op(code[4]) == 0 && Fn(code[4]) == 0x08 && Rs(code[4]) == 31
  }

  const ZERO_JUMP: Code :=
    map[0 := 0x2402_0001,       // addiu $2, $0, 1
        4 := 0x03e0_0008,       // jr $31
        8 := 0,
        0x1000 := 0x0100_0008,  // jr $8
        0x1004 := 0]

  const ZERO_BLOCKS: map<Word, Blk> := map[0x1000 := Blk(0x1000, 0x1008, [])]

  lemma ZeroWords()
    ensures JumpsToZero(ZERO_JUMP, 0x1000, 8, 2)
  {
  }

  /** Called with $8 = 0 and $31 = 0x3000 the machine comes back with $2 = 1.  The caller goes on at
      0x3000 in the state of the call. */
  lemma ZeroBailNotFinished(fp: Fp, fns: Functions, direct: Direct, inner: Callee, m: Machine, fuel: nat)
    requires FunctionsFit(fns) && 0x1000 in fns && fns[0x1000] == ZERO_BLOCKS && (0x1000, 0x3000) in direct && fuel > 0
    requires m.cpu.gpr[8] == 0 && m.cpu.gpr[31] == 0x3000
    ensures CallOnce(Emission(fp), ZERO_JUMP, fns, direct, inner, fuel, 0x1000, 0x3000, m) == Some(Back(InStep(0), m))
    ensures Steps(Emission(fp), ZERO_JUMP, 5, InLine(0x1000, m)) == InLine(0x3000, WithReg(m, 2, 1))
  {
    ZeroWords();
    EmissionRegular(fp);
    LeavesAtZero(Emission(fp), ZERO_JUMP, inner, fns[0x1000], 0x1000, 8, 2, m, fuel);
    ZeroRuns(fp, ZERO_JUMP, 0x1000, 8, 2, 0x3000, m);
  }

  function WithReg(m: Machine, r: Reg, v: Dword): Machine { m.(cpu := m.cpu.(gpr := m.cpu.gpr[r := v])) }

  lemma LeavesAtZero(ef: EmitFn, code: Code, callee: Callee, blocks: map<Word, Blk>, f: Word, r: Reg, d: Reg,
                     m: Machine, fuel: nat)
    requires JumpsToZero(code, f, r, d) && m.cpu.gpr[r] == 0 && fuel > 0
    requires BlocksFit(blocks) && f in blocks && blocks[f] == Blk(f, f + 8, [])
    ensures FunctionText(ef, code, callee, blocks, f, m, true, fuel) == Done(0, InStep(0), m)
  {
    assert BlockFits(blocks, f);
    assert RunSlotText(false, false, [], m) == m;
    JrIsControl(code[f]);
    assert BlockText(ef, code, blocks.Keys, blocks[f], f, m) == Bail(0, m);
    assert !IsLink(code[0]);
  }

  lemma JrIsControl(w: Word)
    requires Op(w) == 0 && Fn(w) == 0x08
    ensures IsControl(w) && !IsForeign(w) && !IsBranchOp(w) && !IsLink(w) && !IsLikely(w)
  {
  }

  /** jr $r and its nop, addiu, jr $31 and its nop. */
  lemma ZeroRuns(fp: Fp, code: Code, f: Word, r: Reg, d: Reg, back: Word, m: Machine)
    requires JumpsToZero(code, f, r, d) && m.cpu.gpr[r] == 0 && m.cpu.gpr[31] == back
    ensures Steps(Emission(fp), code, 5, InLine(f, m)) == InLine(back, WithReg(m, d, 1))
  {
    var ef, m1 := Emission(fp), WithReg(m, d, 1);
    EmissionRegular(fp);
    JrRuns(ef, code, f, r, 0, m);
    AddsOne(fp, code, d, m);
    JrRuns(ef, code, 4, 31, back, m1);
    FiveSteps(ef, code, InLine(f, m), InLine(0, m), InLine(4, m1), InLine(back, m1));
  }

  lemma FiveSteps(ef: EmitFn, code: Code, c: Cfg, c2: Cfg, c3: Cfg, c5: Cfg)
    requires Steps(ef, code, 2, c) == c2 && Step(ef, code, c2) == c3 && Steps(ef, code, 2, c3) == c5
    ensures Steps(ef, code, 5, c) == c5
  {
    OneStep(ef, code, 0, c2);
    StepsAdd(ef, code, 2, 1, c);
    StepsAdd(ef, code, 3, 2, c);
  }

  lemma AddsOne(fp: Fp, code: Code, d: Reg, m: Machine)
    requires 0 in code && Op(code[0]) == 0x09 && Rs(code[0]) == 0 && Rt(code[0]) == d && Uimm(code[0]) == 1 && d != 0
    ensures Step(Emission(fp), code, InLine(0, m)) == InLine(4, WithReg(m, d, 1))
  {
    OneEffect(fp, code[0], d, m.cpu, Loaded(code[0], m));
    OneSet(d, 1, m);
    AddiuIsPlain(code[0]);
  }

  lemma AddiuIsPlain(w: Word)
    requires Op(w) == 0x09
    ensures !IsControl(w)
  {
  }

  lemma OneEffect(fp: Fp, w: Word, d: Reg, c: Cpu, b: seq<Byte>)
    requires Op(w) == 0x09 && Rs(w) == 0 && Rt(w) == d && Uimm(w) == 1
    ensures Effects(fp, w, c, b) == Some([SetGpr(d, 1)])
  {
    assert Simm(w) == 1;
    OneExtended();
  }

  lemma OneExtended()
    ensures Sext32(Add32(Lo32(0), Wrap32(1))) == 1
  {
  }

  lemma OneSet(d: Reg, v: Dword, m: Machine)
    requires d != 0
    ensures ApplyAll([SetGpr(d, v)], m) == WithReg(m, d, v)
  {
    var es := [SetGpr(d, v)];
    assert es[1..] == [];
  }

  /** A jr through a register with a nop in its slot. */
  lemma JrRuns(ef: EmitFn, code: Code, b: Word, r: Reg, to: Word, m: Machine)
    requires Regular(ef) && b <= TOP && b in code && b + 4 in code && code[b + 4] == 0
    requires Op(code[b]) == 0 && Fn(code[b]) == 0x08 && Rs(code[b]) == r != 0 && m.cpu.gpr[r] == to
    ensures Step(ef, code, InLine(b, m)) == At(b + 4, to, m) && Step(ef, code, At(b + 4, to, m)) == InLine(to, m)
    ensures Steps(ef, code, 2, InLine(b, m)) == InLine(to, m)
  {
    JrJumps(ef, code, b, r, to, m);
    NopRuns(ef, code, b + 4, to, m);
    TwoSteps(ef, code, InLine(b, m), At(b + 4, to, m), InLine(to, m));
  }

  lemma JrJumps(ef: EmitFn, code: Code, b: Word, r: Reg, to: Word, m: Machine)
    requires b <= TOP && b in code && Op(code[b]) == 0 && Fn(code[b]) == 0x08 && Rs(code[b]) == r != 0
    requires m.cpu.gpr[r] == to
    ensures Step(ef, code, InLine(b, m)) == At(b + 4, to, m)
  {
    JrIsControl(code[b]);
    assert Lo32(to) == to;
  }

  /* ---- tail calls through the interpreter ---- */

  predicate IsAt(c: Cfg, pc: Word) { c.At? && c.pc == pc && c.npc == Plus(pc, 4) }

  /** A tail call of a function that is not translated is interpreted until the pc is `link`, the
      word after the slot of the j.  When the machine is back at `r`, where the tail callee
      returned to, the interpreter has stopped exactly if `r` is that word. */
  lemma {:induction false} TailCallExact(ef: EmitFn, code: Code, link: Word, r: Word, c: Cfg, n: nat)
    requires IsAt(Steps(ef, code, n, c), r)
    requires forall i: nat :: i < n ==> Steps(ef, code, i, c).At? && !IsAt(Steps(ef, code, i, c), link)
    ensures RunTo(ef, code, link, c, n).Some? <==> r == link
    decreases n
  {
    if n > 0 {
      var d := Step(ef, code, c);
      assert Steps(ef, code, 0, c) == c;
      forall i: nat | i < n - 1 ensures Steps(ef, code, i, d).At? && !IsAt(Steps(ef, code, i, d), link) {
        assert Steps(ef, code, i + 1, c) == Steps(ef, code, i, d);
      }
      TailCallExact(ef, code, link, r, d, n - 1);
    }
  }

  /** A tail call from `a` to `b`, where a function only returns; nops in both slots. */
  predicate TailCalls(code: Code, a: Word, b: Word) {
    && a <= TOP && a in code && a + 4 in code && code[a + 4] == 0 && Op(code[a]) == 2 && JumpTo(code[a], a) == b
    && b <= TOP && b in code && b + 4 in code && code[b + 4] == 0
    && Op(code[b]) == 0 && Fn(code[b]) == 0x08 && Rs(code[b]) == 31
  }

  const TAIL_CALL: Code := map[0x1000 := 0x0800_0800, 0x1004 := 0, 0x2000 := 0x03e0_0008, 0x2004 := 0]

  lemma TailWords()
    ensures TailCalls(TAIL_CALL, 0x1000, 0x2000)
  {
  }

  /** Called with $31 = 0x3000 the machine is back there after two instructions.  The interpreter that
      was to stop at 0x1008 is not, and never comes back. */
  lemma TailCallOverruns(fp: Fp, m: Machine, fuel: nat)
    requires m.cpu.gpr[31] == 0x3000
    ensures Overruns(Emission(fp), TAIL_CALL, 0x1000, 0x2000, 0x3000, m, fuel)
  {
    TailWords();
    EmissionRegular(fp);
    TailCallLost(Emission(fp), TAIL_CALL, 0x1000, 0x2000, 0x3000, m, fuel);
  }

  predicate Overruns(ef: EmitFn, code: Code, a: Word, b: Word, r: Word, m: Machine, fuel: nat) {
    && a in code && ControlText(ef, code, {}, [], code[a], a, m) == TailTo(b, Plus(a, 8), m)
    && Steps(ef, code, 2, InLine(b, m)) == InLine(r, m) && RunTo(ef, code, Plus(a, 8), InLine(b, m), fuel).None?
  }

  lemma TailCallLost(ef: EmitFn, code: Code, a: Word, b: Word, r: Word, m: Machine, fuel: nat)
    requires Regular(ef) && TailCalls(code, a, b) && m.cpu.gpr[31] == r && r !in code && Plus(a, 8) !in {b, b + 4, r}
    ensures Overruns(ef, code, a, b, r, m, fuel)
  {
    JumpLeaves(ef, code, a, m);
    JrRuns(ef, code, b, 31, r, m);
    NeverBack(ef, code, Plus(a, 8), InLine(b, m), At(b + 4, r, m), InLine(r, m), fuel);
  }

  lemma JumpLeaves(ef: EmitFn, code: Code, a: Word, m: Machine)
    requires a <= TOP && a in code && a + 4 in code && code[a + 4] == 0 && Op(code[a]) == 2
    ensures ControlText(ef, code, {}, [], code[a], a, m) == TailTo(JumpTo(code[a], a), Plus(a, 8), m)
  {
    assert RunSlotText(false, false, [], m) == m;
  }

  lemma TwoSteps(ef: EmitFn, code: Code, c: Cfg, d: Cfg, e: Cfg)
    requires Step(ef, code, c) == d && Step(ef, code, d) == e
    ensures Steps(ef, code, 2, c) == e
  {
    OneStep(ef, code, 1, c);
    OneStep(ef, code, 0, d);
  }

  lemma NopRuns(ef: EmitFn, code: Code, pc: Word, npc: Word, m: Machine)
    requires Regular(ef) && pc in code && code[pc] == 0
    ensures Step(ef, code, At(pc, npc, m)) == At(npc, Plus(npc, 4), m)
  {
    assert RegularAt(ef, 0, m.cpu, Loaded(0, m));
    SlotIsExecuted(ef, 0, m);
  }

  lemma NeverBack(ef: EmitFn, code: Code, link: Word, c: Cfg, d: Cfg, e: Cfg, fuel: nat)
    requires Step(ef, code, c) == d && Step(ef, code, d) == e && e.At? && e.pc !in code && c.At? && d.At?
    requires link !in {c.pc, d.pc, e.pc}
    ensures RunTo(ef, code, link, c, fuel).None?
  {
    LostAtOnce(ef, code, link, e, fuel);
    if fuel > 0 {
      assert RunTo(ef, code, link, c, fuel) == RunTo(ef, code, link, d, fuel - 1);
      if fuel > 1 {
        LostAtOnce(ef, code, link, e, fuel - 2);
      }
    }
  }

  lemma LostAtOnce(ef: EmitFn, code: Code, link: Word, e: Cfg, fuel: nat)
    requires e.At? && e.pc !in code && e.pc != link
    ensures RunTo(ef, code, link, e, fuel).None?
  {
    assert Step(ef, code, e) == Unknown;
  }

  /* ---- blocks without instructions ---- */

  /** A leader that is not mapped: its text leaves for the interpreter, or, exactly when its block
      is empty, goes to itself for ever. */
  lemma EmptyBlockSpins(ef: EmitFn, code: Code, callee: Callee, blocks: map<Word, Blk>, pc: Word, m: Machine, on: bool)
    requires BlocksFit(blocks) && pc in blocks && pc !in code
    ensures blocks[pc].end == pc <==>
            forall fuel: nat :: FunctionText(ef, code, callee, blocks, pc, m, on, fuel) == Going(pc, on, m)
    ensures blocks[pc].end != pc ==>
            forall fuel: nat :: fuel > 0 ==>
              FunctionText(ef, code, callee, blocks, pc, m, on, fuel) == Left(code, pc, on, m)
  {
    assert BlockFits(blocks, pc);
    if blocks[pc].end == pc {
      forall fuel: nat ensures FunctionText(ef, code, callee, blocks, pc, m, on, fuel) == Going(pc, on, m) {
        Spins(ef, code, callee, blocks, pc, m, on, fuel);
      }
    } else {
      forall fuel: nat | fuel > 0
        ensures FunctionText(ef, code, callee, blocks, pc, m, on, fuel) == Left(code, pc, on, m)
      {
        assert BlockText(ef, code, blocks.Keys, blocks[pc], pc, m) == Bail(pc, m);
      }
      assert FunctionText(ef, code, callee, blocks, pc, m, on, 1) != Going(pc, on, m);
    }
  }

  lemma {:induction false} Spins(ef: EmitFn, code: Code, callee: Callee, blocks: map<Word, Blk>, pc: Word, m: Machine,
                                 on: bool, fuel: nat)
    requires BlocksFit(blocks) && pc in blocks && blocks[pc].end == pc
    ensures FunctionText(ef, code, callee, blocks, pc, m, on, fuel) == Going(pc, on, m)
    decreases fuel
  {
    if fuel > 0 {
      assert BlockFits(blocks, pc);
      Spins(ef, code, callee, blocks, pc, m, on, fuel - 1);
    }
  }
}
