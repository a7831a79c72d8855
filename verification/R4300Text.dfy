/** The emitted function as it runs: registers and guest RAM updated in place, with `pred` set
    while the slot of a branch-likely executes. */
module R4300Text {
  import opened Collections
  import opened Bits
  import opened RspState
  import opened R4300Insn
  import opened R4300Likely

  function Commit(pred: Option<bool>, e: Effect, m: Machine): Machine {
    match pred
    case None => Apply(e, m)
    case Some(p) => ApplyIf(p, e, m)
  }

  function CommitAll(pred: Option<bool>, es: seq<Effect>, m: Machine): Machine {
    match pred
    case None => ApplyAll(es, m)
    case Some(p) => ApplyAllIf(p, es, m)
  }

  lemma CommitNext(pred: Option<bool>, es: seq<Effect>, m: Machine)
    requires es != []
    ensures CommitAll(pred, es, m) == CommitAll(pred, es[1..], Commit(pred, es[0], m))
  {
  }

  /** How a block was left, the state being in the object. */
  datatype Exit =
    | GoTo(pc: Word) | BailTo(pc: Word) | Return(to: Word)
    | Call(target: Word, link: Word) | Tail(target: Word, link: Word)

  function ExitOf(x: Outcome): Exit {
    match x
    case Goto(pc, _) => GoTo(pc)
    case Bail(pc, _) => BailTo(pc)
    case Returned(to, _) => Return(to)
    case CallTo(target, link, _) => Call(target, link)
    case TailTo(target, link, _) => Tail(target, link)
  }

  /** The text of a block from an address on. */
  type TextFn = (Word, Machine) -> Outcome

  /** `text` is that of block `b`: one turn of it at `pc`. */
  ghost predicate TurnOk(ef: EmitFn, code: Code, keys: set<Word>, b: Blk, text: TextFn, pc: Word, m: Machine) {
    b.end <= TOP &&
    text(pc, m) ==
      if pc >= b.end then Goto(b.end, m)
      else if pc !in code then Bail(pc, m)
      else if IsControl(code[pc]) then ControlText(ef, code, keys, b.succs, code[pc], pc, m)
      else if Execute(ef, code[pc], m).None? then Bail(pc, m)
      else text(pc + 4, Execute(ef, code[pc], m).value)
  }

  ghost predicate IsTextOf(ef: EmitFn, code: Code, keys: set<Word>, b: Blk, text: TextFn) {
    forall pc, m {:trigger TurnOk(ef, code, keys, b, text, pc, m)} :: TurnOk(ef, code, keys, b, text, pc, m)
  }

  class FnState {
    const gpr: array<Dword>
    const fpr: array<Word>
    const ram: array<Byte>
    var lo: Dword
    var hi: Dword
    var fcc: Word
    var pred: Option<bool>

    ghost predicate Valid() { gpr.Length == 32 && fpr.Length == 64 && ram.Length == RAM_SIZE }

    function M(): Machine
      requires Valid()
      reads this, gpr, fpr, ram
    {
      Machine(Cpu(gpr[..], lo, hi, fpr[..], fcc), ram[..])
    }

    method SetGPR(r: Reg, v: Dword)
      requires Valid()
      modifies gpr
      ensures M() == Commit(pred, SetGpr(r, v), old(M()))
    {
      if r != 0 {
        gpr[r] := if pred.Some? && !pred.value then gpr[r] else v;
      }
    }

    method StoreMem(pa: Pa, b: Access)
      requires Valid()
      modifies ram
      ensures M() == Commit(pred, Store(pa, b), old(M()))
    {
      var at := if pred.Some? && !pred.value then BITBUCKET_PA else pa;
      PokeRam(at, b);
    }

    method PokeRam(at: nat, b: seq<Byte>)
      requires Valid() && at + |b| <= RAM_SIZE
      modifies ram
      ensures ram[..] == Poke(old(ram[..]), at, b)
    {
      forall k | 0 <= k < |b| {
        ram[at + k] := b[k];
      }
      ghost var now, want := ram[..], Poke(old(ram[..]), at, b);
      forall k | 0 <= k < RAM_SIZE ensures now[k] == want[k] {}
    }

    method StoreHalf(i: Half64, x: Word)
      requires Valid()
      modifies fpr
      ensures M() == Commit(pred, SetHalf(i, x), old(M()))
    {
      fpr[i] := if pred.Some? && !pred.value then fpr[i] else x;
    }

    method StoreSlot(fr: Reg, v: Dword)
      requires Valid()
      modifies fpr
      ensures M() == Commit(pred, SetSlot(fr, v), old(M()))
    {
      var keep := pred.Some? && !pred.value;
      var low, high := if keep then fpr[2 * fr] else Lo32(v),
                       if keep then fpr[2 * fr + 1] else Wrap32(v / 0x1_0000_0000);
      fpr[2 * fr] := low;
      fpr[2 * fr + 1] := high;
    }

    /** storeGuarded on lo, hi and the condition codes. */
    method StoreControl(e: Effect)
      requires Valid() && (e.SetLo? || e.SetHi? || e.SetFcc?)
      modifies this`lo, this`hi, this`fcc
      ensures M() == Commit(pred, e, old(M()))
    {
      var keep := pred.Some? && !pred.value;
      if e.SetLo? {
        lo := if keep then lo else e.v;
      } else if e.SetHi? {
        hi := if keep then hi else e.v;
      } else {
        fcc := if keep then fcc else e.cc;
      }
    }

    method Effect1(e: Effect)
      requires Valid()
      modifies this`lo, this`hi, this`fcc, gpr, fpr, ram
      ensures M() == Commit(pred, e, old(M()))
    {
      match e
      case SetGpr(r, v) => SetGPR(r, v);
      case Store(pa, b) => StoreMem(pa, b);
      case SetHalf(i, x) => StoreHalf(i, x);
      case SetSlot(fr, v) => StoreSlot(fr, v);
      case SetLo(_) => StoreControl(e);
      case SetHi(_) => StoreControl(e);
      case SetFcc(_) => StoreControl(e);
    }

    method Perform(es: seq<Effect>)
      requires Valid()
      modifies this`lo, this`hi, this`fcc, gpr, fpr, ram
      ensures M() == CommitAll(pred, es, old(M()))
    {
      assert es[0..] == es && es[|es|..] == [];
      for i := 0 to |es|
        invariant CommitAll(pred, es[i..], M()) == CommitAll(pred, es, old(M()))
      {
        CommitNext(pred, es[i..], M());
        assert es[i..][1..] == es[i + 1..];
        Effect1(es[i]);
      }
    }

    /** The control case: condition and target are read first, then the link is written, and
        `pred` is the condition just while a likely slot runs. */
    method Control(ef: EmitFn, code: Code, keys: set<Word>, succs: seq<Word>, w: Word, pc: Word) returns (out: Exit)
      requires Valid() && pred.None?
      modifies this, gpr, fpr, ram
      ensures pred.None?
      ensures out == ExitOf(ControlText(ef, code, keys, succs, w, pc, old(M())))
      ensures M() == ControlText(ef, code, keys, succs, w, pc, old(M())).m
    {
      if Plus(pc, 4) !in code || IsForeign(w) {
        return BailTo(pc);
      }
      var slot, cond, to := code[Plus(pc, 4)], IsBranchOp(w) && Cond(w, M().cpu), Lo32(M().cpu.Get(Rs(w)));
      if IsLink(w) {
        SetGPR(31, Sext32(Plus(pc, 8)));
      }
      ghost var m1 := M();
      assert m1 == AfterLink(w, pc, old(M()));
      var es := SlotEffects(ef, slot, M());
      if es.None? {
        return BailTo(pc);
      }
      pred := if IsLikely(w) then Some(cond) else None;
      Perform(es.value);
      pred := None;
      assert M() == RunSlotText(IsLikely(w), cond, es.value, m1);
      out := ExitOf(Leave(w, pc, cond, to, keys, succs, M()));
    }

    /** A plain instruction, if it is translated; then the rest of the text still ends in `x`. */
    method Plain(ef: EmitFn, code: Code, ghost keys: set<Word>, ghost b: Blk, pc: Word, ghost text: TextFn,
                 ghost x: Outcome)
        returns (ok: bool)
      requires Valid() && pred.None? && pc < b.end <= TOP && pc in code && !IsControl(code[pc])
      requires IsTextOf(ef, code, keys, b, text) && text(pc, M()) == x
      modifies this`lo, this`hi, this`fcc, gpr, fpr, ram
      ensures ok ==> text(pc + 4, M()) == x
      ensures !ok ==> M() == old(M()) && x == Bail(pc, M())
    {
      assert TurnOk(ef, code, keys, b, text, pc, M());
      var es := ef(code[pc], M().cpu, Loaded(code[pc], M()));
      ok := es.Some?;
      if ok {
        Perform(es.value);
      }
    }

    method Body(ef: EmitFn, code: Code, keys: set<Word>, b: Blk, pc0: Word) returns (out: Exit)
      requires Valid() && pred.None? && b.end <= TOP
      modifies this, gpr, fpr, ram
      ensures pred.None?
      ensures out == ExitOf(BlockText(ef, code, keys, b, pc0, old(M()))) &&
              M() == BlockText(ef, code, keys, b, pc0, old(M())).m
    {
      ghost var text := (pc: Word, m: Machine) => BlockText(ef, code, keys, b, pc, m);
      assert IsTextOf(ef, code, keys, b, text) by {
        forall pc, m ensures TurnOk(ef, code, keys, b, text, pc, m) {}
      }
      out := RunBody(ef, code, keys, b, pc0, text);
    }

    /** The loop over the instructions. */
    method RunBody(ef: EmitFn, code: Code, keys: set<Word>, b: Blk, pc0: Word, ghost text: TextFn) returns (out: Exit)
      requires Valid() && pred.None? && b.end <= TOP && IsTextOf(ef, code, keys, b, text)
      modifies this, gpr, fpr, ram
      ensures pred.None? && out == ExitOf(text(pc0, old(M()))) && M() == text(pc0, old(M())).m
    {
      var pc: Word := pc0;
      ghost var x := text(pc0, M());
      while pc < b.end
        invariant pred.None? && text(pc, M()) == x
        decreases b.end - pc
      {
        assert TurnOk(ef, code, keys, b, text, pc, M());
        if pc !in code {
          return BailTo(pc);
        }
        if IsControl(code[pc]) {
          out := Control(ef, code, keys, b.succs, code[pc], pc);
          return;
        }
        var ok := Plain(ef, code, keys, b, pc, text, x);
        if !ok {
          return BailTo(pc);
        }
        pc := pc + 4;
      }
      assert TurnOk(ef, code, keys, b, text, pc, M());
      return GoTo(b.end);
    }
  }
}
