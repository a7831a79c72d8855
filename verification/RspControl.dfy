/** The control half of `rsp_t::run`: a delayed-branch machine over (pc, next_pc).
    What a plain instruction does is the parameter `ex`; module RspExec supplies it. */
module RspControl {
  import opened Bits
  import opened RspState

  /** RSP_DIE ends the process, so nothing of the state survives it. */
  datatype Outcome = Ok(s: Rsp) | Die

  type Plain = (Word, Rsp) -> Outcome

  datatype Cfg = Running(pc: Addr, npc: Addr, s: Rsp) | Halted(s: Rsp) | Died

  predicate IsBreak(w: Word) { Op(w) == 0 && Fn(w) == 0x0d }

  predicate IsTransfer(w: Word) {
    (Op(w) == 0 && (Fn(w) == 0x08 || Fn(w) == 0x09)) || 1 <= Op(w) <= 7
  }

  /** The condition of the opcodes 1 and 4 to 7. */
  predicate Taken(w: Word, a: Word, b: Word)
    requires Op(w) == 1 || 4 <= Op(w) <= 7
  {
    match Op(w)
    case 1 => if Rt(w) % 2 == 1 then !(Signed32(a) < 0) else Signed32(a) < 0
    case 4 => a == b
    case 5 => a != b
    case 6 => Signed32(a) <= 0
    case _ => Signed32(a) > 0
  }

  /** Where a control transfer at `pc` (with `npc` following) sends the instruction after
      `npc`, and the state it leaves. */
  function Transfer(w: Word, npc: Addr, s: Rsp): (Addr, Rsp)
    requires IsTransfer(w)
  {
    var fall := Next(npc);
    if Op(w) == 0 then
      (MaskPc(s.r[Rs(w)]), if Fn(w) == 0x09 then SetReg(s, Rd(w), Bytes(fall)) else SetReg(s, 0, 0))
    else if Op(w) == 2 then
      (MaskPc(4 * w), SetReg(s, 0, 0))
    else if Op(w) == 3 then
      (MaskPc(4 * w), SetReg(s, 31, Bytes(fall)))
    else
      var to := if Taken(w, s.r[Rs(w)], s.r[Rt(w)]) then MaskPc(4 * npc + 4 * Simm(w)) else fall;
      (to, if Op(w) == 1 && Rt(w) / 16 == 1 then SetReg(s, 31, Bytes(fall)) else SetReg(s, 0, 0))
  }

  /** One turn of the interpreter's loop. */
  function Step(ex: Plain, c: Cfg): Cfg {
    if !c.Running? then c else
    var w := WordAt(ImageOf(c.s), c.pc);
    if IsBreak(w) then
      Halted(SetReg(c.s, 0, 0).(halted := true))
    else if IsTransfer(w) then
      var (to, s') := Transfer(w, c.npc, c.s);
      Running(c.npc, to, s')
    else
      match ex(w, c.s)
      case Die => Died
      case Ok(s') => Running(c.npc, Next(c.npc), s')
  }

  function Steps(ex: Plain, n: nat, c: Cfg): Cfg {
    if n == 0 then c else Steps(ex, n - 1, Step(ex, c))
  }

  /** `rsp_t::run(start)` begins here. */
  function Start(pc: int, s: Rsp): Cfg { Running(MaskPc(pc), Next(MaskPc(pc)), s.(halted := false)) }

  lemma StepsAdd(ex: Plain, m: nat, n: nat, c: Cfg)
    ensures Steps(ex, m + n, c) == Steps(ex, n, Steps(ex, m, c))
  {
    if m > 0 {
      StepsAdd(ex, m - 1, n, Step(ex, c));
    }
  }

  /** A configuration that stopped stays where it is. */
  lemma StopsForGood(ex: Plain, n: nat, c: Cfg)
    requires !c.Running?
    ensures Steps(ex, n, c) == c
  {
    if n > 0 {
      StopsForGood(ex, n - 1, c);
    }
  }

  /** Two runs from one configuration that both stopped, stopped in the same state. */
  lemma OneResult(ex: Plain, m: nat, n: nat, c: Cfg)
    requires !Steps(ex, m, c).Running? && !Steps(ex, n, c).Running?
    ensures Steps(ex, m, c) == Steps(ex, n, c)
  {
    var lo, hi := if m <= n then m else n, if m <= n then n else m;
    StepsAdd(ex, lo, hi - lo, c);
    StopsForGood(ex, hi - lo, Steps(ex, lo, c));
  }

  /** A run that stopped within m steps is the same after n >= m. */
  lemma RunsEarlier(ex: Plain, m: nat, n: nat, c: Cfg)
    requires m <= n && Steps(ex, n, c).Running?
    ensures Steps(ex, m, c).Running?
  {
    StepsAdd(ex, m, n - m, c);
    if !Steps(ex, m, c).Running? {
      StopsForGood(ex, n - m, Steps(ex, m, c));
    }
  }
}
