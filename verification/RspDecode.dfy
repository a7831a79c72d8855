/** `rspInsn::decode`, reduced to what the control-flow walk asks of an instruction. */
module RspDecode {
  import opened Bits
  import opened RspState
  import opened RspControl

  datatype Class = Untranslatable | PlainInsn | Break | Branch | Jump | Call | JumpReg | CallReg

  function Classify(w: Word): Class {
    var op, fn := Op(w), Fn(w);
    if op == 0x00 then
      if fn == 0x08 then JumpReg
      else if fn == 0x09 then CallReg
      else if fn == 0x0d then Break
      else if fn == 0 || fn == 2 || fn == 3 || fn == 4 || fn == 6 || fn == 7 ||
              0x20 <= fn <= 0x27 || fn == 0x2a || fn == 0x2b then PlainInsn
      else Untranslatable
    else if op == 0x01 then
      if Rt(w) <= 1 then Branch else Untranslatable
    else if op == 0x02 then Jump
    else if op == 0x03 then Call
    else if 0x04 <= op <= 0x07 then Branch
    else if 0x08 <= op <= 0x0f then PlainInsn
    else if op == 0x10 then
      if Rs(w) == 0 || Rs(w) == 4 then PlainInsn else Untranslatable
    else if op == 0x12 then
      if w / 0x200_0000 % 2 == 0 then (if Rs(w) == 0 || Rs(w) == 4 then PlainInsn else Untranslatable)
      else if IsTranslatedVectorOp(fn) then PlainInsn else Untranslatable
    else if op == 0x20 || op == 0x21 || 0x23 <= op <= 0x25 || op == 0x28 || op == 0x29 || op == 0x2b then PlainInsn
    else if op == 0x32 then
      if 1 <= Rd(w) <= 5 then PlainInsn else Untranslatable
    else if op == 0x3a then
      if 1 <= Rd(w) <= 4 then PlainInsn else Untranslatable
    else Untranslatable
  }

  predicate IsTranslatedVectorOp(fn: int) {
    fn == 0x00 || 0x04 <= fn <= 0x08 || 0x0d <= fn <= 0x11 || fn == 0x14 || fn == 0x1d ||
    fn == 0x23 || fn == 0x24 || fn == 0x28 || fn == 0x2c
  }

  predicate IsControl(w: Word) {
    var c := Classify(w);
    c.Branch? || c.Jump? || c.Call? || c.JumpReg? || c.CallReg?
  }

  /** The lambda of the same name in compile(): a transfer needs a plain instruction in its slot. */
  predicate Translatable(im: Image, a: Addr) {
    var w := WordAt(im, a);
    if IsControl(w) then Classify(WordAt(im, Next(a))).PlainInsn?
    else !Classify(w).Untranslatable?
  }

  /** `link = (a + 8) & 0xffc` */
  function LinkOf(a: Addr): Addr { Next(Next(a)) }

  /** tAddr of a branch. */
  function BranchTarget(w: Word, a: Addr): Addr { MaskPc(4 * a + 4 + 4 * Simm(w)) }

  /** tAddr of j and jal. */
  function JumpTarget(w: Word): Addr { MaskPc(4 * w) }

  /** What decode calls a plain instruction, the interpreter executes as one; the other
      classes are the transfers and BREAK of the interpreter's switch. */
  lemma DecodeAgrees(w: Word)
    ensures Classify(w).PlainInsn? ==> !IsBreak(w) && !IsTransfer(w)
    ensures Classify(w).Break? <==> IsBreak(w)
    ensures IsControl(w) ==> IsTransfer(w) && !IsBreak(w)
  {
  }
}
