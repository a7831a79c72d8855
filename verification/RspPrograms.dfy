/** Small programs for the RSP: four instruction words, images made of words, and what the
    interpreter and any translation make of BREAK. */
module RspPrograms {
  import opened Bits
  import opened RspState
  import opened RspControl
  import opened RspDecode
  import opened BlockGraph
  import opened Simulation
  import opened RspExec

  const BREAK: Word := 0x0000_000d
  const J_40: Word := 0x0800_0010        // j 0x40
  const MTC0_RD_LEN: Word := 0x4080_1000 // mtc0 $0, RD_LEN
  const ADD_1: Word := 0x2401_0001       // addiu $1, $0, 1

  /** What the four words are. */
  lemma Decoded()
    ensures IsBreak(BREAK) && Classify(BREAK).Break?
    ensures Op(J_40) == 2 && MaskPc(4 * J_40) == 0x10 && JumpTarget(J_40) == 0x10 && Classify(J_40).Jump?
    ensures !IsBreak(J_40) && IsTransfer(J_40)
    ensures !IsBreak(MTC0_RD_LEN) && !IsTransfer(MTC0_RD_LEN) && Classify(MTC0_RD_LEN).PlainInsn?
    ensures !IsBreak(ADD_1) && !IsTransfer(ADD_1) && Classify(ADD_1).PlainInsn?
  {
  }

  lemma DecodedOperands()
    ensures Op(MTC0_RD_LEN) == 0x10 && Rs(MTC0_RD_LEN) == 4 && Rt(MTC0_RD_LEN) == 0 && Rd(MTC0_RD_LEN) == 2
    ensures Op(ADD_1) == 0x09 && Rs(ADD_1) == 0 && Rt(ADD_1) == 1 && Simm(ADD_1) == 1
  {
  }

  /* ---- images made of words ---- */

  function ByteOfWord(w: Word, i: int): Byte {
    if i == 0 then w / 0x100_0000
    else if i == 1 then w / 0x1_0000 % 0x100
    else if i == 2 then w / 0x100 % 0x100
    else w % 0x100
  }

  /** Word `a` of a program; zero past its end. */
  function WordOf(ws: seq<Word>, a: int): Word { if 0 <= a < |ws| then ws[a] else 0 }

  function ProgramByte(ws: seq<Word>, k: int): Byte { ByteOfWord(WordOf(ws, k / 4), k % 4) }

  function ImageOfWords(ws: seq<Word>): Image { seq(0x1000, k requires 0 <= k < 0x1000 => ProgramByte(ws, k)) }

  lemma BytesOfWord(w: Word)
    ensures Be32(ByteOfWord(w, 0), ByteOfWord(w, 1), ByteOfWord(w, 2), ByteOfWord(w, 3)) == w
  {
    var a, b, c, d := Digits(w);
  }

  lemma BytesOfImage(ws: seq<Word>, a: Addr, i: nat)
    requires i < 4
    ensures ImageOfWords(ws)[4 * a + i] == ByteOfWord(WordOf(ws, a), i)
  {
    assert (4 * a + i) / 4 == a && (4 * a + i) % 4 == i;
  }

  lemma WordOfImage(ws: seq<Word>, a: Addr)
    ensures WordAt(ImageOfWords(ws), a) == WordOf(ws, a)
  {
    BytesOfImage(ws, a, 0);
    BytesOfImage(ws, a, 1);
    BytesOfImage(ws, a, 2);
    BytesOfImage(ws, a, 3);
    BytesOfWord(WordOf(ws, a));
  }

  /** The program in instruction memory, an SP memory address, and zero everywhere else. */
  function Loaded(ws: seq<Word>, memAddr: Word): Rsp {
    var none: Bits8 := seq(8, _ => false);
    var dmem: seq<Byte> := seq(IMEM, _ => 0);
    Rsp(seq(32, _ => 0), Vu(seq<Row>(32, _ => ZERO_ROW), seq(8, _ => 0), Flags(none, none, none, none, none)),
        dmem + ImageOfWords(ws), Sp(memAddr, 0, 0), seq(DRAM_SIZE, _ => 0), 0, false)
  }

  lemma LoadedImage(ws: seq<Word>, memAddr: Word)
    ensures ImageOf(Loaded(ws, memAddr)) == ImageOfWords(ws)
  {
  }

  lemma LoadedWord(ws: seq<Word>, memAddr: Word, a: Addr)
    ensures WordAt(ImageOf(Loaded(ws, memAddr)), a) == WordOf(ws, a)
  {
    LoadedImage(ws, memAddr);
    WordOfImage(ws, a);
  }

  /* ---- what the interpreter does ---- */

  lemma AddSets(s: Rsp)
    requires s.r[0] == 0
    ensures Exec(ADD_1, s) == Ok(SetReg(s, 1, 1))
  {
    DecodedOperands();
  }

  /** `addiu $1, $0, 1` then BREAK. */
  lemma AddBreak(ex: Plain, s: Rsp, a: Addr)
    requires ex(ADD_1, s) == Ok(SetReg(s, 1, 1))
    requires WordAt(ImageOf(s), a) == ADD_1 && WordAt(ImageOf(s), Next(a)) == BREAK
    ensures Steps(ex, 2, At(a, s)).Halted? && Steps(ex, 2, At(a, s)).s.r[1] == 1
  {
    var c0, s1 := At(a, s), SetReg(s, 1, 1);
    var c1 := At(Next(a), s1);
    AddStep(ex, s, a);
    BreakStep(ex, s1, Next(a));
    OneStep(ex, c0, 1);
    OneStep(ex, c1, 0);
  }

  lemma AddStep(ex: Plain, s: Rsp, a: Addr)
    requires ex(ADD_1, s) == Ok(SetReg(s, 1, 1)) && WordAt(ImageOf(s), a) == ADD_1
    ensures Step(ex, At(a, s)) == At(Next(a), SetReg(s, 1, 1))
    ensures ImageOf(SetReg(s, 1, 1)) == ImageOf(s) && SetReg(s, 1, 1).r[1] == 1
  {
    Decoded();
  }

  lemma BreakStep(ex: Plain, s: Rsp, a: Addr)
    requires WordAt(ImageOf(s), a) == BREAK
    ensures var c := Step(ex, At(a, s));
            c.Halted? && c.s.r == s.r[0 := 0]
  {
    Decoded();
    assert s.r[0 := 0][0 := 0] == s.r[0 := 0];
  }

  /* ---- what a translation does ---- */

  /** A block at an instruction that is not plain is that instruction. */
  lemma NotPlainBlock(g: Graph, im: Image, a: Addr)
    requires Translates(g, im) && a in g.entry && !Classify(WordAt(im, a)).PlainInsn?
    ensures g.entry[a] in g.blocks
    ensures var b := g.blocks[g.entry[a]];
            b.start == a && b.body == [] && FaithfulTerm(im, b.term, a) && !b.term.Fall?
  {
    assert EntryOk(g, a);
    assert BlockOk(g, im, g.entry[a]);
    EmptyBody(im, g.blocks[g.entry[a]]);
  }

  lemma EmptyBody(im: Image, b: Block)
    requires FaithfulBlock(im, b) && !Classify(WordAt(im, b.start)).PlainInsn?
    ensures b.body == [] && FaithfulTerm(im, b.term, b.start) && !b.term.Fall?
  {
    AddrAtNext(b.start, 0);
  }

  /** A call at a BREAK: nothing but `halted` changes. */
  lemma BreakHalts(tx: PlainText, s: Rsp, g: Graph, a: Addr, fuel: nat)
    requires Translates(g, ImageOf(s)) && a in g.entry && WordAt(ImageOf(s), a) == BREAK && fuel > 0
    ensures var y := CallText(tx, g, s, Bytes(a), fuel);
            y.Done? && Sync(y.f).r == s.r
  {
    BreakBlock(tx, g, ImageOf(s), s, a, fuel);
  }

  lemma BreakBlock(tx: PlainText, g: Graph, im: Image, s: Rsp, a: Addr, fuel: nat)
    requires Translates(g, im) && a in g.entry && WordAt(im, a) == BREAK && fuel > 0
    ensures var y := CallText(tx, g, s, Bytes(a), fuel);
            y.Done? && Sync(y.f).r == s.r
    ensures g.entry[a] in g.blocks && g.blocks[g.entry[a]].term.HaltExit? && g.blocks[g.entry[a]].body == []
  {
    HaltBlock(g, im, a);
    HaltRuns(tx, g.blocks[g.entry[a]], s);
    assert MaskPc(Bytes(a)) == a;
  }

  lemma HaltBlock(g: Graph, im: Image, a: Addr)
    requires Translates(g, im) && a in g.entry && WordAt(im, a) == BREAK
    ensures g.entry[a] in g.blocks && g.blocks[g.entry[a]].term.HaltExit? && g.blocks[g.entry[a]].body == []
  {
    Decoded();
    NotPlainBlock(g, im, a);
    assert Translatable(im, a);
  }

  lemma HaltRuns(tx: PlainText, b: Block, s: Rsp)
    requires b.term.HaltExit? && b.body == []
    ensures var y := RunBlock(tx, b, Enter(s));
            y.Done? && Sync(y.f).r == s.r
  {
    assert s.r[0 := s.r[0]] == s.r;
  }
}
