/** What compile() emits: one block of text per (address, call string), and the machine
    that executes it.  `tx` is the effect of the text of one plain instruction. */
module BlockGraph {
  import opened Bits
  import opened RspState
  import opened RspControl
  import opened RspDecode

  /** The locals of the emitted function (its allocas) beside the rsp_t it was handed,
      whose own copies of the same registers may be out of date. */
  datatype Frame = Frame(r: Regs, vu: Vu, c: Rsp) {
    function GetGpr(i: Reg): Word { if i == 0 then 0 else r[i] }
    function SetGpr(i: Reg, x: Word): Frame { if i == 0 then this else this.(r := r[i := x]) }
  }

  /** What the exit block leaves in the rsp_t: it stores every local but GPR 0. */
  function Sync(f: Frame): Rsp { f.c.(r := f.r[0 := f.c.r[0]], vu := f.vu) }

  /** The entry block: every local is loaded from the rsp_t. */
  function Enter(s: Rsp): Frame { Frame(s.r, s.vu, s) }

  datatype Emitted = Fine(f: Frame) | Leave(pc: Addr, f: Frame) | Dies

  type PlainText = (Word, Addr, Frame) -> Emitted

  /** A block name: an address and the number of a call string. */
  datatype Key = Key(addr: Addr, ctx: nat)

  datatype Link = NoLink | LinkTo(reg: Reg, value: Addr)

  datatype Term =
    | ExitAt(pc: Addr)
    | HaltExit
    | Fall(to: Key)
    | CondBr(w: Word, slot: Word, taken: Key, notTaken: Key)
    | Br(link: Link, slot: Word, to: Key)
    | Switch(rs: Reg, link: Link, slot: Word, cases: map<Addr, Key>)

  datatype Block = Block(start: Addr, body: seq<Word>, term: Term)

  datatype Graph = Graph(blocks: map<Key, Block>, entry: map<Addr, Key>)

  /** condition() of the branch classes: the compares the text makes. */
  predicate Condition(w: Word, a: Word, b: Word) {
    if Op(w) == 4 then a == b
    else if Op(w) == 5 then a != b
    else if Op(w) == 6 then Signed32(a) <= 0
    else if Op(w) == 7 then Signed32(a) > 0
    else if Rt(w) == 0 then Signed32(a) < 0
    else Signed32(a) >= 0
  }

  /** They decide as the interpreter does. */
  lemma ConditionAgrees(w: Word, a: Word, b: Word)
    requires Classify(w).Branch?
    ensures (Op(w) == 1 || 4 <= Op(w) <= 7) && (Condition(w, a, b) <==> Taken(w, a, b))
  {
  }

  /* ---- running the text ---- */

  datatype Exit = Go(to: Key, f: Frame) | Out(pc: Addr, f: Frame) | Done(f: Frame) | Dead

  function SetLink(f: Frame, k: Link): Frame {
    match k
    case NoLink => f
    case LinkTo(reg, value) => f.SetGpr(reg, Bytes(value))
  }

  function AddrAt(a: Addr, n: nat): Addr { (a + n) % 0x400 }

  function RunBody(tx: PlainText, body: seq<Word>, a: Addr, f: Frame): Emitted {
    if body == [] then Fine(f) else
    match tx(body[0], a, f)
    case Fine(f') => RunBody(tx, body[1..], Next(a), f')
    case other => other
  }

  /** The text of the delay slot of the transfer at `a`, then the jump it delays. */
  function RunSlot(tx: PlainText, slot: Word, a: Addr, f: Frame, to: Key): Exit {
    match tx(slot, Next(a), f)
    case Fine(f') => Go(to, f')
    case Leave(pc, f') => Out(pc, f')
    case Dies => Dead
  }

  function RunTerm(tx: PlainText, t: Term, a: Addr, f: Frame): Exit {
    match t
    case ExitAt(pc) => Out(pc, f)
    case HaltExit => Done(f.(c := f.c.(halted := true)))
    case Fall(to) => Go(to, f)
    case CondBr(w, slot, taken, notTaken) =>
      // the condition is read before the slot runs
      var yes := Condition(w, f.GetGpr(Rs(w)), f.GetGpr(Rt(w)));
      RunSlot(tx, slot, a, f, if yes then taken else notTaken)
    case Br(link, slot, to) => RunSlot(tx, slot, a, SetLink(f, link), to)
    case Switch(rs, link, slot, cases) =>
      var to := MaskPc(f.GetGpr(rs));
      match tx(slot, Next(a), SetLink(f, link))
      case Fine(f') => if to in cases then Go(cases[to], f') else Out(to, f')
      case Leave(pc, f') => Out(pc, f')
      case Dies => Dead
  }

  function RunBlock(tx: PlainText, b: Block, f: Frame): Exit {
    match RunBody(tx, b.body, b.start, f)
    case Fine(f') => RunTerm(tx, b.term, AddrAt(b.start, |b.body|), f')
    case Leave(pc, f') => Out(pc, f')
    case Dies => Dead
  }

  /** At most `fuel` blocks from `k` on; still Go(_) when the fuel ran out. */
  function RunFrom(tx: PlainText, g: Graph, k: Key, f: Frame, fuel: nat): Exit
    decreases fuel
  {
    if fuel == 0 || k !in g.blocks then Go(k, f) else
    match RunBlock(tx, g.blocks[k], f)
    case Go(k', f') => RunFrom(tx, g, k', f', fuel - 1)
    case other => other
  }

  /* ---- what makes a graph a translation of an image ---- */

  function Targets(t: Term): set<Key> {
    match t
    case ExitAt(_) => {}
    case HaltExit => {}
    case Fall(to) => {to}
    case CondBr(_, _, taken, notTaken) => {taken, notTaken}
    case Br(_, _, to) => {to}
    case Switch(_, _, _, cases) => cases.Values
  }

  /** Term `t` is what the instruction at `a` becomes.  Call strings do not occur. */
  predicate FaithfulTerm(im: Image, t: Term, a: Addr) {
    var w, slot := WordAt(im, a), WordAt(im, Next(a));
    match t
    case ExitAt(pc) => pc == a && !Translatable(im, a)
    case HaltExit => Classify(w).Break?
    case Fall(to) => to.addr == a
    case CondBr(w', slot', taken, notTaken) =>
      Classify(w).Branch? && Classify(slot).PlainInsn? && w' == w && slot' == slot &&
      taken.addr == BranchTarget(w, a) && notTaken.addr == LinkOf(a)
    case Br(link, slot', to) =>
      Classify(slot).PlainInsn? && slot' == slot && to.addr == JumpTarget(w) &&
      ((Classify(w).Jump? && link == NoLink) || (Classify(w).Call? && link == LinkTo(31, LinkOf(a))))
    case Switch(rs, link, slot', cases) =>
      Classify(slot).PlainInsn? && slot' == slot && rs == Rs(w) &&
      ((Classify(w).JumpReg? && link == NoLink) || (Classify(w).CallReg? && link == LinkTo(Rd(w), LinkOf(a)))) &&
      forall t :: t in cases ==> cases[t].addr == t
  }

  /** The words of `body` are the plain instructions of the image from `a` on. */
  predicate PlainRun(im: Image, body: seq<Word>, a: Addr) {
    body == [] || (body[0] == WordAt(im, a) && Classify(body[0]).PlainInsn? && PlainRun(im, body[1..], Next(a)))
  }

  predicate FaithfulBlock(im: Image, b: Block) {
    && PlainRun(im, b.body, b.start)
    && FaithfulTerm(im, b.term, AddrAt(b.start, |b.body|))
    && (b.term.Fall? ==> b.body != [])
  }

  /** The block named `k` is text of the image at `k.addr`, and names only blocks that exist. */
  predicate BlockOk(g: Graph, im: Image, k: Key)
    requires k in g.blocks
  {
    g.blocks[k].start == k.addr && FaithfulBlock(im, g.blocks[k]) && Targets(g.blocks[k].term) <= g.blocks.Keys
  }

  predicate EntryOk(g: Graph, a: Addr)
    requires a in g.entry
  {
    g.entry[a] in g.blocks && g.entry[a].addr == a
  }

  /** `g` translates `im`: every block says what the image says at its address, every block
      it names exists, and the entry dispatch sends each address to a block at it. */
  predicate Translates(g: Graph, im: Image) {
    && (forall k {:trigger BlockOk(g, im, k)} :: k in g.blocks ==> BlockOk(g, im, k))
    && (forall a {:trigger EntryOk(g, a)} :: a in g.entry ==> EntryOk(g, a))
  }
}
