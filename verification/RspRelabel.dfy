/** When a graph made from one image is right for another. */
module RspRelabel {
  import opened Bits
  import opened RspState
  import opened RspControl
  import opened RspDecode
  import opened BlockGraph
  import opened Simulation

  /** All that the text of an address depends on. */
  datatype Insn =
    | NotCode
    | Halts
    | Straight(w: Word)
    | Branches(w: Word, slot: Word)
    | Jumps(to: Addr, slot: Word)
    | Calls(to: Addr, slot: Word)
    | Dispatches(rs: Reg, slot: Word)
    | LinksAndDispatches(rs: Reg, rd: Reg, slot: Word)

  function InsnAt(im: Image, a: Addr): Insn {
    var w, slot := WordAt(im, a), WordAt(im, Next(a));
    if !Translatable(im, a) then NotCode else
    match Classify(w)
    case Break => Halts
    case Branch => Branches(w, slot)
    case Jump => Jumps(JumpTarget(w), slot)
    case Call => Calls(JumpTarget(w), slot)
    case JumpReg => Dispatches(Rs(w), slot)
    case CallReg => LinksAndDispatches(Rs(w), Rd(w), slot)
    case _ => Straight(w)
  }

  /** A terminator is text of what the images have at its address, and of nothing else. */
  lemma SameTerm(a: Image, b: Image, t: Term, at: Addr)
    requires FaithfulTerm(a, t, at) && !t.Fall?
    ensures FaithfulTerm(b, t, at) <==> InsnAt(a, at) == InsnAt(b, at)
  {
  }

  lemma {:induction false} SameBody(im: Image, body: seq<Word>, start: Addr)
    ensures PlainRun(im, body, start) <==>
            forall j: nat :: j < |body| ==> InsnAt(im, AddrAt(start, j)) == Straight(body[j])
  {
    if body != [] {
      AddrAtNext(start, 0);
      SameBody(im, body[1..], Next(start));
      forall j: nat | j < |body| - 1 ensures AddrAt(Next(start), j) == AddrAt(start, j + 1) {
        AddrAtNext(start, j);
      }
      assert InsnAt(im, start) == Straight(body[0]) <==> body[0] == WordAt(im, start) && Classify(body[0]).PlainInsn?;
      ShiftIndex(im, body, start);
    }
  }

  lemma ShiftIndex(im: Image, body: seq<Word>, start: Addr)
    requires body != [] && forall j: nat :: j < |body| - 1 ==> AddrAt(Next(start), j) == AddrAt(start, j + 1)
    ensures (forall j: nat :: j < |body| ==> InsnAt(im, AddrAt(start, j)) == Straight(body[j])) <==>
            InsnAt(im, AddrAt(start, 0)) == Straight(body[0]) &&
            forall j: nat :: j < |body[1..]| ==> InsnAt(im, AddrAt(Next(start), j)) == Straight(body[1..][j])
  {
    if forall j: nat :: j < |body[1..]| ==> InsnAt(im, AddrAt(Next(start), j)) == Straight(body[1..][j]) {
      forall j: nat | 0 < j < |body| ensures InsnAt(im, AddrAt(start, j)) == Straight(body[j]) {
        assert body[1..][j - 1] == body[j];
      }
    }
    if forall j: nat :: j < |body| ==> InsnAt(im, AddrAt(start, j)) == Straight(body[j]) {
      forall j: nat | j < |body[1..]| ensures InsnAt(im, AddrAt(Next(start), j)) == Straight(body[1..][j]) {
        assert body[1..][j] == body[j + 1];
      }
    }
  }

  /** The addresses a block has text for: its body and what ends it. */
  function TextLength(b: Block): nat { if b.term.Fall? then |b.body| else |b.body| + 1 }

  predicate AlikeAt(a: Image, b: Image, blk: Block) {
    forall j: nat :: j < TextLength(blk) ==> InsnAt(a, AddrAt(blk.start, j)) == InsnAt(b, AddrAt(blk.start, j))
  }

  /** The two images decode alike at every address the graph has text for. */
  ghost predicate Alike(a: Image, b: Image, g: Graph) {
    forall k {:trigger g.blocks[k]} :: k in g.blocks ==> AlikeAt(a, b, g.blocks[k])
  }

  lemma BlockAlike(a: Image, b: Image, blk: Block)
    requires FaithfulBlock(a, blk)
    ensures FaithfulBlock(b, blk) <==> AlikeAt(a, b, blk)
  {
    var last := AddrAt(blk.start, |blk.body|);
    SameBody(a, blk.body, blk.start);
    SameBody(b, blk.body, blk.start);
    if blk.term.Fall? {
      assert FaithfulTerm(b, blk.term, last);
    } else {
      SameTerm(a, b, blk.term, last);
    }
    BodyAlike(a, b, blk);
  }

  lemma BodyAlike(a: Image, b: Image, blk: Block)
    requires forall j: nat :: j < |blk.body| ==> InsnAt(a, AddrAt(blk.start, j)) == Straight(blk.body[j])
    ensures AlikeAt(a, b, blk) <==>
              (forall j: nat :: j < |blk.body| ==> InsnAt(b, AddrAt(blk.start, j)) == Straight(blk.body[j])) &&
              (!blk.term.Fall? ==> InsnAt(a, AddrAt(blk.start, |blk.body|)) == InsnAt(b, AddrAt(blk.start, |blk.body|)))
  {
  }

  /** A graph made from `a` is right for `b` exactly when the two decode alike where it has text. */
  lemma RelabelledExact(g: Graph, a: Image, b: Image)
    requires Translates(g, a)
    ensures Translates(g, b) <==> Alike(a, b, g)
  {
    forall k | k in g.blocks ensures BlockOk(g, b, k) <==> AlikeAt(a, b, g.blocks[k]) {
      assert BlockOk(g, a, k);
      BlockAlike(a, b, g.blocks[k]);
    }
  }

  /* ---- every graph at once ---- */

  /** The two images decode alike everywhere: they differ in data at most. */
  predicate SameCode(a: Image, b: Image) { forall at: Addr :: InsnAt(a, at) == InsnAt(b, at) }

  function OneInsn(im: Image, at: Addr): (b: Block)
    ensures b.start == at && TextLength(b) == 1
  {
    match InsnAt(im, at)
    case NotCode => Block(at, [], ExitAt(at))
    case Halts => Block(at, [], HaltExit)
    case Straight(w) => Block(at, [w], Fall(Key(Next(at), 0)))
    case Branches(w, slot) => Block(at, [], CondBr(w, slot, Key(BranchTarget(w, at), 0), Key(LinkOf(at), 0)))
    case Jumps(to, slot) => Block(at, [], Br(NoLink, slot, Key(to, 0)))
    case Calls(to, slot) => Block(at, [], Br(LinkTo(31, LinkOf(at)), slot, Key(to, 0)))
    case Dispatches(rs, slot) => Block(at, [], Switch(rs, NoLink, slot, map[]))
    case LinksAndDispatches(rs, rd, slot) => Block(at, [], Switch(rs, LinkTo(rd, LinkOf(at)), slot, map[]))
  }

  /** A graph with text for every address. */
  function WholeGraph(im: Image): Graph {
    Graph(map at: Addr | 0 <= at < 0x400 :: Key(at, 0) := OneInsn(im, at), map[])
  }

  lemma OneInsnFaithful(im: Image, at: Addr)
    ensures FaithfulBlock(im, OneInsn(im, at)) && forall k :: k in Targets(OneInsn(im, at).term) ==> k.ctx == 0
  {
    AddrAtNext(at, 0);
    if InsnAt(im, at).Straight? {
      StraightFaithful(im, at);
    } else {
      EndFaithful(im, at);
    }
    FirstContext(im, at);
  }

  lemma StraightFaithful(im: Image, at: Addr)
    requires InsnAt(im, at).Straight?
    ensures PlainRun(im, [InsnAt(im, at).w], at)
  {
    var body := [InsnAt(im, at).w];
    assert body[1..] == [] && PlainRun(im, [], Next(at));
  }

  lemma EndFaithful(im: Image, at: Addr)
    requires !InsnAt(im, at).Straight?
    ensures FaithfulTerm(im, OneInsn(im, at).term, at)
  {
  }

  lemma FirstContext(im: Image, at: Addr)
    ensures forall k :: k in Targets(OneInsn(im, at).term) ==> k.ctx == 0
  {
  }

  lemma WholeGraphTranslates(im: Image)
    ensures Translates(WholeGraph(im), im)
  {
    var g := WholeGraph(im);
    forall k | k in g.blocks ensures BlockOk(g, im, k) {
      OneInsnFaithful(im, k.addr);
      forall x | x in Targets(g.blocks[k].term) ensures x in g.blocks {
        assert x == Key(x.addr, 0);
      }
    }
  }

  /** Images are interchangeable under every graph exactly when they decode alike everywhere. */
  lemma SameCodeExact(a: Image, b: Image)
    ensures SameCode(a, b) <==> forall g: Graph :: Translates(g, a) ==> Translates(g, b)
  {
    if SameCode(a, b) {
      forall g: Graph | Translates(g, a) ensures Translates(g, b) {
        RelabelledExact(g, a, b);
      }
    } else {
      var g, at: Addr := WholeGraph(a), DifferAt(a, b);
      WholeGraphTranslates(a);
      RelabelledExact(g, a, b);
      AddrAtNext(at, 0);
      assert g.blocks[Key(at, 0)] == OneInsn(a, at);
      assert !AlikeAt(a, b, OneInsn(a, at));
    }
  }

  ghost function DifferAt(a: Image, b: Image): (at: Addr)
    requires !SameCode(a, b)
    ensures InsnAt(a, at) != InsnAt(b, at)
  {
    var at: Addr :| InsnAt(a, at) != InsnAt(b, at);
    at
  }
}
