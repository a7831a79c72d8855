/** What the graph of a discovered function is worth: its blocks tile the code, its edges lead
    to its blocks, and no run leaves it but by returning, trapping or an unresolved jump. */
module R4300CfgLaws {
  import opened Collections
  import opened Bits
  import opened RspState
  import opened R4300Insn
  import opened R4300Likely
  import opened R4300Function
  import opened R4300Table
  import opened R4300Cfg

  /** All the code walked is mapped, and targets are instruction addresses. */
  ghost predicate Tidy(p: Prog, w: Walk)
    requires ProgOk(p)
  {
    forall l :: l in w.leaders ==> l % 4 == 0 && Stop(p, l) in p.ctl
  }

  /** No leader is the delay slot of a control instruction. */
  predicate NoSlotLeader(w: Walk) { forall q :: q in w.terms ==> Plus(q, 4) !in w.leaders }

  /** `a` is on the straight line that starts at `l`. */
  predicate OnLine(p: Prog, l: Word, a: Word)
    requires ProgOk(p)
  {
    l <= a <= Stop(p, l) && (a - l) % 4 == 0
  }

  lemma {:induction false} LineIsPlain(p: Prog, l: Word, a: Word)
    requires ProgOk(p) && OnLine(p, l, a)
    ensures Stop(p, a) == Stop(p, l) && (a < Stop(p, l) ==> Plain(p, a))
    decreases a - l
  {
    if l < a {
      assert l + 4 <= a && (a - (l + 4)) % 4 == 0;
      LineIsPlain(p, l + 4, a);
    }
  }

  /* ---- whole words ---- */

  lemma WordsApart(a: int, b: int, c: int)
    requires (b - a) % 4 == 0 && (c - b) % 4 == 0
    ensures (c - a) % 4 == 0 && (c - b > 0 ==> c - b >= 4)
  {
  }

  lemma WordsBetween(a: int, b: int, c: int)
    requires (b - a) % 4 == 0 && (c - a) % 4 == 0
    ensures (c - b) % 4 == 0 && (c > b ==> c >= b + 4) && (c > b + 4 ==> c >= b + 8)
  {
  }

  lemma AlignedApart(a: int, b: int)
    requires a % 4 == 0 && b % 4 == 0
    ensures (b - a) % 4 == 0
  {
  }

  /** Addresses round a control instruction do not wrap. */
  lemma NearTerm(p: Prog, entry: Word, w: Walk, q: Word)
    requires ProgOk(p) && WalkOk(p, entry, w) && q in w.terms
    ensures q in p.ctl && !Plain(p, q) && Plus(q, 4) == q + 4 && After(q) == q + 8 && After(q) in w.edges
    ensures IsTerm(p, q) && w.edges[After(q)] == SuccsOf(p, q) && Elements(SuccsOf(p, q)) <= w.leaders
  {
    assert TermRecorded(p, w, q);
  }

  /* ---- where blocks end ---- */

  /** A block ends past the instruction that ends its line, or at a bound on the way there. */
  lemma {:induction false} CutEnds(p: Prog, bounds: set<Word>, pc: Word)
    requires ProgOk(p) && Stop(p, pc) in p.ctl
    ensures var c, q := CutAt(p, bounds, pc), Stop(p, pc);
            (c.last.Some? ==> c.last.value == q && c.end == q + (if KindAt(p, q).Trap? then 4 else 8)) &&
            (c.last.None? ==> c.end in bounds && pc < c.end && OnLine(p, pc, c.end))
    decreases if pc < TOP then TOP - pc else 0
  {
    if Plain(p, pc) && pc + 4 !in bounds {
      CutEnds(p, bounds, pc + 4);
    }
  }

  lemma {:induction false} CutStops(p: Prog, bounds: set<Word>, pc: Word, b: Word)
    requires ProgOk(p) && Stop(p, pc) in p.ctl && b in bounds && pc < b && OnLine(p, pc, b)
    ensures CutAt(p, bounds, pc).end <= b
    decreases b - pc
  {
    assert pc + 4 <= b && (b - (pc + 4)) % 4 == 0;
    if pc + 4 !in bounds {
      CutStops(p, bounds, pc + 4, b);
    }
  }

  /** Only a leader in a delay slot starts a line that runs into the end of another block. */
  lemma SlotBehind(p: Prog, entry: Word, w: Walk, l: Word, e: Word, q: Word)
    requires ProgOk(p) && WalkDone(p, entry, w) && OnLine(p, l, e) && l < e && q in w.terms && e == After(q)
    ensures l == Plus(q, 4) && q < l
  {
    NearTerm(p, entry, w, q);
    if l <= q {
      WordsBetween(e, l, q);
      LineIsPlain(p, l, q);
    } else {
      WordsBetween(e, q, l);
    }
  }

  /** The bound a block runs into is a leader. */
  lemma BoundIsLeader(p: Prog, entry: Word, w: Walk, l: Word, e: Word)
    requires ProgOk(p) && WalkDone(p, entry, w) && Tidy(p, w) && NoSlotLeader(w)
    requires l in w.leaders && l < e && OnLine(p, l, e) && e in w.leaders + w.ends
    ensures e in w.leaders
  {
    if e in w.ends {
      assert EndFound(p, w, e);
      LineIsPlain(p, l, e);
      if q :| q in w.terms && e == After(q) {
        SlotBehind(p, entry, w, l, e, q);
      }
    }
  }

  /* ---- tiling ---- */

  lemma BlockBefore(p: Prog, entry: Word, w: Walk, a: Word, b: Word)
    requires ProgOk(p) && WalkDone(p, entry, w) && Tidy(p, w) && NoSlotLeader(w)
    requires a in w.leaders && b in w.leaders && a < b
    ensures BlockOf(p, w, a).end <= b
  {
    var bounds, q := w.leaders + w.ends, Stop(p, a);
    CutEnds(p, bounds, a);
    AlignedApart(a, b);
    WordsBetween(a, q, b);
    if b <= q {
      CutStops(p, bounds, a, b);
    } else if CutAt(p, bounds, a).last.Some? && !KindAt(p, q).Trap? {
      WalkedTerm(p, entry, w, a);
    }
  }

  /** A line that ends at a control instruction has recorded it. */
  lemma WalkedTerm(p: Prog, entry: Word, w: Walk, l: Word)
    requires ProgOk(p) && WalkDone(p, entry, w) && l in w.leaders
    requires Stop(p, l) in p.ctl && !KindAt(p, Stop(p, l)).Trap?
    ensures var q := Stop(p, l);
            q in w.terms && IsTerm(p, q) && Plus(q, 4) == q + 4 && After(q) == q + 8 && After(q) in w.edges &&
            w.edges[After(q)] == SuccsOf(p, q) && Elements(SuccsOf(p, q)) <= w.leaders
  {
    assert LineWalked(p, w, l);
    NearTerm(p, entry, w, Stop(p, l));
  }

  /** Two blocks share an instruction when one of them has the delay slot the other starts at. */
  lemma SlotShared(p: Prog, w: Walk, l: Word, q: Word)
    requires ProgOk(p) && Tidy(p, w) && l in w.leaders && Stop(p, l) == q && IsTerm(p, q)
    requires CutAt(p, w.leaders + w.ends, l).last == Some(q) && Plus(q, 4) in w.leaders
    ensures !Disjoint(BlocksOf(p, w, w.leaders))
  {
    var slot := Plus(q, 4);
    SlotInBlock(p, w, l, q);
    NotEmpty(p, w, slot);
    InsnShared(BlocksOf(p, w, w.leaders), l, slot, slot);
  }

  lemma SlotInBlock(p: Prog, w: Walk, l: Word, q: Word)
    requires ProgOk(p) && Stop(p, l) == q && IsTerm(p, q)
    requires CutAt(p, w.leaders + w.ends, l).last == Some(q)
    ensures l < Plus(q, 4) && Plus(q, 4) in Insns(BlockOf(p, w, l).start, BlockOf(p, w, l).end)
  {
    CutEnds(p, w.leaders + w.ends, l);
    PlusFour(p, q);
    WordsApart(l, q, q + 4);
  }

  lemma PlusFour(p: Prog, q: Word)
    requires ProgOk(p) && q in p.ctl
    ensures Plus(q, 4) == q + 4
  {
  }

  lemma InsnShared(blocks: map<Word, Block>, a: Word, b: Word, at: Word)
    requires a in blocks && b in blocks && a != b
    requires at in Insns(blocks[a].start, blocks[a].end) && at in Insns(blocks[b].start, blocks[b].end)
    ensures !Disjoint(blocks)
  {
    assert !Apart(blocks, a, b);
  }

  lemma NotEmpty(p: Prog, w: Walk, l: Word)
    requires ProgOk(p) && Stop(p, l) in p.ctl
    ensures l in Insns(BlockOf(p, w, l).start, BlockOf(p, w, l).end)
  {
    CutEnds(p, w.leaders + w.ends, l);
  }

  lemma {:induction false} SlotLeaderOverlaps(p: Prog, entry: Word, w: Walk, q: Word, l: Word)
    requires ProgOk(p) && WalkDone(p, entry, w) && Tidy(p, w)
    requires q in w.terms && Plus(q, 4) in w.leaders && l in w.leaders && Stop(p, l) == q
    ensures !Disjoint(BlocksOf(p, w, w.leaders))
    decreases q, q - l
  {
    var bounds := w.leaders + w.ends;
    var cut := CutAt(p, bounds, l);
    CutEnds(p, bounds, l);
    assert TermRecorded(p, w, q);
    if cut.last.Some? {
      SlotShared(p, w, l, q);
    } else {
      LineIsPlain(p, l, cut.end);
      if cut.end in w.leaders {
        SlotLeaderOverlaps(p, entry, w, q, cut.end);
      } else {
        assert EndFound(p, w, cut.end);
        var q' :| q' in w.terms && cut.end == After(q');
        SlotBehind(p, entry, w, l, cut.end, q');
        assert TermFound(p, w, q');
        var l' :| l' in w.leaders && Stop(p, l') == q';
        SlotLeaderOverlaps(p, entry, w, q', l');
      }
    }
  }

  /** The blocks are pairwise disjoint exactly when no leader is in a delay slot. */
  lemma BlocksTile(p: Prog, entry: Word, w: Walk)
    requires ProgOk(p) && WalkDone(p, entry, w) && Tidy(p, w)
    ensures Disjoint(BlocksOf(p, w, w.leaders)) <==> NoSlotLeader(w)
  {
    var blocks := BlocksOf(p, w, w.leaders);
    if NoSlotLeader(w) {
      forall a, b | a in blocks && b in blocks && a != b ensures Apart(blocks, a, b) {
        if a < b {
          BlockBefore(p, entry, w, a, b);
        } else {
          BlockBefore(p, entry, w, b, a);
        }
      }
    } else {
      var q :| q in w.terms && Plus(q, 4) in w.leaders;
      assert TermFound(p, w, q);
      var l :| l in w.leaders && Stop(p, l) == q;
      SlotLeaderOverlaps(p, entry, w, q, l);
    }
  }

  /** ... and then `n_insns` is the number of instructions they cover. */
  lemma InsnsCounted(p: Prog, entry: Word, w: Walk, fn: Func)
    requires ProgOk(p) && Built(p, entry, w, fn) && Tidy(p, w) && NoSlotLeader(w)
    ensures fn.nInsns == |Covered(fn.blocks)|
  {
    BlocksTile(p, entry, w);
  }

  /* ---- edges ---- */

  /** The edges of a block are those of the instruction that ends it, or the next block; and
      every one of them leads to a block. */
  lemma EdgesExact(p: Prog, entry: Word, w: Walk, l: Word)
    requires ProgOk(p) && WalkDone(p, entry, w) && Tidy(p, w) && NoSlotLeader(w) && l in w.leaders
    ensures var b, q := BlockOf(p, w, l), Stop(p, l);
            (if b.end <= q then b.succs == [b.end]
             else if KindAt(p, q).Trap? then b.end == q + 4 && b.succs == []
             else b.end == q + 8 && b.succs == SuccsOf(p, q)) &&
            Elements(b.succs) <= w.leaders
  {
    var b, q, bounds := BlockOf(p, w, l), Stop(p, l), w.leaders + w.ends;
    CutEnds(p, bounds, l);
    if CutAt(p, bounds, l).last.None? {
      BoundIsLeader(p, entry, w, l, b.end);
    } else if KindAt(p, q).Trap? {
      NoEdgeAtTrap(p, entry, w, l, q);
    } else {
      WalkedTerm(p, entry, w, l);
    }
  }

  lemma NoEdgeAtTrap(p: Prog, entry: Word, w: Walk, l: Word, q: Word)
    requires ProgOk(p) && WalkDone(p, entry, w) && NoSlotLeader(w) && l in w.leaders
    requires q == Stop(p, l) && q in p.ctl && KindAt(p, q).Trap?
    ensures q + 4 !in w.edges
  {
    if q + 4 in w.edges {
      assert EdgeFound(w, q + 4);
      var q' :| q' in w.terms && q + 4 == After(q');
      NearTerm(p, entry, w, q');
      if l < q {
        LineBefore(p, l, q);
      }
    }
  }

  lemma LineBefore(p: Prog, l: Word, q: Word)
    requires ProgOk(p) && q == Stop(p, l) && l < q
    ensures q >= 4 && Plain(p, q - 4)
  {
    WordsApart(l, l, q);
    WordsApart(l, q, q - 4);
    LineIsPlain(p, l, q - 4);
  }

  /** A block that ends in a jr is marked unresolved exactly when it was left without successors ... */
  lemma UnresolvedExact(p: Prog, entry: Word, w: Walk, l: Word, q: Word)
    requires ProgOk(p) && WalkDone(p, entry, w) && l in w.leaders && Stop(p, l) == q && q in p.ctl
    requires KindAt(p, q).Jr? && p.ctl[q].reg != 31 && CutAt(p, w.leaders + w.ends, l).last == Some(q)
    ensures var b := BlockOf(p, w, l);
            b.endsIndirect && b.succs == p.table(q) && (b.unresolved <==> p.table(q) == [])
  {
    WalkedTerm(p, entry, w, l);
    CutEnds(p, w.leaders + w.ends, l);
  }

  /** ... so one whose table was refused half way passes for resolved. */
  lemma HalfTablePasses(code: Code, hints: Hints, entry: Word, w: Walk, l: Word, q: Word)
    requires CodeOk(code) && WalkDone(Decoded(code, hints), entry, w) && q !in hints
    requires l in w.leaders && Stop(Decoded(code, hints), l) == q && q in code
    requires Decode(q, code[q]).k.Jr? && Decode(q, code[q]).reg != 31
    requires CutAt(Decoded(code, hints), w.leaders + w.ends, l).last == Some(q)
    ensures !JumpTable(code, q).0 && !BlockOf(Decoded(code, hints), w, l).unresolved <==> HalfMapped(code, q)
  {
    var p := Decoded(code, hints);
    assert p.ctl[q] == Decode(q, code[q]) && p.table(q) == TableOrHints(code, hints, q);
    UnresolvedExact(p, entry, w, l, q);
    PartialTableExact(code, hints, q);
  }

  /* ---- runs stay inside ---- */

  /** Where the machine is: `npc` is the instruction after `pc`. */
  datatype Flow = Flow(pc: Word, npc: Word)

  /** One instruction inside the function, as the decoder has it.  A call goes on at its link. */
  predicate FlowStep(p: Prog, c: Flow, d: Flow)
    requires ProgOk(p)
  {
    c.pc in p.ctl &&
    var i := p.ctl[c.pc];
    match i.k
    case Fall => d == Flow(c.npc, Plus(c.npc, 4))
    case Branch => d == Flow(c.npc, i.target) || d == Flow(c.npc, Plus(c.npc, 4))
    case Likely => d == Flow(c.npc, i.target) || d == Flow(Plus(c.npc, 4), Plus(c.npc, 8))
    case Jump => d == Flow(c.npc, i.target)
    case Call => d == Flow(c.npc, Plus(c.npc, 4))
    case Jalr => d == Flow(c.npc, Plus(c.npc, 4))
    case Jr => i.reg != 31 && d.pc == c.npc && d.npc in Elements(p.table(c.pc))
    case Trap => false
  }

  /** Slots hold plain instructions. */
  ghost predicate PlainSlots(p: Prog, w: Walk) { forall q :: q in w.terms ==> Plain(p, Plus(q, 4)) }

  /** Where a run inside the function can be: on a line from a leader, or in the slot of a
      control instruction on the way to a leader. */
  ghost predicate InFunction(p: Prog, w: Walk, c: Flow)
    requires ProgOk(p)
  {
    (c.npc == Plus(c.pc, 4) && exists l :: l in w.leaders && OnLine(p, l, c.pc)) ||
    (c.npc in w.leaders && exists q :: q in w.terms && c.pc == Plus(q, 4))
  }

  lemma LeaderIn(p: Prog, w: Walk, l: Word)
    requires ProgOk(p) && l in w.leaders
    ensures InFunction(p, w, Flow(l, Plus(l, 4)))
  {
    assert OnLine(p, l, l);
  }

  /** From the control instruction at q: its slot, or past it. */
  lemma TermStep(p: Prog, entry: Word, w: Walk, q: Word, d: Flow)
    requires ProgOk(p) && WalkDone(p, entry, w) && q in w.terms && FlowStep(p, Flow(q, Plus(q, 4)), d)
    ensures InFunction(p, w, d)
  {
    assert TermRecorded(p, w, q);
    PlusTwice(q, 4, 4);
    PlusTwice(q, 4, 8);
    PlusTwice(q, 8, 4);
    var succs := SuccsOf(p, q);
    var c := p.ctl[q];
    assert c.k.Branch? || c.k.Likely? ==> succs[0] == c.target && succs[1] == After(q);
    assert c.k.Jump? ==> succs[0] == c.target;
    assert c.k.Call? || c.k.Jalr? ==> succs[0] == After(q);
    if c.k.Likely? && d == Flow(Plus(q, 8), Plus(q, 12)) {
      LeaderIn(p, w, After(q));
    } else {
      assert d.pc == Plus(q, 4) && d.npc in Elements(succs);
    }
  }

  lemma LineGoesOn(p: Prog, l: Word, pc: Word)
    requires ProgOk(p) && OnLine(p, l, pc) && pc < Stop(p, l) && pc in p.ctl
    ensures OnLine(p, l, pc + 4) && Plus(pc, 4) == pc + 4
  {
    WordsBetween(l, pc, Stop(p, l));
    WordsApart(l, pc, pc + 4);
    PlusFour(p, pc);
  }

  lemma LineStep(p: Prog, entry: Word, w: Walk, l: Word, pc: Word, d: Flow)
    requires ProgOk(p) && WalkDone(p, entry, w) && l in w.leaders && OnLine(p, l, pc)
    requires FlowStep(p, Flow(pc, Plus(pc, 4)), d)
    ensures InFunction(p, w, d)
  {
    LineIsPlain(p, l, pc);
    if pc < Stop(p, l) {
      LineGoesOn(p, l, pc);
      assert d == Flow(pc + 4, Plus(pc + 4, 4));
    } else {
      assert !KindAt(p, pc).Trap?;
      WalkedTerm(p, entry, w, l);
      TermStep(p, entry, w, pc, d);
    }
  }

  lemma SlotStep(p: Prog, w: Walk, c: Flow, d: Flow)
    requires ProgOk(p) && Plain(p, c.pc) && c.npc in w.leaders && FlowStep(p, c, d)
    ensures InFunction(p, w, d)
  {
    LeaderIn(p, w, c.npc);
  }

  lemma StepStaysIn(p: Prog, entry: Word, w: Walk, c: Flow, d: Flow)
    requires ProgOk(p) && WalkDone(p, entry, w) && PlainSlots(p, w)
    requires InFunction(p, w, c) && FlowStep(p, c, d)
    ensures InFunction(p, w, d)
  {
    if c.npc == Plus(c.pc, 4) && exists l :: l in w.leaders && OnLine(p, l, c.pc) {
      var l :| l in w.leaders && OnLine(p, l, c.pc);
      LineStep(p, entry, w, l, c.pc, d);
    } else {
      SlotStep(p, w, c, d);
    }
  }

  /** Every address on a line from a leader is in a block that reaches the end of the line or
      the next block. */
  lemma {:induction false} LineCovered(p: Prog, entry: Word, w: Walk, l: Word, a: Word) returns (s: Word)
    requires ProgOk(p) && WalkDone(p, entry, w) && Tidy(p, w) && NoSlotLeader(w)
    requires l in w.leaders && OnLine(p, l, a)
    ensures s in w.leaders && OnLine(p, s, a) && Stop(p, s) == Stop(p, l) && a < BlockOf(p, w, s).end
    decreases a - l
  {
    var e := BlockOf(p, w, l).end;
    CutEnds(p, w.leaders + w.ends, l);
    if a < e {
      s := l;
    } else {
      BoundIsLeader(p, entry, w, l, e);
      LineIsPlain(p, l, e);
      WordsBetween(l, e, a);
      s := LineCovered(p, entry, w, e, a);
    }
  }

  lemma InFunctionCovered(p: Prog, entry: Word, w: Walk, c: Flow)
    requires ProgOk(p) && WalkDone(p, entry, w) && Tidy(p, w) && NoSlotLeader(w) && InFunction(p, w, c)
    ensures c.pc in Covered(BlocksOf(p, w, w.leaders))
  {
    if l :| l in w.leaders && OnLine(p, l, c.pc) {
      OnLineCovered(p, entry, w, l, c.pc);
    } else {
      var q :| q in w.terms && c.pc == Plus(q, 4);
      SlotCovered(p, entry, w, q);
    }
  }

  lemma OnLineCovered(p: Prog, entry: Word, w: Walk, l: Word, a: Word)
    requires ProgOk(p) && WalkDone(p, entry, w) && Tidy(p, w) && NoSlotLeader(w) && l in w.leaders && OnLine(p, l, a)
    ensures a in Covered(BlocksOf(p, w, w.leaders))
  {
    var s := LineCovered(p, entry, w, l, a);
    CoveredBy(p, w, s, a);
  }

  lemma CoveredBy(p: Prog, w: Walk, s: Word, a: Word)
    requires ProgOk(p) && s in w.leaders && s <= a < BlockOf(p, w, s).end && (a - s) % 4 == 0
    ensures a in Covered(BlocksOf(p, w, w.leaders))
  {
    var blocks := BlocksOf(p, w, w.leaders);
    assert s in blocks && a in Insns(blocks[s].start, blocks[s].end);
  }

  lemma SlotCovered(p: Prog, entry: Word, w: Walk, q: Word)
    requires ProgOk(p) && WalkDone(p, entry, w) && Tidy(p, w) && NoSlotLeader(w) && q in w.terms
    ensures Plus(q, 4) in Covered(BlocksOf(p, w, w.leaders))
  {
    NearTerm(p, entry, w, q);
    assert TermFound(p, w, q);
    var l :| l in w.leaders && Stop(p, l) == q;
    var s := LineCovered(p, entry, w, l, q);
    SlotBelongs(p, w, s, q);
  }

  lemma SlotBelongs(p: Prog, w: Walk, s: Word, q: Word)
    requires ProgOk(p) && s in w.leaders && Stop(p, s) == q && IsTerm(p, q) && Plus(q, 4) == q + 4
    requires q < BlockOf(p, w, s).end
    ensures Plus(q, 4) in Covered(BlocksOf(p, w, w.leaders))
  {
    CutEnds(p, w.leaders + w.ends, s);
    WordsApart(s, q, q + 4);
    CoveredBy(p, w, s, q + 4);
  }

  /** The jr at `pc` is a return, or goes where it was not resolved to. */
  predicate JumpsOut(code: Code, hints: Hints, pc: Word, to: Word)
    requires CodeOk(code) && pc in code
  {
    Op(code[pc]) == 0 && Fn(code[pc]) == 0x08 && (Rs(code[pc]) == 31 || to !in TableOrHints(code, hints, pc))
  }

  /** One hop of the machine inside a function: an instruction, or a whole call -- its slot, the
      callee, however long that takes, and the way back to the link. */
  ghost predicate Hop(ef: EmitFn, code: Code, hints: Hints, c: Cfg, d: Cfg)
    requires CodeOk(code)
  {
    c.At? && d.At? && c.pc in code &&
    if IsLink(code[c.pc]) then d.pc == Plus(c.npc, 4) && d.npc == Plus(d.pc, 4) &&
      exists k: nat :: d == Steps(ef, code, k, c)
    else d == Step(ef, code, c) && !JumpsOut(code, hints, c.pc, d.npc)
  }

  function FlowOf(c: Cfg): Flow
    requires c.At?
  {
    Flow(c.pc, c.npc)
  }

  /** An instruction the machine gets past, and which is no call, does to the pc what the decoder
      says: no trap gets past, and the targets are the decoded ones. */
  lemma StepFlows(fp: Fp, code: Code, hints: Hints, c: Cfg, d: Cfg)
    requires CodeOk(code) && Hop(Emission(fp), code, hints, c, d) && !IsLink(code[c.pc])
    ensures FlowStep(Decoded(code, hints), FlowOf(c), FlowOf(d))
  {
    var p, w := Decoded(code, hints), code[c.pc];
    assert p.ctl[c.pc] == Decode(c.pc, w) && p.table(c.pc) == TableOrHints(code, hints, c.pc);
    if !IsForeign(w) {
      DecodersAgree(c.pc, w);
    }
    PlusTwice(c.npc, 4, 4);
    if Op(w) == 0 && (Fn(w) == 0x0c || Fn(w) == 0x0d) {
      TrapsStop(fp, w, c.m);
    }
  }

  lemma TrapsStop(fp: Fp, w: Word, m: Machine)
    requires Op(w) == 0 && (Fn(w) == 0x0c || Fn(w) == 0x0d)
    ensures !IsControl(w) && Execute(Emission(fp), w, m).None?
  {
  }

  /** A call: its slot, and its link, which is a leader. */
  lemma CallFlows(code: Code, hints: Hints, entry: Word, w: Walk, c: Flow)
    requires CodeOk(code) && WalkDone(Decoded(code, hints), entry, w) && PlainSlots(Decoded(code, hints), w)
    requires InFunction(Decoded(code, hints), w, c) && c.pc in code && IsLink(code[c.pc])
    ensures InFunction(Decoded(code, hints), w, Flow(c.npc, Plus(c.npc, 4)))
    ensures InFunction(Decoded(code, hints), w, Flow(Plus(c.npc, 4), Plus(Plus(c.npc, 4), 4)))
  {
    var p, slot := Decoded(code, hints), Flow(c.npc, Plus(c.npc, 4));
    assert p.ctl[c.pc] == Decode(c.pc, code[c.pc]);
    LinkIsControl(code[c.pc]);
    DecodersAgree(c.pc, code[c.pc]);
    assert FlowStep(p, c, slot);
    StepStaysIn(p, entry, w, c, slot);
    SlotAfterCall(p, entry, w, c, slot);
  }

  lemma SlotAfterCall(p: Prog, entry: Word, w: Walk, c: Flow, slot: Flow)
    requires ProgOk(p) && WalkDone(p, entry, w) && PlainSlots(p, w) && InFunction(p, w, c)
    requires IsTerm(p, c.pc) && (KindAt(p, c.pc).Call? || KindAt(p, c.pc).Jalr?) && slot == Flow(c.npc, Plus(c.npc, 4))
    ensures InFunction(p, w, Flow(slot.npc, Plus(slot.npc, 4)))
  {
    if l :| c.npc == Plus(c.pc, 4) && l in w.leaders && OnLine(p, l, c.pc) {
      LineIsPlain(p, l, c.pc);
      WalkedTerm(p, entry, w, l);
      PlusTwice(c.pc, 4, 4);
      LinkIsLeader(p, w, c.pc);
    }
  }

  lemma LinkIsLeader(p: Prog, w: Walk, q: Word)
    requires ProgOk(p) && IsTerm(p, q) && (KindAt(p, q).Call? || KindAt(p, q).Jalr?)
    requires Elements(SuccsOf(p, q)) <= w.leaders
    ensures InFunction(p, w, Flow(After(q), Plus(After(q), 4)))
  {
    assert SuccsOf(p, q) == [After(q)];
    assert After(q) in Elements(SuccsOf(p, q));
    LeaderIn(p, w, After(q));
  }

  /** A run of the machine from the entry, hop by hop. */
  ghost predicate IsRun(ef: EmitFn, code: Code, hints: Hints, entry: Word, run: seq<Cfg>)
    requires CodeOk(code)
  {
    run != [] && run[0].At? && FlowOf(run[0]) == Flow(entry, Plus(entry, 4)) &&
    forall i {:trigger run[i]} :: 0 < i < |run| ==> Hop(ef, code, hints, run[i - 1], run[i])
  }

  /** Every run of the machine from the entry stays in the blocks, slots of calls included, until it
      returns, traps, or takes an indirect jump that was not resolved. */
  lemma RunsStayInside(fp: Fp, code: Code, hints: Hints, entry: Word, w: Walk, run: seq<Cfg>, i: nat)
    requires CodeOk(code) && i < |run| && IsRun(Emission(fp), code, hints, entry, run)
    requires var p := Decoded(code, hints);
             WalkDone(p, entry, w) && Tidy(p, w) && NoSlotLeader(w) && PlainSlots(p, w)
    ensures run[i].At? && run[i].pc in Covered(BlocksOf(Decoded(code, hints), w, w.leaders))
    ensures run[i].pc in code && IsLink(code[run[i].pc]) ==>
              run[i].npc in Covered(BlocksOf(Decoded(code, hints), w, w.leaders))
  {
    var p, d := Decoded(code, hints), run[i];
    RunStaysIn(fp, code, hints, p, entry, w, run, i);
    InFunctionCovered(p, entry, w, FlowOf(d));
    if d.pc in code && IsLink(code[d.pc]) {
      CallFlows(code, hints, entry, w, FlowOf(d));
      InFunctionCovered(p, entry, w, Flow(d.npc, Plus(d.npc, 4)));
    }
  }

  /** What every hop keeps holds all along a run. */
  lemma {:induction false} RunKeeps(
    ef: EmitFn, code: Code, hints: Hints, entry: Word, run: seq<Cfg>, inv: Cfg -> bool, i: nat)
    requires CodeOk(code) && i < |run| && IsRun(ef, code, hints, entry, run) && inv(run[0])
    requires forall c, d :: Hop(ef, code, hints, c, d) && inv(c) ==> inv(d)
    ensures inv(run[i])
    decreases i
  {
    if i > 0 {
      RunKeeps(ef, code, hints, entry, run, inv, i - 1);
      assert Hop(ef, code, hints, run[i - 1], run[i]);
    }
  }

  lemma RunStaysIn(fp: Fp, code: Code, hints: Hints, p: Prog, entry: Word, w: Walk, run: seq<Cfg>, i: nat)
    requires CodeOk(code) && p == Decoded(code, hints) && WalkDone(p, entry, w) && PlainSlots(p, w)
    requires i < |run| && IsRun(Emission(fp), code, hints, entry, run)
    ensures run[i].At? && InFunction(p, w, FlowOf(run[i]))
  {
    var ef, inv := Emission(fp), (c: Cfg) => c.At? && InFunction(p, w, FlowOf(c));
    LeaderIn(p, w, entry);
    forall c, d | Hop(ef, code, hints, c, d) && inv(c) ensures inv(d) {
      HopStaysIn(fp, code, hints, p, entry, w, c, d);
    }
    RunKeeps(ef, code, hints, entry, run, inv, i);
  }

  lemma HopStaysIn(fp: Fp, code: Code, hints: Hints, p: Prog, entry: Word, w: Walk, c: Cfg, d: Cfg)
    requires CodeOk(code) && p == Decoded(code, hints) && WalkDone(p, entry, w) && PlainSlots(p, w)
    requires Hop(Emission(fp), code, hints, c, d) && InFunction(p, w, FlowOf(c))
    ensures InFunction(p, w, FlowOf(d))
  {
    if IsLink(code[c.pc]) {
      CallFlows(code, hints, entry, w, FlowOf(c));
    } else {
      StepFlows(fp, code, hints, c, d);
      StepStaysIn(p, entry, w, FlowOf(c), FlowOf(d));
    }
  }

  /* ---- translating what was discovered ---- */

  /** The blocks as the translator is handed them. */
  function TextBlocks(blocks: map<Word, Block>): map<Word, Blk> {
    map l | l in blocks :: Blk(blocks[l].start, blocks[l].end, blocks[l].succs)
  }

  lemma {:induction false} CutInRange(p: Prog, bounds: set<Word>, pc: Word)
    requires ProgOk(p) && pc <= TOP
    ensures CutAt(p, bounds, pc).end <= TOP
    decreases TOP - pc
  {
    if Plain(p, pc) {
      CutInRange(p, bounds, pc + 4);
    }
  }

  lemma BlocksFitText(p: Prog, w: Walk)
    requires ProgOk(p) && forall l :: l in w.leaders ==> l <= TOP
    ensures var blocks := TextBlocks(BlocksOf(p, w, w.leaders));
            BlocksFit(blocks) && (NoneEmpty(blocks) <==> forall l :: l in w.leaders ==> l in p.ctl)
  {
    var blocks := TextBlocks(BlocksOf(p, w, w.leaders));
    forall a | a in blocks ensures BlockFits(blocks, a) {
      CutInRange(p, w.leaders + w.ends, a);
    }
    forall l | l in w.leaders ensures l in blocks && (l < blocks[l].end <==> l in p.ctl) {}
  }

  /** Discovery and translation together: the text of a discovered function, with the calls of any
      translated functions, follows the machine from its entry, whatever was mapped, resolved or
      hinted. */
  lemma DiscoveredFunctionFollows(
    fp: Fp, code: Code, hints: Hints, entry: Word, w: Walk, fns: Functions, direct: Direct, m: Machine, fuel: nat,
    depth: nat)
      returns (n: nat)
    requires CodeOk(code) && WalkDone(Decoded(code, hints), entry, w) && forall l :: l in w.leaders ==> l <= TOP
    requires NoSelfLink(code) && FunctionsFit(fns) && Clean(Emission(fp), code, InLine(entry, m))
    ensures var blocks := TextBlocks(BlocksOf(Decoded(code, hints), w, w.leaders));
            BlocksFit(blocks) &&
            var callee := Called(Emission(fp), code, fns, direct, fuel, depth);
            var e := FunctionText(Emission(fp), code, callee, blocks, entry, m, true, fuel);
            Follows(code, Steps(Emission(fp), code, n, InLine(entry, m)), e) &&
            (e.Going? && e.on && (forall l :: l in w.leaders ==> l in code) ==> n >= fuel)
  {
    var p := Decoded(code, hints);
    BlocksFitText(p, w);
    n := TranslatedFunction(fp, code, fns, direct, TextBlocks(BlocksOf(p, w, w.leaders)), entry, m, fuel, depth);
  }

  /* ---- a target that is not mapped ---- */

  /** j 0x2000 with a nop in its slot, and nothing at 0x2000. */
  const JUMP_NOWHERE: Code := map[0x1000 := 0x0800_0800, 0x1004 := 0x0000_0000]

  /** A jump from `a` to `b`, which is not mapped. */
  predicate JumpsNowhere(code: Code, a: Word, b: Word) {
    && CodeOk(code) && a in code && Plus(a, 4) in code && code[Plus(a, 4)] == 0 && b !in code && a <= TOP && b <= TOP
    && Op(code[a]) == 2 && JumpTo(code[a], a) == b
  }

  lemma JumpDecoded()
    ensures JumpsNowhere(JUMP_NOWHERE, 0x1000, 0x2000)
  {
  }

  lemma JumpIsControl(w: Word, pc: Word)
    requires Op(w) == 2
    ensures IsControl(w) && !IsForeign(w) && !IsBranchOp(w) && !IsLink(w) && !IsLikely(w)
    ensures Decode(pc, w) == Ctl(Jump, JumpTo(w, pc), 0)
  {
  }

  /** Discovery finds the jump and its target, and gives the target an empty block. */
  lemma NowhereWalk(code: Code, hints: Hints, a: Word, b: Word, w: Walk)
    requires JumpsNowhere(code, a, b) && WalkDone(Decoded(code, hints), a, w)
    ensures w.leaders == {a, b}
    ensures BlockOf(Decoded(code, hints), w, b).end == b && BlockOf(Decoded(code, hints), w, a).end == a + 8
  {
    var p, c := Decoded(code, hints), iset{a, b};
    JumpIsControl(code[a], a);
    assert p.ctl[a] == Decode(a, code[a]);
    assert LineWalked(p, w, a) && TermRecorded(p, w, a);
    assert SuccsOf(p, a) == [b] && b in Elements(SuccsOf(p, a));
    assert LineInside(p, c, a) && LineInside(p, c, b);
    assert Closed(p, a, c);
  }

  lemma NowhereSteps(ef: EmitFn, code: Code, a: Word, b: Word, m: Machine)
    requires Regular(ef) && JumpsNowhere(code, a, b)
    ensures Steps(ef, code, 3, InLine(a, m)) == Unknown
  {
    var c := InLine(a, m);
    JumpIsControl(code[a], a);
    TransferStep(ef, code, a, m);
    var d := Step(ef, code, c);
    assert RegularAt(ef, 0, d.m.cpu, Loaded(0, d.m));
    OneStep(ef, code, 2, c);
    OneStep(ef, code, 1, d);
    OneStep(ef, code, 0, Step(ef, code, d));
  }

  lemma NowhereText(ef: EmitFn, code: Code, a: Word, b: Word, keys: set<Word>, blk: Blk, m: Machine)
    requires JumpsNowhere(code, a, b) && b in keys && blk.end == a + 8 <= TOP
    ensures BlockText(ef, code, keys, blk, a, m) == Goto(b, m)
  {
    JumpIsControl(code[a], a);
    assert RunSlotText(false, false, [], m) == m;
  }

  lemma NowhereLoops(ef: EmitFn, code: Code, a: Word, b: Word, callee: Callee, blocks: map<Word, Blk>, m: Machine,
                     fuel: nat)
    requires JumpsNowhere(code, a, b) && BlocksFit(blocks) && fuel > 0
    requires a in blocks && b in blocks && blocks[b].end == b && blocks[a].end == a + 8 <= TOP
    ensures FunctionText(ef, code, callee, blocks, a, m, true, fuel) == Going(b, true, m)
  {
    NowhereText(ef, code, a, b, blocks.Keys, blocks[a], m);
    Spins(ef, code, callee, blocks, b, m, true, fuel - 1);
  }

  /** The text of the discovered function never leaves the empty block, whatever the budget; the
      machine stops at an address that is not mapped. */
  lemma UnmappedTargetSpins(fp: Fp, hints: Hints, w: Walk, callee: Callee, m: Machine, fuel: nat)
    requires WalkDone(Decoded(JUMP_NOWHERE, hints), 0x1000, w) && fuel > 0
    ensures var ef, blocks := Emission(fp), TextBlocks(BlocksOf(Decoded(JUMP_NOWHERE, hints), w, w.leaders));
            BlocksFit(blocks) &&
            FunctionText(ef, JUMP_NOWHERE, callee, blocks, 0x1000, m, true, fuel) == Going(0x2000, true, m) &&
            Steps(ef, JUMP_NOWHERE, 3, InLine(0x1000, m)) == Unknown
  {
    JumpDecoded();
    NowhereSpins(fp, JUMP_NOWHERE, hints, 0x1000, 0x2000, w, callee, m, fuel);
  }

  lemma NowhereSpins(fp: Fp, code: Code, hints: Hints, a: Word, b: Word, w: Walk, callee: Callee, m: Machine, fuel: nat)
    requires JumpsNowhere(code, a, b) && WalkDone(Decoded(code, hints), a, w) && a + 8 <= TOP && fuel > 0
    ensures var ef, blocks := Emission(fp), TextBlocks(BlocksOf(Decoded(code, hints), w, w.leaders));
            BlocksFit(blocks) && FunctionText(ef, code, callee, blocks, a, m, true, fuel) == Going(b, true, m) &&
            Steps(ef, code, 3, InLine(a, m)) == Unknown
  {
    var p, ef := Decoded(code, hints), Emission(fp);
    NowhereWalk(code, hints, a, b, w);
    BlocksFitText(p, w);
    var blocks := TextBlocks(BlocksOf(p, w, w.leaders));
    NowhereLoops(ef, code, a, b, callee, blocks, m, fuel);
    EmissionRegular(fp);
    NowhereSteps(ef, code, a, b, m);
  }
}
