/** Function discovery (r4300cfg.cc): the two passes of `build`, and `discover`. */
module R4300Cfg {
  import opened Collections
  import opened Bits
  import opened RspState
  import opened R4300Insn
  import opened R4300Likely
  import opened R4300Table

  /** Targets, in ascending order, of indirect transfers the walk cannot resolve. */
  type Hints = map<Word, seq<Word>>

  /* ---- the program as the walk sees it ---- */

  /** The mapped addresses with what their instructions do to the pc, and what each jr was
      resolved to. */
  datatype Prog = Prog(ctl: map<Word, Ctl>, table: Word -> seq<Word>, hints: Hints)

  predicate ProgOk(p: Prog) { forall a :: a in p.ctl ==> a < MAPPED_TOP }

  /** The targets of the jr at `q`: its table; failing that what was observed; failing that
      what could be read of the table. */
  function TableOrHints(code: Code, hints: Hints, q: Word): seq<Word>
    requires CodeOk(code)
  {
    var (ok, out) := JumpTable(code, q);
    if ok then out else if q in hints then hints[q] else out
  }

  /** The scan from `jr` accepted a table whose first entry is mapped and another is not. */
  ghost predicate HalfMapped(code: Code, jr: Word)
    requires CodeOk(code)
  {
    jr in code &&
    var s := ScanBack(code, jr, 1, Scan(Rs(code[jr]), None, 0));
    s.Some? && Accepted(s.value) && EntryAt(s.value.base.value, 0) in code &&
    exists i: nat :: i < s.value.count && EntryAt(s.value.base.value, i) !in code
  }

  /** A refused table leaves successors behind exactly when it is half mapped. */
  lemma PartialTableExact(code: Code, hints: Hints, jr: Word)
    requires CodeOk(code) && jr !in hints
    ensures !JumpTable(code, jr).0 && TableOrHints(code, hints, jr) != [] <==> HalfMapped(code, jr)
  {
    if jr in code {
      var s := ScanBack(code, jr, 1, Scan(Rs(code[jr]), None, 0));
      if s.Some? && Accepted(s.value) {
        WholeTable(code, s.value.base.value, 0, s.value.count);
      }
    }
  }

  /** The same for the idiom: in terms of its own table. */
  lemma PartialSwitchExact(code: Code, hints: Hints, jr: Word, a: Reg, t: Reg, x: Reg)
    requires CodeOk(code) && jr !in hints && BoundedSwitch(code, jr, a, t, x) && 1 <= Bound(code, jr) <= MAX_ENTRIES
    ensures !JumpTable(code, jr).0 && TableOrHints(code, hints, jr) != [] <==>
              EntryAt(IdiomBase(code, jr), 0) in code &&
              exists i: nat :: i < Bound(code, jr) && EntryAt(IdiomBase(code, jr), i) !in code
  {
    IdiomScanned(code, jr, a, t, x);
    PartialTableExact(code, hints, jr);
  }

  /** Seven instructions at 0x1000 with bound 2, a table at 0x2000, and only its first entry mapped. */
  const HALF_TABLE: Code :=
    map[0x1000 := 0x2c41_0002,  // sltiu $1, $2, 2
        0x1004 := 0x1020_0006,  // beq $1, $0
        0x1008 := 0x0002_4080,  // sll $8, $2, 2
        0x100c := 0x3c01_0000,  // lui $1, 0
        0x1010 := 0x0028_0821,  // addu $1, $1, $8
        0x1014 := 0x8c28_2000,  // lw $8, 0x2000($1)
        0x1018 := 0x0100_0008,  // jr $8
        0x2000 := 0x0000_1000]

  lemma HalfTableIsSwitch()
    ensures CodeOk(HALF_TABLE) && BoundedSwitch(HALF_TABLE, 0x1018, 1, 8, 2)
    ensures Bound(HALF_TABLE, 0x1018) == 2 && IdiomBase(HALF_TABLE, 0x1018) == 0x2000
  {
  }

  lemma HalfTableLeavesSuccessor()
    ensures CodeOk(HALF_TABLE) && !JumpTable(HALF_TABLE, 0x1018).0 && TableOrHints(HALF_TABLE, map[], 0x1018) != []
  {
    HalfTableIsSwitch();
    assert EntryAt(0x2000, 0) in HALF_TABLE && EntryAt(0x2000, 1) !in HALF_TABLE;
    PartialSwitchExact(HALF_TABLE, map[], 0x1018, 1, 8, 2);
  }

  /** `p` is what decode and jump_table make of `code`. */
  ghost predicate Decodes(code: Code, hints: Hints, p: Prog) {
    && CodeOk(code) && p.ctl.Keys == code.Keys && p.hints == hints
    && (forall a {:trigger p.ctl[a]} :: a in code ==> p.ctl[a] == Decode(a, code[a]))
    && (forall a {:trigger p.table(a)} :: p.table(a) == TableOrHints(code, hints, a))
  }

  ghost function Decoded(code: Code, hints: Hints): (p: Prog)
    requires CodeOk(code)
    ensures Decodes(code, hints, p) && ProgOk(p)
  {
    Prog(map a | a in code :: Decode(a, code[a]), (q: Word) => TableOrHints(code, hints, q), hints)
  }

  /* ---- what the walk looks for ---- */

  function KindAt(p: Prog, pc: Word): Kind
    requires pc in p.ctl
  {
    p.ctl[pc].k
  }

  predicate Plain(p: Prog, pc: Word) { pc in p.ctl && KindAt(p, pc).Fall? }

  /** A control instruction that ends a block after its delay slot. */
  predicate IsTerm(p: Prog, pc: Word) { pc in p.ctl && !KindAt(p, pc).Fall? && !KindAt(p, pc).Trap? }

  /** The first address from `pc` on that is not a plain instruction. */
  function Stop(p: Prog, pc: Word): (q: Word)
    requires ProgOk(p)
    ensures !Plain(p, q) && pc <= q && (q - pc) % 4 == 0
    decreases if pc < TOP then TOP - pc else 0
  {
    if Plain(p, pc) then Stop(p, pc + 4) else pc
  }

  function After(q: Word): Word { Plus(q, 8) }

  /** Successors of the control instruction at `q`, taken edge first. */
  function SuccsOf(p: Prog, q: Word): seq<Word>
    requires ProgOk(p) && IsTerm(p, q)
  {
    var c := p.ctl[q];
    match c.k
    case Branch => [c.target, After(q)]
    case Likely => [c.target, After(q)]
    case Jump => [c.target]
    case Call => [After(q)]
    case Jalr => [After(q)]
    case _ => if c.reg == 31 then [] else p.table(q)
  }

  function CallsOf(p: Prog, q: Word): set<Word>
    requires IsTerm(p, q)
  {
    var c := p.ctl[q];
    match c.k
    case Call => {c.target}
    case Jalr => if q in p.hints then Elements(p.hints[q]) else {}
    case _ => {}
  }

  /* ---- the invariant of pass one ---- */

  datatype Walk = Walk(leaders: set<Word>, seen: set<Word>, terms: set<Word>, ends: set<Word>,
                       edges: map<Word, seq<Word>>, calls: set<Word>)

  /** Control instruction `q` has been recorded. */
  predicate TermRecorded(p: Prog, w: Walk, q: Word)
    requires ProgOk(p)
  {
    && IsTerm(p, q) && After(q) in w.ends && After(q) in w.edges && w.edges[After(q)] == SuccsOf(p, q)
    && Elements(SuccsOf(p, q)) <= w.leaders && CallsOf(p, q) <= w.calls
  }

  /** The straight line from `l` has been walked. */
  predicate LineWalked(p: Prog, w: Walk, l: Word)
    requires ProgOk(p)
  {
    var q := Stop(p, l);
    (IsTerm(p, q) ==> q in w.terms) && (q !in p.ctl ==> q in w.ends)
  }

  /** Every recorded control instruction ends a line from a leader. */
  ghost predicate TermFound(p: Prog, w: Walk, q: Word)
    requires ProgOk(p)
  {
    exists l :: l in w.leaders && Stop(p, l) == q
  }

  ghost predicate EndFound(p: Prog, w: Walk, e: Word)
    requires ProgOk(p)
  {
    (exists q :: q in w.terms && e == After(q)) || (e !in p.ctl && exists l :: l in w.leaders && Stop(p, l) == e)
  }

  ghost predicate EdgeFound(w: Walk, e: Word) {
    exists q :: q in w.terms && e == After(q)
  }

  ghost predicate CallFound(p: Prog, w: Walk, f: Word) {
    exists q :: q in w.terms && IsTerm(p, q) && f in CallsOf(p, q)
  }

  /** `c` holds the entry and every successor of a line that starts in it. */
  ghost predicate Closed(p: Prog, entry: Word, c: iset<Word>)
    requires ProgOk(p)
  {
    entry in c && forall l :: l in c ==> LineInside(p, c, l)
  }

  predicate LineInside(p: Prog, c: iset<Word>, l: Word)
    requires ProgOk(p)
  {
    IsTerm(p, Stop(p, l)) ==> forall s :: s in SuccsOf(p, Stop(p, l)) ==> s in c
  }

  ghost predicate WalkOk(p: Prog, entry: Word, w: Walk)
    requires ProgOk(p)
  {
    && entry in w.leaders && w.seen <= w.leaders
    && (forall q {:trigger TermRecorded(p, w, q)} :: q in w.terms ==> TermRecorded(p, w, q))
    && (forall l {:trigger LineWalked(p, w, l)} :: l in w.seen ==> LineWalked(p, w, l))
    && (forall q {:trigger TermFound(p, w, q)} :: q in w.terms ==> TermFound(p, w, q))
    && (forall e {:trigger EndFound(p, w, e)} :: e in w.ends ==> EndFound(p, w, e))
    && (forall e {:trigger EdgeFound(w, e)} :: e in w.edges ==> EdgeFound(w, e))
    && (forall f {:trigger CallFound(p, w, f)} :: f in w.calls ==> CallFound(p, w, f))
    && (forall c: iset<Word> {:trigger Closed(p, entry, c)} :: Closed(p, entry, c) ==>
          forall l :: l in w.leaders ==> l in c)
  }

  /** Pass one is over: every leader has been walked. */
  ghost predicate WalkDone(p: Prog, entry: Word, w: Walk)
    requires ProgOk(p)
  {
    WalkOk(p, entry, w) && w.seen == w.leaders
  }

  /** The leaders are the least closed set. */
  lemma LeadersLeast(p: Prog, entry: Word, w: Walk)
    requires ProgOk(p) && WalkDone(p, entry, w)
    ensures Closed(p, entry, iset l | l in w.leaders)
    ensures forall c: iset<Word> :: Closed(p, entry, c) ==> forall l :: l in w.leaders ==> l in c
  {
    var c := iset l | l in w.leaders;
    forall l | l in c ensures LineInside(p, c, l) {
      assert LineWalked(p, w, l);
      var q := Stop(p, l);
      if IsTerm(p, q) {
        assert TermRecorded(p, w, q);
      }
    }
  }

  /* ---- pass one ---- */

  /** The line from `pc` up to the first instruction that is not plain. */
  method FindStop(code: Code, hints: Hints, ghost p: Prog, pc0: Word) returns (pc: Word)
    requires ProgOk(p) && Decodes(code, hints, p)
    ensures pc == Stop(p, pc0)
  {
    pc := pc0;
    while pc in code && Decode(pc, code[pc]).k.Fall?
      invariant Stop(p, pc) == Stop(p, pc0)
      decreases if pc < TOP then TOP - pc else 0
    {
      assert Plain(p, pc);
      pc := pc + 4;
    }
  }

  /** The switch on the control instruction: its successors, and the functions it calls. */
  method Successors(code: Code, hints: Hints, ghost p: Prog, q: Word) returns (succ: seq<Word>, calls: set<Word>)
    requires ProgOk(p) && Decodes(code, hints, p) && IsTerm(p, q)
    ensures succ == SuccsOf(p, q) && calls == CallsOf(p, q)
  {
    var c := Decode(q, code[q]);
    assert c == p.ctl[q];
    succ, calls := [], {};
    if c.k.Branch? || c.k.Likely? {
      succ := [c.target, After(q)];
    } else if c.k.Jump? {
      succ := [c.target];
    } else if c.k.Call? {
      calls := {c.target};
      succ := [After(q)];
    } else if c.k.Jalr? {
      if q in hints {
        calls := Elements(hints[q]);
      }
      succ := [After(q)];
    } else if c.reg != 31 {
      succ := JrTargets(code, hints, q);
      assert succ == p.table(q);
    }
  }

  method JrTargets(code: Code, hints: Hints, q: Word) returns (targets: seq<Word>)
    requires CodeOk(code)
    ensures targets == TableOrHints(code, hints, q)
  {
    var ok;
    ok, targets := ReadJumpTable(code, q);
    if !ok && q in hints {
      targets := hints[q];
    }
  }

  /** A line that ends without a new control instruction. */
  lemma LineEnds(p: Prog, entry: Word, w: Walk, l: Word, w': Walk)
    requires ProgOk(p) && WalkOk(p, entry, w) && l in w.leaders
    requires var q := Stop(p, l);
             if q !in p.ctl then w' == w.(seen := w.seen + {l}, ends := w.ends + {q})
             else (KindAt(p, q).Trap? || q in w.terms) && w' == w.(seen := w.seen + {l})
    ensures WalkOk(p, entry, w')
  {
    var q := Stop(p, l);
    forall x | x in w'.terms ensures TermRecorded(p, w', x) && TermFound(p, w', x) {
      assert TermRecorded(p, w, x) && TermFound(p, w, x);
    }
    forall x | x in w'.seen ensures LineWalked(p, w', x) {
      assert x != l ==> LineWalked(p, w, x);
    }
    forall e | e in w'.ends ensures EndFound(p, w', e) {
      assert e in w.ends ==> EndFound(p, w, e);
    }
    forall e | e in w'.edges ensures EdgeFound(w', e) {
      assert e in w.edges ==> EdgeFound(w, e);
    }
    forall f | f in w'.calls ensures CallFound(p, w', f) {
      assert CallFound(p, w, f);
    }
  }

  /** A line that ends at a control instruction nobody had reached. */
  lemma TermAdded(p: Prog, entry: Word, w: Walk, l: Word, w': Walk)
    requires ProgOk(p) && WalkOk(p, entry, w) && l in w.leaders
    requires var q := Stop(p, l);
             IsTerm(p, q) && q !in w.terms &&
             w' == Walk(w.leaders + Elements(SuccsOf(p, q)), w.seen + {l}, w.terms + {q}, w.ends + {After(q)},
                        w.edges[After(q) := SuccsOf(p, q)], w.calls + CallsOf(p, q))
    ensures WalkOk(p, entry, w')
  {
    var q := Stop(p, l);
    forall x | x in w'.terms ensures TermRecorded(p, w', x) && TermFound(p, w', x) {
      if x != q {
        assert TermRecorded(p, w, x) && TermFound(p, w, x);
        AfterInjective(x, q);
      }
    }
    forall x | x in w'.seen ensures LineWalked(p, w', x) {
      assert x != l ==> LineWalked(p, w, x);
    }
    forall e | e in w'.ends ensures EndFound(p, w', e) {
      assert e in w.ends ==> EndFound(p, w, e);
    }
    forall e | e in w'.edges ensures EdgeFound(w', e) {
      assert e in w.edges ==> EdgeFound(w, e);
    }
    forall f | f in w'.calls ensures CallFound(p, w', f) {
      assert f in w.calls ==> CallFound(p, w, f);
    }
    forall c: iset<Word> | Closed(p, entry, c) ensures forall x :: x in w'.leaders ==> x in c {
      assert LineInside(p, c, l);
    }
  }

  lemma AfterInjective(a: Word, b: Word)
    requires a != b
    ensures After(a) != After(b)
  {
  }

  method ReadLine(code: Code, hints: Hints, ghost p: Prog, ghost entry: Word, w: Walk, l: Word)
      returns (w': Walk, found: seq<Word>)
    requires ProgOk(p) && Decodes(code, hints, p) && WalkOk(p, entry, w) && l in w.leaders
    ensures WalkOk(p, entry, w') && w'.seen == w.seen + {l} && w'.leaders == w.leaders + Elements(found)
    ensures w.terms <= w'.terms && (w'.terms == w.terms ==> found == [])
  {
    var q := FindStop(code, hints, p, l);
    found := [];
    if q !in code {
      w' := w.(seen := w.seen + {l}, ends := w.ends + {q});
      LineEnds(p, entry, w, l, w');
    } else if Decode(q, code[q]).k.Trap? || q in w.terms {
      w' := w.(seen := w.seen + {l});
      assert p.ctl[q] == Decode(q, code[q]);
      LineEnds(p, entry, w, l, w');
    } else {
      assert p.ctl[q] == Decode(q, code[q]);
      var succ, calls := Successors(code, hints, p, q);
      found := succ;
      w' := Walk(w.leaders + Elements(succ), w.seen + {l}, w.terms + {q}, w.ends + {After(q)},
                 w.edges[After(q) := succ], w.calls + calls);
      TermAdded(p, entry, w, l, w');
      assert q in w'.terms;
    }
  }

  lemma TermsAreCode(p: Prog, entry: Word, w: Walk)
    requires ProgOk(p) && WalkOk(p, entry, w)
    ensures w.terms <= p.ctl.Keys
  {
    forall q | q in w.terms ensures q in p.ctl.Keys {
      assert TermRecorded(p, w, q);
    }
  }

  /** What the worklist loop keeps: every leader has been walked or waits. */
  ghost predicate Working(p: Prog, entry: Word, w: Walk, work: seq<Word>)
    requires ProgOk(p)
  {
    WalkOk(p, entry, w) && Elements(work) <= w.leaders <= w.seen + Elements(work)
  }

  /** The first item.  A line either finds a control instruction nobody had reached, of which
      there are finitely many, or adds no work. */
  method WorkOne(code: Code, hints: Hints, ghost p: Prog, ghost entry: Word, w: Walk, work: seq<Word>)
      returns (w': Walk, work': seq<Word>)
    requires ProgOk(p) && Decodes(code, hints, p) && Working(p, entry, w, work) && work != []
    ensures Working(p, entry, w', work')
    ensures TermsLeft(p, w') < TermsLeft(p, w) || (TermsLeft(p, w') == TermsLeft(p, w) && |work'| < |work|)
  {
    var l, rest := work[0], work[1..];
    assert work == [l] + rest;
    assert l in Elements(work) && Elements(work) == {l} + Elements(rest);
    if l in w.seen {
      return w, rest;
    }
    var found;
    w', found := ReadLine(code, hints, p, entry, w, l);
    TermsAreCode(p, entry, w');
    FewerLeft(p.ctl.Keys, w.terms, w'.terms);
    assert Elements(rest + found) == Elements(rest) + Elements(found);
    work' := rest + found;
  }

  /** Control instructions not yet recorded, at most. */
  ghost function TermsLeft(p: Prog, w: Walk): nat { |p.ctl.Keys - w.terms| }

  lemma WalkStarts(p: Prog, entry: Word)
    requires ProgOk(p)
    ensures Working(p, entry, Walk({entry}, {}, {}, {}, map[], {}), [entry])
  {
  }

  method PassOne(code: Code, hints: Hints, ghost p: Prog, entry: Word) returns (w: Walk)
    requires ProgOk(p) && Decodes(code, hints, p)
    ensures WalkDone(p, entry, w)
  {
    w := Walk({entry}, {}, {}, {}, map[], {});
    var work := [entry];
    WalkStarts(p, entry);
    while work != []
      invariant Working(p, entry, w, work)
      decreases TermsLeft(p, w), |work|
    {
      w, work := WorkOne(code, hints, p, entry, w, work);
    }
  }

  /* ---- pass two ---- */

  datatype Block = Block(start: Word, end: Word, succs: seq<Word>,
                         endsCall: bool, endsReturn: bool, endsTrap: bool, endsLikely: bool, endsIndirect: bool,
                         unresolved: bool)

  /** How a block that starts at `pc` ends: where, and by which instruction if by one. */
  datatype Cut = Cut(end: Word, last: Option<Word>)

  function CutAt(p: Prog, bounds: set<Word>, pc: Word): (c: Cut)
    requires ProgOk(p)
    ensures pc <= c.end && (c.end - pc) % 4 == 0 && (c.end == pc <==> pc !in p.ctl)
    ensures c.last.Some? ==> c.last.value in p.ctl
    decreases if pc < TOP then TOP - pc else 0
  {
    if pc !in p.ctl then Cut(pc, None)
    else if KindAt(p, pc).Trap? then Cut(pc + 4, Some(pc))
    else if !KindAt(p, pc).Fall? then Cut(pc + 8, Some(pc))
    else if pc + 4 in bounds then Cut(pc + 4, None)
    else CutAt(p, bounds, pc + 4)
  }

  /** The block of leader `l`. */
  function BlockOf(p: Prog, w: Walk, l: Word): Block
    requires ProgOk(p)
  {
    var cut := CutAt(p, w.leaders + w.ends, l);
    if cut.last.None? then Block(l, cut.end, [cut.end], false, false, false, false, false, false)
    else
      var q := cut.last.value;
      var k := KindAt(p, q);
      var succs := if cut.end in w.edges then w.edges[cut.end] else [];
      var ret := k.Jr? && p.ctl[q].reg == 31;
      Block(l, cut.end, succs, k.Call? || k.Jalr?, ret, k.Trap?, k.Likely?, k.Jr? && !ret,
            (k.Jalr? && q !in p.hints) || (k.Jr? && !ret && succs == []))
  }

  function BlocksOf(p: Prog, w: Walk, leaders: set<Word>): map<Word, Block>
    requires ProgOk(p)
  {
    map l | l in leaders :: BlockOf(p, w, l)
  }

  predicate SameCut(p: Prog, bounds: set<Word>, l: Word, pc: Word)
    requires ProgOk(p)
  {
    CutAt(p, bounds, pc) == CutAt(p, bounds, l)
  }

  /** One turn of the cut. */
  lemma CutsNext(p: Prog, bounds: set<Word>, l: Word, pc: Word)
    requires ProgOk(p) && SameCut(p, bounds, l, pc)
    ensures pc !in p.ctl ==> CutAt(p, bounds, l) == Cut(pc, None)
    ensures Plain(p, pc) ==>
              if pc + 4 in bounds then CutAt(p, bounds, l) == Cut(pc + 4, None) else SameCut(p, bounds, l, pc + 4)
  {
  }

  /** A block that runs into the next. */
  lemma RunsOn(p: Prog, w: Walk, l: Word, pc: Word)
    requires ProgOk(p) && CutAt(p, w.leaders + w.ends, l) == Cut(pc, None)
    ensures BlockOf(p, w, l) == Block(l, pc, [pc], false, false, false, false, false, false)
  {
  }

  method BuildBlock(code: Code, hints: Hints, ghost p: Prog, w: Walk, bounds: set<Word>, l: Word) returns (b: Block)
    requires ProgOk(p) && Decodes(code, hints, p) && bounds == w.leaders + w.ends
    ensures b == BlockOf(p, w, l)
  {
    var pc: Word := l;
    while true
      invariant SameCut(p, bounds, l, pc)
      decreases if pc < TOP then TOP - pc else 0
    {
      CutsNext(p, bounds, l, pc);
      if pc !in code {
        RunsOn(p, w, l, pc);
        return Block(l, pc, [pc], false, false, false, false, false, false);
      }
      assert p.ctl[pc] == Decode(pc, code[pc]);
      var c := Decode(pc, code[pc]);
      if !c.k.Fall? {
        b := ControlBlock(code, hints, p, w, l, pc);
        return;
      }
      pc := pc + 4;
      if pc in bounds {
        RunsOn(p, w, l, pc);
        return Block(l, pc, [pc], false, false, false, false, false, false);
      }
    }
  }

  /** The block of `l`, which the instruction at `q` ends. */
  method ControlBlock(code: Code, hints: Hints, ghost p: Prog, w: Walk, l: Word, q: Word) returns (b: Block)
    requires ProgOk(p) && Decodes(code, hints, p) && q in code && !KindAt(p, q).Fall?
    requires CutAt(p, w.leaders + w.ends, l) == CutAt(p, w.leaders + w.ends, q)
    ensures b == BlockOf(p, w, l)
  {
    var c := Decode(q, code[q]);
    assert c == p.ctl[q];
    b := Block(l, if c.k.Trap? then q + 4 else q + 8, [], false, false, c.k.Trap?, c.k.Likely?, false, false);
    if c.k.Call? {
      b := b.(endsCall := true);
    } else if c.k.Jalr? {
      b := b.(endsCall := true, unresolved := q !in hints);
    } else if c.k.Jr? {
      if c.reg == 31 {
        b := b.(endsReturn := true);
      } else {
        b := b.(endsIndirect := true);
      }
    }
    if b.end in w.edges {
      b := b.(succs := w.edges[b.end]);
    }
    if b.endsIndirect && b.succs == [] {
      b := b.(unresolved := true);
    }
  }

  /** The instruction addresses of [start, end). */
  function Insns(start: Word, end: int): (s: set<Word>)
    requires end <= 0x1_0000_0000
    ensures forall a :: a in s <==> start <= a < end && (a - start) % 4 == 0
    decreases end - start
  {
    if end <= start then {} else if start + 4 >= end then {start} else {start} + Insns(start + 4, end)
  }

  lemma {:induction false} InsnCount(start: Word, end: int, k: nat)
    requires end <= 0x1_0000_0000 && end == start + 4 * k
    ensures |Insns(start, end)| == k
    decreases k
  {
    if k > 1 {
      var rest := Insns(start + 4, end);
      InsnCount(start + 4, end, k - 1);
      assert Insns(start, end) == {start} + rest && start !in rest;
    }
  }

  /** A block holds an instruction for every four bytes. */
  lemma BlockCount(b: Block)
    requires b.start <= b.end && (b.end - b.start) % 4 == 0
    ensures |Insns(b.start, b.end)| == (b.end - b.start) / 4
  {
    InsnCount(b.start, b.end, (b.end - b.start) / 4);
  }

  function Covered(blocks: map<Word, Block>): set<Word> {
    set l, a | l in blocks && a in Insns(blocks[l].start, blocks[l].end) :: a
  }

  /** The two blocks have no instruction in common. */
  predicate Apart(blocks: map<Word, Block>, a: Word, b: Word)
    requires a in blocks && b in blocks
  {
    Insns(blocks[a].start, blocks[a].end) !! Insns(blocks[b].start, blocks[b].end)
  }

  ghost predicate Disjoint(blocks: map<Word, Block>) {
    forall a, b {:trigger Apart(blocks, a, b)} :: a in blocks && b in blocks && a != b ==> Apart(blocks, a, b)
  }

  datatype Func = Func(entry: Word, leaf: bool, blocks: map<Word, Block>, calls: set<Word>, nInsns: nat)

  predicate NoCalls(p: Prog, terms: set<Word>) {
    forall q :: q in terms && q in p.ctl ==> !KindAt(p, q).Call? && !KindAt(p, q).Jalr?
  }

  /** A function as the two passes leave it. */
  ghost predicate Built(p: Prog, entry: Word, w: Walk, fn: Func)
    requires ProgOk(p)
  {
    && WalkDone(p, entry, w)
    && fn.entry == entry && fn.calls == w.calls
    && fn.blocks == BlocksOf(p, w, w.leaders)
    && (fn.leaf <==> NoCalls(p, w.terms))
    && Counted(fn.blocks, fn.nInsns)
  }

  ghost predicate IsBuilt(p: Prog, entry: Word, fn: Func)
    requires ProgOk(p)
  {
    exists w :: Built(p, entry, w, fn)
  }

  lemma CountGrows(blocks: map<Word, Block>, b: Block, n: nat)
    requires b.start !in blocks && b.start <= b.end && (b.end - b.start) % 4 == 0
    requires Disjoint(blocks) ==> n == |Covered(blocks)|
    ensures var more := blocks[b.start := b];
            Disjoint(more) ==> n + (b.end - b.start) / 4 == |Covered(more)|
  {
    var more := blocks[b.start := b];
    BlockCount(b);
    if Disjoint(more) {
      StillDisjoint(blocks, b);
      CoveredGrows(blocks, b);
    }
  }

  lemma StillDisjoint(blocks: map<Word, Block>, b: Block)
    requires b.start !in blocks && Disjoint(blocks[b.start := b])
    ensures Disjoint(blocks) && Covered(blocks) !! Insns(b.start, b.end)
  {
    var more := blocks[b.start := b];
    forall x, y | x in blocks && y in blocks && x != y ensures Apart(blocks, x, y) {
      assert Apart(more, x, y);
    }
    forall l | l in blocks ensures Insns(blocks[l].start, blocks[l].end) !! Insns(b.start, b.end) {
      assert Apart(more, l, b.start);
    }
  }

  lemma CoveredGrows(blocks: map<Word, Block>, b: Block)
    requires b.start !in blocks
    ensures Covered(blocks[b.start := b]) == Covered(blocks) + Insns(b.start, b.end)
  {
    var more := blocks[b.start := b];
    forall a | a in Covered(blocks) ensures a in Covered(more) {
      var l :| l in blocks && a in Insns(blocks[l].start, blocks[l].end);
      assert l in more && more[l] == blocks[l];
    }
    forall a | a in Insns(b.start, b.end) ensures a in Covered(more) {
      assert b.start in more && more[b.start] == b;
    }
  }

  /** `n_insns` so far, as long as no two blocks overlap. */
  ghost predicate Counted(blocks: map<Word, Block>, n: nat) { Disjoint(blocks) ==> n == |Covered(blocks)| }

  method AddBlock(code: Code, hints: Hints, ghost p: Prog, w: Walk, bounds: set<Word>, l: Word,
                  blocks: map<Word, Block>, n: nat, ghost done: set<Word>)
      returns (blocks': map<Word, Block>, n': nat)
    requires ProgOk(p) && Decodes(code, hints, p) && bounds == w.leaders + w.ends && l !in done
    requires blocks == BlocksOf(p, w, done) && Counted(blocks, n)
    ensures blocks' == BlocksOf(p, w, done + {l}) && Counted(blocks', n')
  {
    var b := BuildBlock(code, hints, p, w, bounds, l);
    OneMoreBlock(p, w, done, l, n);
    blocks', n' := blocks[l := b], n + (b.end - b.start) / 4;
  }

  lemma OneMoreBlock(p: Prog, w: Walk, done: set<Word>, l: Word, n: nat)
    requires ProgOk(p) && l !in done && Counted(BlocksOf(p, w, done), n)
    ensures var b := BlockOf(p, w, l);
            b.start <= b.end && BlocksOf(p, w, done)[l := b] == BlocksOf(p, w, done + {l}) &&
            Counted(BlocksOf(p, w, done + {l}), n + (b.end - b.start) / 4)
  {
    var b, blocks := BlockOf(p, w, l), BlocksOf(p, w, done);
    BlockSpan(p, w, l);
    CountGrows(blocks, b, n);
    assert blocks[l := b] == BlocksOf(p, w, done + {l});
  }

  lemma BlockSpan(p: Prog, w: Walk, l: Word)
    requires ProgOk(p)
    ensures var b := BlockOf(p, w, l); b.start == l <= b.end && (b.end - b.start) % 4 == 0
  {
  }

  lemma NoBlocks(p: Prog, w: Walk)
    requires ProgOk(p)
    ensures BlocksOf(p, w, {}) == map[] && Counted(map[], 0)
  {
    assert Covered(map[]) == {};
  }

  /** Pass two: the blocks of all leaders. */
  method PassTwo(code: Code, hints: Hints, ghost p: Prog, w: Walk) returns (blocks: map<Word, Block>, n: nat)
    requires ProgOk(p) && Decodes(code, hints, p)
    ensures blocks == BlocksOf(p, w, w.leaders) && Counted(blocks, n)
  {
    var bounds, todo := w.leaders + w.ends, w.leaders;
    blocks, n := map[], 0;
    NoBlocks(p, w);
    assert w.leaders - todo == {};
    while todo != {}
      invariant todo <= w.leaders
      invariant blocks == BlocksOf(p, w, w.leaders - todo) && Counted(blocks, n)
      decreases |todo|
    {
      var l :| l in todo;
      OneLess(w.leaders, todo, l);
      blocks, n := AddBlock(code, hints, p, w, bounds, l, blocks, n, w.leaders - todo);
      todo := todo - {l};
    }
    assert w.leaders - todo == w.leaders;
  }

  lemma OneLess(all: set<Word>, todo: set<Word>, l: Word)
    requires l in todo && todo <= all
    ensures all - (todo - {l}) == all - todo + {l} && |todo - {l}| < |todo|
  {
  }

  /* ---- build and discover ---- */

  class R4300 {
    const code: Code
    const hints: Hints
    var funcs: map<Word, Func>

    constructor (code: Code, hints: Hints)
      requires CodeOk(code)
      ensures this.code == code && this.hints == hints && funcs == map[] && Valid()
    {
      this.code, this.hints, this.funcs := code, hints, map[];
    }

    ghost function P(): Prog
      requires CodeOk(code)
    {
      Decoded(code, hints)
    }

    /** Every function is what the two passes build for its address. */
    ghost predicate Valid()
      reads this
    {
      CodeOk(code) && forall f {:trigger IsBuilt(P(), f, funcs[f])} :: f in funcs ==> IsBuilt(P(), f, funcs[f])
    }

    method Build(entry: Word)
      requires Valid()
      modifies this
      ensures Valid() && funcs.Keys == old(funcs).Keys + {entry}
      ensures forall f :: f in old(funcs) && f != entry ==> funcs[f] == old(funcs)[f]
      ensures funcs[entry].calls <= CallTargets(P())
    {
      ghost var p := P();
      var w := PassOne(code, hints, p, entry);
      var blocks, n := PassTwo(code, hints, p, w);
      var leaf := IsLeaf(w.terms, p);
      var fn := Func(entry, leaf, blocks, w.calls, n);
      assert Built(p, entry, w, fn);
      CallsAreTargets(p, entry, w);
      assert IsBuilt(p, entry, fn);
      funcs := funcs[entry := fn];
    }

    /** `fn.leaf` stays true unless a jal or a jalr was met. */
    method IsLeaf(terms: set<Word>, ghost p: Prog) returns (leaf: bool)
      requires Decodes(code, hints, p)
      ensures leaf <==> NoCalls(p, terms)
    {
      leaf := forall q :: q in terms && q in code ==> !Decode(q, code[q]).k.Call? && !Decode(q, code[q]).k.Jalr?;
    }

    method DiscoverOne(work: seq<Word>, ghost base: set<Word>, ghost all: set<Word>) returns (work': seq<Word>)
      requires Valid() && Discovering(P(), funcs, base, work, all) && work != []
      modifies this
      ensures Valid() && Discovering(P(), funcs, base, work', all)
      ensures |all - funcs.Keys| < |all - old(funcs).Keys| || (funcs == old(funcs) && |work'| < |work|)
      ensures Keeps(old(funcs), funcs)
    {
      var f, rest := work[0], work[1..];
      ElementsFirst(work);
      if f in funcs {
        return rest;
      }
      ghost var was := funcs;
      Build(f);
      work' := PushCalls(rest, funcs[f].calls);
      FunctionAdded(P(), was, funcs, f, rest, work', base, all);
    }

    /** `if(not funcs.count(callee)) work.push_back(callee)` for every callee. */
    method PushCalls(work: seq<Word>, calls: set<Word>) returns (work': seq<Word>)
      ensures Elements(work') == Elements(work) + (calls - funcs.Keys)
    {
      work' := work;
      var todo := calls;
      while todo != {}
        invariant todo <= calls && Elements(work') == Elements(work) + (calls - todo - funcs.Keys)
        decreases |todo|
      {
        var c :| c in todo;
        todo := todo - {c};
        if c !in funcs {
          assert Elements(work' + [c]) == Elements(work') + Elements([c]);
          work' := work' + [c];
        }
      }
    }

    /** The least set of functions that holds the roots, and what was there, and every function
        one of them was found to call. */
    method Discover(roots: seq<Word>)
      requires Valid() && ClosedUnder(funcs, funcs.Keys)
      modifies this
      ensures Valid() && ClosedUnder(funcs, funcs.Keys)
      ensures old(funcs).Keys + Elements(roots) <= funcs.Keys
      ensures forall s: set<Word> :: old(funcs).Keys + Elements(roots) <= s && ClosedUnder(funcs, s) ==> funcs.Keys <= s
      ensures Keeps(old(funcs), funcs)
    {
      var work := roots;
      ghost var base := funcs.Keys + Elements(roots);
      ghost var all := base + CallTargets(P());
      while work != []
        invariant Valid() && Discovering(P(), funcs, base, work, all)
        invariant Keeps(old(funcs), funcs)
        decreases |all - funcs.Keys|, |work|
      {
        work := DiscoverOne(work, base, all);
      }
    }
  }

  /** Whoever a function of `s` calls is in `s`. */
  ghost predicate ClosedUnder(funcs: map<Word, Func>, s: set<Word>) {
    forall f :: f in s && f in funcs ==> funcs[f].calls <= s
  }

  ghost predicate Keeps(was: map<Word, Func>, now: map<Word, Func>) {
    forall f :: f in was ==> f in now && now[f] == was[f]
  }

  /** What the worklist of discover keeps.  `base` is what it began with, `all` what it can reach. */
  ghost predicate Discovering(p: Prog, funcs: map<Word, Func>, base: set<Word>, work: seq<Word>, all: set<Word>) {
    && base <= funcs.Keys + Elements(work) <= all && CallTargets(p) <= all
    && (forall f :: f in funcs ==> funcs[f].calls <= funcs.Keys + Elements(work))
    && (forall s: set<Word> {:trigger ClosedUnder(funcs, s)} :: base <= s && ClosedUnder(funcs, s) ==>
       funcs.Keys + Elements(work) <= s)
  }

  lemma FunctionAdded(p: Prog, was: map<Word, Func>, now: map<Word, Func>, f: Word, rest: seq<Word>, work: seq<Word>,
                      base: set<Word>, all: set<Word>)
    requires Keeps(was, now) && now.Keys == was.Keys + {f} && f !in was
    requires base <= was.Keys + ({f} + Elements(rest)) <= all && CallTargets(p) <= all && now[f].calls <= CallTargets(p)
    requires forall g :: g in was ==> was[g].calls <= was.Keys + ({f} + Elements(rest))
    requires forall s: set<Word> {:trigger ClosedUnder(was, s)} :: base <= s && ClosedUnder(was, s) ==>
             was.Keys + ({f} + Elements(rest)) <= s
    requires Elements(work) == Elements(rest) + (now[f].calls - now.Keys)
    ensures Discovering(p, now, base, work, all) && |all - now.Keys| < |all - was.Keys|
  {
    FewerLeft(all, was.Keys, now.Keys);
    forall s: set<Word> | base <= s && ClosedUnder(now, s) ensures now.Keys + Elements(work) <= s {
      ClosedBefore(was, now, s);
    }
  }

  lemma ClosedBefore(was: map<Word, Func>, now: map<Word, Func>, s: set<Word>)
    requires ClosedUnder(now, s) && Keeps(was, now)
    ensures ClosedUnder(was, s)
  {
  }

  function CallTargets(p: Prog): set<Word> {
    set q, f | q in p.ctl && IsTerm(p, q) && f in CallsOf(p, q) :: f
  }

  lemma CallsAreTargets(p: Prog, entry: Word, w: Walk)
    requires ProgOk(p) && WalkDone(p, entry, w)
    ensures w.calls <= CallTargets(p)
  {
    forall f | f in w.calls ensures f in CallTargets(p) {
      assert CallFound(p, w, f);
    }
  }
}
