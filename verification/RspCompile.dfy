/** The codegen context (rspFunc.cc) and `rspbt::impl::compile`. */
module RspCompile {
  import opened Collections
  import opened Bits
  import opened RspState
  import opened RspControl
  import opened RspDecode
  import opened BlockGraph
  import opened CallStrings
  import opened Walk
  import opened Simulation

  class RspFunc {
    var contexts: seq<CallString>
    var contextIds: map<CallString, nat>
    var created: set<Key>          // the blocks blockFor() has handed out
    var filled: map<Key, Block>    // those whose text has been emitted

    function T(): Table reads this { Table(contexts, contextIds) }

    ghost predicate Valid() reads this { TableOk(T()) }

    constructor ()
      ensures Valid() && T() == EMPTY_TABLE && created == {} && filled == map[]
    {
      contexts, contextIds := [[]], map[[] := 0];
      created, filled := {}, map[];
      new;
      EmptyOk();
    }

    method PushCtx(ctxId: nat, link: Addr) returns (id: nat)
      requires Valid() && ctxId < |contexts|
      modifies this`contexts, this`contextIds
      ensures Valid() && T() == PushTable(old(T()), ctxId, link) && id == PushId(old(T()), ctxId, link)
      ensures Extends(old(T()), T()) && id < |contexts|
    {
      PushOk(T(), ctxId, link);
      var cs := contexts[ctxId];
      if |cs| >= MAX_CALL_DEPTH {
        return 0;
      }
      cs := cs + [link];
      if cs in contextIds {
        return contextIds[cs];
      }
      id := |contexts|;
      contexts, contextIds := contexts + [cs], contextIds[cs := id];
    }

    method PopCtx(ctxId: nat) returns (id: nat)
      requires Valid() && 0 < ctxId < |contexts|
      ensures ContextOk(T(), ctxId) && contexts[ctxId] != [] && id == PopId(T(), ctxId) && id < |contexts|
    {
      KnownContext(T(), 0);
      KnownContext(T(), ctxId);
      assert Knows(T(), Front(contexts[ctxId]));
      id := contextIds[Front(contexts[ctxId])];
    }

    method BlockFor(k: Key)
      modifies this`created
      ensures created == old(created) + {k}
    {
      created := created + {k};
    }

    /** indirectJump: the cases of the switch a register jump in context `cx` becomes. */
    method IndirectCases(cx: nat, roots: set<Addr>) returns (cases: map<Addr, Key>)
      requires Valid() && cx < |contexts|
      modifies this`created
      ensures Valid() && created == old(created) + cases.Values
      ensures forall a :: a in cases ==> cases[a].addr == a
      ensures cx == 0 ==> cases == map r | r in roots :: Key(r, 0)
      ensures cx != 0 ==> contexts[cx] != [] && Front(contexts[cx]) in contextIds &&
                          cases == map[Back(contexts[cx]) := ReturnKey(T(), cx)]
    {
      if cx != 0 {
        var up := PopCtx(cx);
        var link := Back(contexts[cx]);
        BlockFor(Key(link, up));
        cases := map[link := Key(link, up)];
        assert cases[link] == Key(link, up);
      } else {
        cases := map r | r in roots :: Key(r, 0);
        created := created + cases.Values;
      }
    }
  }

  /** The control case of the walk: list the successors of the instruction at `a`. */
  method ListSuccs(f: RspFunc, im: Image, a: Addr, cx: nat) returns (succ: seq<Key>)
    requires f.Valid() && cx < |f.contexts| && IsControl(WordAt(im, a))
    modifies f`contexts, f`contextIds
    ensures f.Valid() && Extends(old(f.T()), f.T()) && cx < |f.contexts|
    ensures Classify(WordAt(im, a)).Call? ==> PushTable(f.T(), cx, LinkOf(a)) == f.T()
    ensures cx != 0 ==> f.contexts[cx] != [] && Front(f.contexts[cx]) in f.contextIds
    ensures succ == Succs(im, f.T(), a, cx)
    ensures forall k :: k in succ ==> Numbered(f.T(), k)
  {
    var w, link := WordAt(im, a), LinkOf(a);
    KnownContext(f.T(), cx);
    succ := [];
    if Classify(w).Branch? {
      succ := [Key(BranchTarget(w, a), cx), Key(link, cx)];
    } else if Classify(w).Jump? {
      succ := [Key(JumpTarget(w), cx)];
    } else if Classify(w).Call? {
      ghost var t := f.T();
      var id := f.PushCtx(cx, link);
      RepushSame(t, cx, link, f.T());
      KnownContext(f.T(), cx);
      succ := [Key(JumpTarget(w), id)];
    } else if cx != 0 {
      var id := f.PopCtx(cx);
      succ := [Key(Back(f.contexts[cx]), id)];
    }
  }

  /** `if(leaders.insert(k).second) work.push_back(k)` for every key of `succ`. */
  method AddLeaders(succ: seq<Key>, leaders0: set<Key>, work0: seq<Key>) returns (leaders: set<Key>, work: seq<Key>)
    ensures leaders == leaders0 + Elements(succ)
    ensures Elements(work) == Elements(work0) + (leaders - leaders0)
    ensures leaders == leaders0 ==> work == work0
  {
    leaders, work := leaders0, work0;
    for i := 0 to |succ|
      invariant leaders == leaders0 + Elements(succ[..i])
      invariant Elements(work) == Elements(work0) + (leaders - leaders0)
      invariant leaders == leaders0 ==> work == work0
    {
      assert succ[..i + 1] == succ[..i] + [succ[i]];
      ElementsAppend(succ[..i], succ[i]);
      ElementsAppend(work, succ[i]);
      if succ[i] !in leaders {
        leaders, work := leaders + {succ[i]}, work + [succ[i]];
      }
    }
    assert succ[..|succ|] == succ;
  }

  /** The transfer at `k`, just walked: its successors become leaders, and work if they are new. */
  method WalkControl(f: RspFunc, im: Image, k: Key, leaders0: set<Key>, ghost walked0: set<Key>, roots0: set<Addr>,
                     work0: seq<Key>)
      returns (leaders: set<Key>, roots: set<Addr>, work: seq<Key>)
    requires f.Valid() && WalkOk(im, State(f.T(), leaders0, walked0, roots0), {k})
    requires IsControl(WordAt(im, k.addr))
    modifies f`contexts, f`contextIds
    ensures f.Valid() && WalkOk(im, State(f.T(), leaders, walked0 + {k}, roots), {})
    ensures Extends(old(f.T()), f.T()) && leaders0 <= leaders && roots0 <= roots
    ensures Elements(work) == Elements(work0) + (leaders - leaders0)
    ensures leaders == leaders0 ==> work == work0
  {
    ghost var s := State(f.T(), leaders0, walked0, roots0);
    assert k in s.leaders + s.walked + {k};
    var succ := ListSuccs(f, im, k.addr, k.ctx);
    roots := roots0;
    if Classify(WordAt(im, k.addr)).CallReg? {
      roots := roots + {LinkOf(k.addr)};
    }
    leaders, work := AddLeaders(succ, leaders0, work0);
    EndAt(im, s, k, State(f.T(), leaders, walked0 + {k}, roots));
  }

  /** The walk stands at `k`: it takes it, and says whether it goes on to the next word. */
  method WalkOne(f: RspFunc, im: Image, k: Key, leaders0: set<Key>, walked0: set<Key>, roots0: set<Addr>,
                 work0: seq<Key>)
      returns (on: bool, leaders: set<Key>, walked: set<Key>, roots: set<Addr>, work: seq<Key>)
    requires f.Valid() && WalkOk(im, State(f.T(), leaders0, walked0, roots0), {k})
    modifies f`contexts, f`contextIds
    ensures f.Valid() && WalkOk(im, State(f.T(), leaders, walked, roots), if on then {Key(Next(k.addr), k.ctx)} else {})
    ensures Grows(State(old(f.T()), leaders0, walked0, roots0), State(f.T(), leaders, walked, roots))
    ensures walked == walked0 + {k} && Moved(leaders0, work0, leaders, walked, work)
    ensures on ==> k !in walked0 && f.T() == old(f.T()) && leaders == leaders0 && roots == roots0 && work == work0
  {
    on, leaders, walked, roots, work := false, leaders0, walked0 + {k}, roots0, work0;
    ghost var s := State(f.T(), leaders0, walked0, roots0);
    var w := WordAt(im, k.addr);
    if k in walked0 {
      leaders := leaders + {k};          // two walked lines meet here
      StopAt(im, s, k);
    } else if !Translatable(im, k.addr) || Classify(w).Break? {
      StopAt(im, s, k);
    } else if IsControl(w) {
      leaders, roots, work := WalkControl(f, im, k, leaders0, walked0, roots0, work0);
    } else {
      PassOver(im, s, k);
      on := true;
    }
  }

  /** New leaders have been walked or wait. */
  ghost predicate Moved(leaders0: set<Key>, work0: seq<Key>, leaders: set<Key>, walked: set<Key>, work: seq<Key>) {
    && leaders <= leaders0 + walked + Elements(work)
    && Elements(work0) <= Elements(work) <= Elements(work0) + leaders
    && (leaders == leaders0 ==> work == work0)
  }

  /** One item of the worklist: straight-line code from `k` up to a transfer, a BREAK, a word
      that is not translatable or code already seen. */
  method WalkFrom(f: RspFunc, im: Image, k: Key, leaders0: set<Key>, walked0: set<Key>, roots0: set<Addr>,
                  work0: seq<Key>)
      returns (leaders: set<Key>, walked: set<Key>, roots: set<Addr>, work: seq<Key>)
    requires f.Valid() && WalkOk(im, State(f.T(), leaders0, walked0, roots0), {}) && Numbered(f.T(), k)
    modifies f`contexts, f`contextIds
    ensures f.Valid() && WalkOk(im, State(f.T(), leaders, walked, roots), {})
    ensures Grows(State(old(f.T()), leaders0, walked0, roots0), State(f.T(), leaders, walked, roots))
    ensures k in walked && Moved(leaders0, work0, leaders, walked, work)
  {
    leaders, walked, roots, work := leaders0, walked0, roots0, work0;
    var at, on := k, true;
    StartAt(im, State(f.T(), leaders, walked, roots), k);
    while on
      invariant f.Valid() && WalkOk(im, State(f.T(), leaders, walked, roots), if on then {at} else {})
      invariant Grows(State(old(f.T()), leaders0, walked0, roots0), State(f.T(), leaders, walked, roots))
      invariant on ==> f.T() == old(f.T()) && leaders == leaders0 && work == work0
      invariant Moved(leaders0, work0, leaders, walked, work) && (k in walked || (on && at == k))
      decreases on, KeysLeft(f.T(), walked)
    {
      ghost var s, was := State(f.T(), leaders, walked, roots), at;
      on, leaders, walked, roots, work := WalkOne(f, im, at, leaders, walked, roots, work);
      if on {
        at := Key(Next(at.addr), at.ctx);
        LeftAfter(im, s, was, walked);
      }
    }
  }

  lemma StartAt(im: Image, s: State, k: Key)
    requires WalkOk(im, s, {}) && Numbered(s.t, k)
    ensures WalkOk(im, s, {k})
  {
    WalkStays(im, s, {}, s, {k});
  }

  lemma LeftAfter(im: Image, s: State, k: Key, walked: set<Key>)
    requires WalkOk(im, s, {k}) && k !in s.walked && walked == s.walked + {k}
    ensures KeysLeft(s.t, walked) < KeysLeft(s.t, s.walked)
  {
    assert k in s.leaders + s.walked + {k};
    FewerKeysLeft(s.t, s.walked, k, walked);
  }

  /** What the worklist loop keeps: every leader is walked or waits. */
  ghost predicate Draining(im: Image, s: State, work: seq<Key>) {
    WalkOk(im, s, {}) && s.leaders <= s.walked + Elements(work) && Elements(work) <= s.leaders
  }

  /** The last item of the worklist. */
  method DrainOne(f: RspFunc, im: Image, leaders0: set<Key>, walked0: set<Key>, roots0: set<Addr>, work0: seq<Key>)
      returns (leaders: set<Key>, walked: set<Key>, roots: set<Addr>, work: seq<Key>)
    requires f.Valid() && Draining(im, State(f.T(), leaders0, walked0, roots0), work0) && work0 != []
    modifies f`contexts, f`contextIds
    ensures f.Valid() && Draining(im, State(f.T(), leaders, walked, roots), work)
    ensures leaders0 <= leaders && roots0 <= roots
    ensures KeysLeft(f.T(), leaders) < KeysLeft(old(f.T()), leaders0) ||
            (KeysLeft(f.T(), leaders) == KeysLeft(old(f.T()), leaders0) && |work| < |work0|)
  {
    var k, rest := work0[|work0| - 1], work0[..|work0| - 1];
    assert work0 == rest + [k];
    ElementsAppend(rest, k);
    leaders, walked, roots, work := WalkFrom(f, im, k, leaders0, walked0, roots0, rest);
    StillCovered(leaders0, walked0, Elements(rest), k, leaders, walked, Elements(work));
    KeysLeftShrinks(old(f.T()), f.T(), leaders0, leaders);
  }

  /** The worklist until it is empty. */
  method Drain(f: RspFunc, im: Image, leaders0: set<Key>, walked0: set<Key>, roots0: set<Addr>, work0: seq<Key>)
      returns (leaders: set<Key>, walked: set<Key>, roots: set<Addr>)
    requires f.Valid() && Draining(im, State(f.T(), leaders0, walked0, roots0), work0)
    modifies f`contexts, f`contextIds
    ensures f.Valid() && WalkOk(im, State(f.T(), leaders, walked, roots), {})
    ensures leaders0 <= leaders <= walked && roots0 <= roots
  {
    leaders, walked, roots := leaders0, walked0, roots0;
    var work := work0;
    while work != []
      invariant f.Valid() && Draining(im, State(f.T(), leaders, walked, roots), work)
      invariant leaders0 <= leaders && roots0 <= roots
      decreases KeysLeft(f.T(), leaders), |work|
    {
      leaders, walked, roots, work := DrainOne(f, im, leaders, walked, roots, work);
    }
  }

  /** Every leader is walked or waits, before and after one item is walked. */
  lemma StillCovered(l0: set<Key>, w0: set<Key>, rest: set<Key>, k: Key, l: set<Key>, w: set<Key>, work: set<Key>)
    requires l0 <= w0 + (rest + {k}) && rest + {k} <= l0 && l0 <= l
    requires w0 <= w && k in w && l <= l0 + w + work && rest <= work <= rest + l
    ensures l <= w + work && work <= l
  {
  }

  /** Pass 1: everything reachable from the roots, and every block leader; again whenever the
      return site of a jalr turned out to be a new root. */
  method Pass1(f: RspFunc, im: Image, roots0: set<Addr>) returns (leaders: set<Key>, walked: set<Key>, roots: set<Addr>)
    requires f.Valid()
    modifies f`contexts, f`contextIds
    ensures f.Valid() && WalkDone(im, State(f.T(), leaders, walked, roots))
    ensures roots0 <= roots
  {
    leaders, walked, roots := {}, {}, roots0;
    var rootsChanged := true;
    while rootsChanged
      invariant f.Valid() && roots0 <= roots && leaders <= walked
      invariant WalkOk(im, State(f.T(), leaders, walked, roots), {})
      invariant rootsChanged || forall r :: r in roots ==> Key(r, 0) in leaders
      decreases |AllAddrs() - roots|, if rootsChanged then 1 else 0
    {
      var before, work := roots, [];
      leaders, work := AddRoots(f, im, leaders, walked, roots);
      leaders, walked, roots := Drain(f, im, leaders, walked, roots, work);
      rootsChanged := roots != before;
      RootsLeftShrink(before, roots);
    }
  }

  lemma KeysLeftShrinks(t: Table, later: Table, ks: set<Key>, more: set<Key>)
    requires TableOk(later) && Extends(t, later) && ks <= more
    requires (forall x :: x in ks ==> Numbered(t, x)) && (forall x :: x in more ==> Numbered(later, x))
    ensures KeysLeft(later, more) <= KeysLeft(t, ks)
    ensures ks != more ==> KeysLeft(later, more) < KeysLeft(t, ks)
  {
    NoMoreKeysLeft(t, later, ks, ks);
    NoMoreKeysLeft(t, later, ks, more);
    if ks != more {
      var k :| k in more && k !in ks;
      FewerKeysLeft(later, ks, k, more);
    }
  }

  lemma RootsLeftShrink(before: set<Addr>, roots: set<Addr>)
    requires before <= roots
    ensures before != roots ==> |AllAddrs() - roots| < |AllAddrs() - before|
    ensures |AllAddrs() - roots| <= |AllAddrs() - before|
  {
    SizeMonotone(AllAddrs() - roots, AllAddrs() - before);
    if before != roots {
      var r :| r in roots && r !in before;
      SubsetSize(AllAddrs() - roots, AllAddrs() - before, r);
    }
  }

  /** The roots become leaders of context 0, and work if they were not leaders before. */
  method AddRoots(f: RspFunc, im: Image, leaders0: set<Key>, walked: set<Key>, roots: set<Addr>)
      returns (leaders: set<Key>, work: seq<Key>)
    requires f.Valid() && WalkOk(im, State(f.T(), leaders0, walked, roots), {}) && leaders0 <= walked
    ensures WalkOk(im, State(f.T(), leaders, walked, roots), {})
    ensures leaders0 <= leaders <= walked + Elements(work) && Elements(work) <= leaders
    ensures forall r :: r in roots ==> Key(r, 0) in leaders
  {
    leaders, work := leaders0, [];
    var todo := roots;
    while todo != {}
      invariant todo <= roots && leaders0 <= leaders
      invariant leaders <= walked + Elements(work) && Elements(work) <= leaders
      invariant forall k :: k in leaders - leaders0 ==> k.ctx == 0
      invariant forall r :: r in roots - todo ==> Key(r, 0) in leaders
      decreases |todo|
    {
      var r :| r in todo;
      todo := todo - {r};
      var k := Key(r, 0);
      if k !in leaders {
        leaders, work := leaders + {k}, work + [k];
      }
    }
    KnownContext(f.T(), 0);
    WalkStays(im, State(f.T(), leaders0, walked, roots), {}, State(f.T(), leaders, walked, roots), {});
  }

  /** `a` has been walked in context `cx`, so whatever its instruction names is a leader. */
  lemma WalkedControl(im: Image, s: State, a: Addr, cx: nat)
    requires WalkDone(im, s) && Key(a, cx) in s.walked && Translatable(im, a)
    ensures Numbered(s.t, Key(a, cx)) && ContextOk(s.t, cx) && (cx != 0 ==> s.t.contexts[cx] != [])
    ensures Classify(WordAt(im, a)).PlainInsn? ==> Key(Next(a), cx) in s.walked
    ensures Classify(WordAt(im, a)).Call? ==> PushTable(s.t, cx, LinkOf(a)) == s.t
    ensures forall x :: x in Succs(im, s.t, a, cx) ==> x in s.leaders
  {
    assert WalkedOk(im, s, Key(a, cx), {});
    KnownContext(s.t, cx);
  }

  predicate Pops(t: Table, cx: nat) {
    cx < |t.contexts| && (cx != 0 ==> t.contexts[cx] != [] && Front(t.contexts[cx]) in t.ids)
  }

  lemma WalkedPops(im: Image, s: State, k: Key)
    requires WalkOk(im, s, {}) && k in s.walked
    ensures Pops(s.t, k.ctx)
  {
    assert k in s.leaders + s.walked + {};
    assert Numbered(s.t, k);
    KnownContext(s.t, k.ctx);
  }

  /** A block of context `cx` goes on in its own context, enters a call in the context of the
      call, and returns to the context of the caller; outside every call a register jump
      dispatches over the roots. */
  predicate InContext(t: Table, roots: set<Addr>, cx: nat, term: Term) {
    && Pops(t, cx)
    && match term
       case Fall(to) => to.ctx == cx
       case CondBr(_, _, taken, notTaken) => taken.ctx == cx && notTaken.ctx == cx
       case Br(link, _, to) => to.ctx == (if link.NoLink? then cx else PushId(t, cx, link.value))
       case Switch(_, _, _, cases) =>
         cases == if cx == 0 then map r | r in roots :: Key(r, 0) else map[Back(t.contexts[cx]) := ReturnKey(t, cx)]
       case _ => true
  }

  /** generateIR of the transfer at `a`, handed its delay slot. */
  method EmitControl(f: RspFunc, im: Image, ghost s: State, roots: set<Addr>, a: Addr, cx: nat) returns (t: Term)
    requires f.Valid() && f.T() == s.t && WalkDone(im, s) && roots <= s.roots
    requires Key(a, cx) in s.walked && IsControl(WordAt(im, a)) && Translatable(im, a)
    modifies f`contexts, f`contextIds, f`created
    ensures f.T() == s.t && f.created == old(f.created) + Targets(t)
    ensures FaithfulTerm(im, t, a) && !t.Fall? && Targets(t) <= s.leaders
    ensures InContext(s.t, roots, cx, t)
  {
    WalkedControl(im, s, a, cx);
    var w, slot, link := WordAt(im, a), WordAt(im, Next(a)), LinkOf(a);
    if Classify(w).Branch? {
      f.BlockFor(Key(BranchTarget(w, a), cx));
      f.BlockFor(Key(link, cx));
      t := CondBr(w, slot, Key(BranchTarget(w, a), cx), Key(link, cx));
      assert Succs(im, s.t, a, cx) == [t.taken, t.notTaken];
      assert t.taken in Succs(im, s.t, a, cx) && t.notTaken in Succs(im, s.t, a, cx);
    } else if Classify(w).Jump? {
      f.BlockFor(Key(JumpTarget(w), cx));
      t := Br(NoLink, slot, Key(JumpTarget(w), cx));
      assert t.to in Succs(im, s.t, a, cx);
    } else if Classify(w).Call? {
      var id := f.PushCtx(cx, link);
      f.BlockFor(Key(JumpTarget(w), id));
      t := Br(LinkTo(31, link), slot, Key(JumpTarget(w), id));
      assert t.to in Succs(im, s.t, a, cx);
    } else {
      t := EmitDispatch(f, im, s, roots, a, cx);
    }
  }

  /** jr and jalr. */
  method EmitDispatch(f: RspFunc, im: Image, ghost s: State, roots: set<Addr>, a: Addr, cx: nat) returns (t: Term)
    requires f.Valid() && f.T() == s.t && WalkDone(im, s) && roots <= s.roots
    requires Key(a, cx) in s.walked && Translatable(im, a)
    requires Classify(WordAt(im, a)).JumpReg? || Classify(WordAt(im, a)).CallReg?
    modifies f`created
    ensures f.T() == s.t && f.created == old(f.created) + Targets(t)
    ensures FaithfulTerm(im, t, a) && t.Switch? && Targets(t) <= s.leaders
    ensures InContext(s.t, roots, cx, t)
  {
    WalkedControl(im, s, a, cx);
    var w, slot := WordAt(im, a), WordAt(im, Next(a));
    var cases := f.IndirectCases(cx, roots);
    t := Switch(Rs(w), if Classify(w).JumpReg? then NoLink else LinkTo(Rd(w), LinkOf(a)), slot, cases);
    if cx != 0 {
      assert ReturnKey(s.t, cx) in Succs(im, s.t, a, cx);
      assert forall x :: x in cases.Values ==> x == ReturnKey(s.t, cx);
    }
  }

  lemma PlainRunAppend(im: Image, body: seq<Word>, a: Addr)
    requires PlainRun(im, body, a)
    requires Classify(WordAt(im, AddrAt(a, |body|))).PlainInsn?
    ensures PlainRun(im, body + [WordAt(im, AddrAt(a, |body|))], a)
  {
    var x := WordAt(im, AddrAt(a, |body|));
    var more := body + [x];
    AddrAtNext(a, if body == [] then 0 else |body| - 1);
    if body == [] {
      assert more[0] == x && more[1..] == [];
    } else {
      PlainRunAppend(im, body[1..], Next(a));
      assert more[0] == body[0] && more[1..] == body[1..] + [x];
    }
  }

  lemma AddrAtStep(a: Addr, n: nat)
    ensures AddrAt(Next(a), n) == AddrAt(a, n + 1) == Next(AddrAt(a, n))
    ensures n == 0x3ff ==> AddrAt(a, n + 1) == a
  {
    assert (a + 1 - 0x400 + n) % 0x400 == (a + 1 + n) % 0x400;
  }

  /** What ends a block at `a`, if the instruction there does. */
  method EmitEnd(f: RspFunc, im: Image, ghost s: State, roots: set<Addr>, a: Addr, cx: nat)
      returns (ends: bool, t: Term)
    requires f.Valid() && f.T() == s.t && WalkDone(im, s) && roots <= s.roots && Key(a, cx) in s.walked
    modifies f`contexts, f`contextIds, f`created
    ensures f.T() == s.t && old(f.created) <= f.created <= old(f.created) + s.leaders
    ensures ends ==> FaithfulTerm(im, t, a) && !t.Fall? && Targets(t) <= s.leaders && InContext(s.t, roots, cx, t)
    ensures !ends ==> Classify(WordAt(im, a)).PlainInsn? && Key(Next(a), cx) in s.walked && f.created == old(f.created)
  {
    var w := WordAt(im, a);
    WalkedPops(im, s, Key(a, cx));
    if !Translatable(im, a) {
      return true, ExitAt(a);
    }
    if IsControl(w) {
      t := EmitControl(f, im, s, roots, a, cx);
      return true, t;
    }
    if Classify(w).Break? {
      return true, HaltExit;
    }
    WalkedControl(im, s, a, cx);
    return false, HaltExit;
  }

  /** Block `b` is what pass 2 emits for leader `k`, out of addresses walked in its context. */
  ghost predicate EmittedFor(im: Image, s: State, roots: set<Addr>, k: Key, b: Block) {
    && b.start == k.addr && FaithfulBlock(im, b) && Targets(b.term) <= s.leaders && InContext(s.t, roots, k.ctx, b.term)
    && forall j :: 0 <= j < |b.body| ==> Key(AddrAt(k.addr, j), k.ctx) in s.walked
  }

  /** Pass 2 is at `a`, with `body` emitted for leader `k`. */
  ghost predicate OnLine(im: Image, s: State, k: Key, body: seq<Word>, a: Addr) {
    && |body| < 0x400 && a == AddrAt(k.addr, |body|) && PlainRun(im, body, k.addr) && Key(a, k.ctx) in s.walked
    && forall j :: 0 <= j < |body| ==> Key(AddrAt(k.addr, j), k.ctx) in s.walked
  }

  lemma LineGrows(im: Image, s: State, k: Key, body: seq<Word>, a: Addr)
    requires OnLine(im, s, k, body, a) && Classify(WordAt(im, a)).PlainInsn? && Key(Next(a), k.ctx) in s.walked
    ensures var more := body + [WordAt(im, a)];
            Next(a) == AddrAt(k.addr, |more|) && PlainRun(im, more, k.addr) &&
            (|body| == 0x3ff ==> Next(a) == k.addr) &&
            forall j :: 0 <= j < |more| ==> Key(AddrAt(k.addr, j), k.ctx) in s.walked
  {
    PlainRunAppend(im, body, k.addr);
    AddrAtStep(k.addr, |body|);
    var more := body + [WordAt(im, a)];
    assert |more| == |body| + 1;
    forall j | 0 <= j < |more| ensures Key(AddrAt(k.addr, j), k.ctx) in s.walked {
      if j == |body| {
        assert AddrAt(k.addr, j) == a;
      }
    }
  }

  /** Pass 2 for one leader.  The straight line ends because it comes back to the leader
      itself after 1024 words. */
  method EmitBlock(f: RspFunc, im: Image, ghost s: State, leaders: set<Key>, roots: set<Addr>, k: Key)
      returns (b: Block)
    requires f.Valid() && f.T() == s.t && WalkDone(im, s) && roots <= s.roots
    requires leaders == s.leaders && k in leaders
    modifies f`contexts, f`contextIds, f`created
    ensures f.T() == s.t && old(f.created) <= f.created <= old(f.created) + leaders
    ensures EmittedFor(im, s, roots, k, b)
  {
    WalkedPops(im, s, k);
    var a, body := k.addr, [];
    while true
      invariant f.T() == s.t && f.created == old(f.created) && OnLine(im, s, k, body, a)
      decreases 0x400 - |body|
    {
      var ends, t := EmitEnd(f, im, s, roots, a, k.ctx);
      if ends {
        b := Block(k.addr, body, t);
        LineEmitted(im, s, roots, k, b);
        return;
      }
      LineGrows(im, s, k, body, a);
      body, a := body + [WordAt(im, a)], Next(a);
      if Key(a, k.ctx) in leaders {
        f.BlockFor(Key(a, k.ctx));
        b := Block(k.addr, body, Fall(Key(a, k.ctx)));
        LineEmitted(im, s, roots, k, b);
        return;
      }
    }
  }

  lemma LineEmitted(im: Image, s: State, roots: set<Addr>, k: Key, b: Block)
    requires b.start == k.addr && PlainRun(im, b.body, k.addr) && FaithfulTerm(im, b.term, AddrAt(k.addr, |b.body|))
    requires Targets(b.term) <= s.leaders && (b.term.Fall? ==> b.body != []) && InContext(s.t, roots, k.ctx, b.term)
    requires forall j :: 0 <= j < |b.body| ==> Key(AddrAt(k.addr, j), k.ctx) in s.walked
    ensures EmittedFor(im, s, roots, k, b)
  {
  }

  /** Pass 2: the text of every leader, each filled once; no block is created and left empty. */
  method Pass2(f: RspFunc, im: Image, ghost s: State, leaders: set<Key>, roots: set<Addr>)
    requires f.Valid() && f.T() == s.t && WalkDone(im, s) && roots <= s.roots
    requires leaders == s.leaders && f.created <= leaders && f.filled == map[]
    modifies f
    ensures f.T() == s.t && f.created == f.filled.Keys == leaders
    ensures forall k :: k in f.filled ==> EmittedFor(im, s, roots, k, f.filled[k])
  {
    var todo := leaders;
    while todo != {}
      invariant f.Valid() && f.T() == s.t && todo <= leaders
      invariant f.filled.Keys == leaders - todo <= f.created <= leaders
      invariant forall k :: k in f.filled ==> EmittedFor(im, s, roots, k, f.filled[k])
      decreases |todo|
    {
      var k :| k in todo;
      assert leaders - (todo - {k}) == leaders - todo + {k};
      todo := todo - {k};
      FillBlock(f, im, s, leaders, roots, k);
    }
  }

  method FillBlock(f: RspFunc, im: Image, ghost s: State, leaders: set<Key>, roots: set<Addr>, k: Key)
    requires f.Valid() && f.T() == s.t && WalkDone(im, s) && roots <= s.roots
    requires leaders == s.leaders && k in leaders && k !in f.filled && f.created <= leaders
    modifies f
    ensures f.T() == s.t && old(f.created) + {k} <= f.created <= leaders
    ensures f.filled.Keys == old(f.filled).Keys + {k} && EmittedFor(im, s, roots, k, f.filled[k])
    ensures forall j :: j in old(f.filled) ==> f.filled[j] == old(f.filled)[j]
  {
    f.BlockFor(k);
    var b := EmitBlock(f, im, s, leaders, roots, k);
    f.filled := f.filled[k := b];
  }

  lemma TranslationOk(im: Image, s: State, g: Graph, roots: set<Addr>)
    requires WalkDone(im, s) && roots <= s.roots && g.blocks.Keys == s.leaders
    requires g.entry == map r | r in roots :: Key(r, 0)
    requires forall k :: k in g.blocks ==> EmittedFor(im, s, roots, k, g.blocks[k])
    ensures Translates(g, im)
  {
    forall k | k in g.blocks ensures BlockOk(g, im, k) {
      assert EmittedFor(im, s, roots, k, g.blocks[k]);
    }
    forall a | a in g.entry ensures EntryOk(g, a) {}
  }

  /** compile(): the roots it leaves behind are those that are code, and `t` numbers the call
      strings its blocks are specialised for. */
  method Compile(im: Image, roots0: set<Addr>) returns (g: Graph, roots: set<Addr>, ghost t: Table)
    ensures Translates(g, im) && g.entry == map r | r in roots :: Key(r, 0)
    ensures forall r :: r in roots ==> Translatable(im, r)
    ensures forall r :: r in roots0 && Translatable(im, r) ==> r in roots
    ensures TableOk(t) && forall k :: k in g.blocks ==> InContext(t, roots, k.ctx, g.blocks[k].term)
  {
    var f := new RspFunc();
    var leaders, walked, all := Pass1(f, im, roots0);
    ghost var s := State(f.T(), leaders, walked, all);
    roots := set r | r in all && Translatable(im, r);
    t := s.t;
    KnownContext(f.T(), 0);
    var entry := f.IndirectCases(0, roots);
    Pass2(f, im, s, leaders, roots);
    g := Graph(f.filled, entry);
    TranslationOk(im, s, g, roots);
  }
}
