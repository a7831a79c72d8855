/** Pass 1 of compile(): what the walk has to have found when it ends, and why it ends. */
module Walk {
  import opened Collections
  import opened Bits
  import opened RspState
  import opened RspDecode
  import opened BlockGraph
  import opened CallStrings

  datatype State = State(t: Table, leaders: set<Key>, walked: set<Key>, roots: set<Addr>)

  predicate Numbered(t: Table, k: Key) { k.ctx < |t.contexts| }

  /** A return: to the caller's context, at the address on top of the call string. */
  function ReturnKey(t: Table, cx: nat): Key
    requires cx < |t.contexts| && t.contexts[cx] != [] && Front(t.contexts[cx]) in t.ids
  {
    Key(Back(t.contexts[cx]), PopId(t, cx))
  }

  /** The blocks a control instruction names in context `cx`, in the order the walk lists them.
      A register jump outside every call context names none: it dispatches over the roots. */
  function Succs(im: Image, t: Table, a: Addr, cx: nat): seq<Key>
    requires cx < |t.contexts|
    requires cx != 0 ==> t.contexts[cx] != [] && Front(t.contexts[cx]) in t.ids
  {
    var w := WordAt(im, a);
    match Classify(w)
    case Branch => [Key(BranchTarget(w, a), cx), Key(LinkOf(a), cx)]
    case Jump => [Key(JumpTarget(w), cx)]
    case Call => [Key(JumpTarget(w), PushId(t, cx, LinkOf(a)))]
    case JumpReg => if cx != 0 then [ReturnKey(t, cx)] else []
    case CallReg => if cx != 0 then [ReturnKey(t, cx)] else []
    case _ => []
  }

  /** What has to hold of a walked key: the walk went on from it. */
  ghost predicate WalkedOk(im: Image, s: State, k: Key, next: set<Key>)
    requires TableOk(s.t)
  {
    var c := Classify(WordAt(im, k.addr));
    Numbered(s.t, k) &&
    (Translatable(im, k.addr) ==>
       && (c.PlainInsn? ==> Key(Next(k.addr), k.ctx) in s.walked + next)
       && (c.Call? ==> PushTable(s.t, k.ctx, LinkOf(k.addr)) == s.t)
       && (c.CallReg? ==> LinkOf(k.addr) in s.roots)
       && (KnownContext(s.t, k.ctx); forall x :: x in Succs(im, s.t, k.addr, k.ctx) ==> x in s.leaders))
  }

  /** The invariant of the walk.  `next` holds the key the walk stands at, if any. */
  ghost predicate WalkOk(im: Image, s: State, next: set<Key>) {
    && TableOk(s.t)
    && (forall k :: k in s.leaders + s.walked + next ==> Numbered(s.t, k))
    && (forall k {:trigger WalkedOk(im, s, k, next)} :: k in s.walked ==> WalkedOk(im, s, k, next))
  }

  /** The walk is over: nothing waits, and every root is a leader. */
  ghost predicate WalkDone(im: Image, s: State) {
    && WalkOk(im, s, {})
    && s.leaders <= s.walked
    && (forall r :: r in s.roots ==> Key(r, 0) in s.leaders)
  }

  predicate Grows(s: State, later: State) {
    Extends(s.t, later.t) && s.leaders <= later.leaders && s.walked <= later.walked && s.roots <= later.roots
  }

  /** What was right of a walked key stays right as the walk finds more. */
  lemma WalkedStays(im: Image, s: State, next: set<Key>, later: State, next': set<Key>, k: Key)
    requires TableOk(s.t) && TableOk(later.t) && Grows(s, later) && WalkedOk(im, s, k, next)
    requires next <= next' + later.walked
    ensures WalkedOk(im, later, k, next')
  {
    KnownContext(s.t, k.ctx);
    KnownContext(later.t, k.ctx);
    if Translatable(im, k.addr) && Classify(WordAt(im, k.addr)).Call? {
      RepushSame(s.t, k.ctx, LinkOf(k.addr), later.t);
    }
    if k.ctx != 0 {
      assert ContextOk(s.t, k.ctx) && ContextOk(later.t, k.ctx);
      assert Knows(s.t, Front(s.t.contexts[k.ctx]));
      assert ContextOk(later.t, PopId(s.t, k.ctx));
    }
  }

  lemma WalkStays(im: Image, s: State, next: set<Key>, later: State, next': set<Key>)
    requires WalkOk(im, s, next) && TableOk(later.t) && Grows(s, later)
    requires next <= next' + later.walked
    requires forall k :: k in later.leaders + later.walked + next' ==> Numbered(later.t, k)
    requires forall k :: k in later.walked - s.walked ==> WalkedOk(im, later, k, next')
    ensures WalkOk(im, later, next')
  {
    forall k | k in later.walked ensures WalkedOk(im, later, k, next') {
      if k in s.walked {
        assert WalkedOk(im, s, k, next);
        WalkedStays(im, s, next, later, next', k);
      }
    }
  }

  /** The walk stands at `k` and takes it; it goes on at `next`. */
  lemma TakeKey(im: Image, s: State, k: Key, later: State, next: set<Key>)
    requires WalkOk(im, s, {k}) && TableOk(later.t) && Grows(s, later) && later.walked == s.walked + {k}
    requires forall x :: x in later.leaders + next ==> Numbered(later.t, x)
    requires WalkedOk(im, later, k, next)
    ensures WalkOk(im, later, next)
  {
    forall x | x in later.walked ensures Numbered(later.t, x) {
      assert x in s.leaders + s.walked + {k};
      assert Numbered(s.t, x);
    }
    WalkStays(im, s, {k}, later, next);
  }

  /** The walk stops at `k` because it cannot or need not go on. */
  lemma StopAt(im: Image, s: State, k: Key)
    requires WalkOk(im, s, {k})
    requires k in s.walked || !Translatable(im, k.addr) || Classify(WordAt(im, k.addr)).Break?
    ensures var leaders := if k in s.walked then s.leaders + {k} else s.leaders;
            WalkOk(im, s.(walked := s.walked + {k}, leaders := leaders), {})
  {
    var later := s.(walked := s.walked + {k}, leaders := if k in s.walked then s.leaders + {k} else s.leaders);
    assert k in s.leaders + s.walked + {k};
    KnownContext(s.t, k.ctx);
    if k in s.walked {
      assert later.walked == s.walked;
      WalkStays(im, s, {k}, later, {});
    } else {
      TakeKey(im, s, k, later, {});
    }
  }

  lemma PassOver(im: Image, s: State, k: Key)
    requires WalkOk(im, s, {k}) && Classify(WordAt(im, k.addr)).PlainInsn?
    ensures WalkOk(im, s.(walked := s.walked + {k}), {Key(Next(k.addr), k.ctx)})
  {
    assert k in s.leaders + s.walked + {k};
    KnownContext(s.t, k.ctx);
    TakeKey(im, s, k, s.(walked := s.walked + {k}), {Key(Next(k.addr), k.ctx)});
  }

  /** The walk ends at the transfer `k`, whose successors become leaders. */
  lemma EndAt(im: Image, s: State, k: Key, later: State)
    requires WalkOk(im, s, {k}) && IsControl(WordAt(im, k.addr))
    requires TableOk(later.t) && Grows(s, later) && later.walked == s.walked + {k} && k.ctx < |later.t.contexts|
    requires k.ctx != 0 ==> later.t.contexts[k.ctx] != [] && Front(later.t.contexts[k.ctx]) in later.t.ids
    requires forall x :: x in later.leaders - s.leaders ==> Numbered(later.t, x)
    requires forall x :: x in Succs(im, later.t, k.addr, k.ctx) ==> x in later.leaders
    requires Classify(WordAt(im, k.addr)).Call? ==> PushTable(later.t, k.ctx, LinkOf(k.addr)) == later.t
    requires Classify(WordAt(im, k.addr)).CallReg? ==> LinkOf(k.addr) in later.roots
    ensures WalkOk(im, later, {})
  {
    forall x | x in later.leaders ensures Numbered(later.t, x) {
      assert x in s.leaders ==> x in s.leaders + s.walked + {k};
    }
    TakeKey(im, s, k, later, {});
  }

  /* ---- the measure: keys are finitely many, because call strings are short ---- */

  ghost function Below(n: nat): (s: set<int>)
    ensures forall a :: a in s <==> 0 <= a < n
  {
    if n == 0 then {} else {n - 1} + Below(n - 1)
  }

  ghost function AllAddrs(): set<int> { Below(0x400) }

  ghost function Strings(n: nat): set<CallString> {
    if n == 0 then {[]} else {[]} + set a: Addr, cs | a in AllAddrs() && cs in Strings(n - 1) :: [a] + cs
  }

  ghost function AllNames(): set<(Addr, CallString)> {
    set a: Addr, cs | a in AllAddrs() && cs in Strings(MAX_CALL_DEPTH) :: (a, cs)
  }

  /** Keys by what their numbers stand for. */
  ghost function Names(t: Table, ks: set<Key>): set<(Addr, CallString)> {
    set k | k in ks && Numbered(t, k) :: (k.addr, t.contexts[k.ctx])
  }

  ghost function KeysLeft(t: Table, ks: set<Key>): nat { |AllNames() - Names(t, ks)| }

  lemma {:induction false} ShortStrings(n: nat, cs: CallString)
    requires |cs| <= n
    ensures cs in Strings(n)
  {
    if n > 0 && cs != [] {
      ShortStrings(n - 1, cs[1..]);
      assert cs == [cs[0]] + cs[1..];
    }
  }

  lemma FewerKeysLeft(t: Table, ks: set<Key>, k: Key, more: set<Key>)
    requires TableOk(t) && k !in ks && Numbered(t, k) && ks + {k} <= more
    requires forall x :: x in ks ==> Numbered(t, x)
    ensures KeysLeft(t, more) < KeysLeft(t, ks)
  {
    var name := (k.addr, t.contexts[k.ctx]);
    assert ContextOk(t, k.ctx);
    ShortStrings(MAX_CALL_DEPTH, t.contexts[k.ctx]);
    assert name in AllNames();
    forall x | x in ks ensures (x.addr, t.contexts[x.ctx]) != name {
      assert ContextOk(t, x.ctx);
    }
    assert name !in Names(t, ks);
    assert name in Names(t, more) by { assert k in more; }
    assert Names(t, ks) <= Names(t, more);
    SubsetSize(AllNames() - Names(t, more), AllNames() - Names(t, ks), name);
  }

  lemma NoMoreKeysLeft(t: Table, later: Table, ks: set<Key>, more: set<Key>)
    requires Extends(t, later) && ks <= more && forall x :: x in ks ==> Numbered(t, x)
    ensures KeysLeft(later, more) <= KeysLeft(t, ks)
  {
    assert Names(t, ks) <= Names(later, more) by {
      forall x | x in ks ensures (x.addr, t.contexts[x.ctx]) in Names(later, more) {
        assert x in more && later.contexts[x.ctx] == t.contexts[x.ctx];
      }
    }
    SizeMonotone(AllNames() - Names(later, more), AllNames() - Names(t, ks));
  }
}
