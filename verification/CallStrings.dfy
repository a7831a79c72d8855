/** The two tables that number call strings.  A call string lists where the pending calls will
    return to, innermost last; blocks are named by its number. */
module CallStrings {
  import opened Bits

  const MAX_CALL_DEPTH := 4

  type CallString = seq<Addr>

  datatype Table = Table(contexts: seq<CallString>, ids: map<CallString, nat>)

  const EMPTY_TABLE := Table([[]], map[[] := 0])

  function Front(cs: CallString): CallString
    requires cs != []
  {
    cs[..|cs| - 1]
  }

  function Back(cs: CallString): Addr
    requires cs != []
  {
    cs[|cs| - 1]
  }

  predicate Knows(t: Table, cs: CallString) {
    cs in t.ids && t.ids[cs] < |t.contexts| && t.contexts[t.ids[cs]] == cs
  }

  /** Context `i` is known by its number, is short, and so is known what it returns to. */
  predicate ContextOk(t: Table, i: nat)
    requires i < |t.contexts|
  {
    var cs := t.contexts[i];
    cs in t.ids && t.ids[cs] == i && |cs| <= MAX_CALL_DEPTH && (cs != [] ==> Front(cs) in t.ids)
  }

  /** The two directions of the table are mutually inverse, and it is prefix-closed. */
  ghost predicate TableOk(t: Table) {
    && 0 < |t.contexts| && t.contexts[0] == []
    && (forall i: nat {:trigger ContextOk(t, i)} :: i < |t.contexts| ==> ContextOk(t, i))
    && (forall cs {:trigger Knows(t, cs)} :: cs in t.ids ==> Knows(t, cs))
  }

  /** `later` has every context of `t` under the number it has in `t`. */
  predicate Extends(t: Table, later: Table) {
    t.contexts <= later.contexts
  }

  /** The context a call entered from context `id` with return address `link` runs in: 0 when
      it would be too deep to specialise. */
  function PushId(t: Table, id: nat, link: Addr): nat
    requires id < |t.contexts|
  {
    var cs := t.contexts[id] + [link];
    if |t.contexts[id]| >= MAX_CALL_DEPTH then 0
    else if cs in t.ids then t.ids[cs]
    else |t.contexts|
  }

  function PushTable(t: Table, id: nat, link: Addr): Table
    requires id < |t.contexts|
  {
    var cs := t.contexts[id] + [link];
    if |t.contexts[id]| >= MAX_CALL_DEPTH || cs in t.ids then t
    else Table(t.contexts + [cs], t.ids[cs := |t.contexts|])
  }

  function PopId(t: Table, id: nat): nat
    requires id < |t.contexts| && t.contexts[id] != [] && Front(t.contexts[id]) in t.ids
  {
    t.ids[Front(t.contexts[id])]
  }

  lemma KnownContext(t: Table, i: nat)
    requires TableOk(t) && i < |t.contexts|
    ensures ContextOk(t, i) && (i != 0 ==> t.contexts[i] != [])
  {
    assert ContextOk(t, 0) && ContextOk(t, i);
  }

  lemma EmptyOk()
    ensures TableOk(EMPTY_TABLE)
  {
    assert ContextOk(EMPTY_TABLE, 0) && Knows(EMPTY_TABLE, []);
  }

  /** A push keeps the table in order and renumbers nothing. */
  lemma PushOk(t: Table, id: nat, link: Addr)
    requires TableOk(t) && id < |t.contexts|
    ensures TableOk(PushTable(t, id, link)) && Extends(t, PushTable(t, id, link))
    ensures PushId(t, id, link) < |PushTable(t, id, link).contexts|
    ensures |t.contexts[id]| < MAX_CALL_DEPTH ==>
              PushTable(t, id, link).contexts[PushId(t, id, link)] == t.contexts[id] + [link]
    ensures |t.contexts[id]| >= MAX_CALL_DEPTH ==> PushId(t, id, link) == 0
  {
    var t', cs := PushTable(t, id, link), t.contexts[id] + [link];
    assert ContextOk(t, id);
    if t' != t {
      assert Front(cs) == t.contexts[id];
      forall i: nat | i < |t'.contexts| ensures ContextOk(t', i) {
        if i < |t.contexts| {
          assert ContextOk(t, i);
        }
      }
      forall s | s in t'.ids ensures Knows(t', s) {
        if s != cs {
          assert Knows(t, s);
        }
      }
    } else if cs in t.ids {
      assert Knows(t, cs);
    }
  }

  /** popCtx never misses its lookup, and undoes every push below the depth bound. */
  lemma PopUndoesPush(t: Table, id: nat, link: Addr)
    requires TableOk(t) && id < |t.contexts| && |t.contexts[id]| < MAX_CALL_DEPTH
    ensures var t', inner := PushTable(t, id, link), PushId(t, id, link);
            inner < |t'.contexts| && t'.contexts[inner] != [] && Back(t'.contexts[inner]) == link &&
            Front(t'.contexts[inner]) in t'.ids && PopId(t', inner) == id
  {
    PushOk(t, id, link);
    var t' := PushTable(t, id, link);
    assert ContextOk(t', PushId(t, id, link)) && ContextOk(t', id);
    assert Front(t.contexts[id] + [link]) == t.contexts[id];
  }

  /** Pushing again in any later table (pass 2) finds the context of the first push (pass 1). */
  lemma RepushSame(t: Table, id: nat, link: Addr, later: Table)
    requires TableOk(t) && id < |t.contexts| && TableOk(later) && Extends(PushTable(t, id, link), later)
    ensures id < |later.contexts| && PushId(later, id, link) == PushId(t, id, link) &&
            PushTable(later, id, link) == later
  {
    PushOk(t, id, link);
    assert later.contexts[id] == t.contexts[id];
    if |t.contexts[id]| < MAX_CALL_DEPTH {
      var inner := PushId(t, id, link);
      assert later.contexts[inner] == t.contexts[id] + [link];
      assert ContextOk(later, inner);
    }
  }

  /** The table after any history of pushes; a push from a number not yet given out is no push. */
  function PushAll(t: Table, ops: seq<(nat, Addr)>): Table
    decreases |ops|
  {
    if ops == [] then t
    else if ops[0].0 < |t.contexts| then PushAll(PushTable(t, ops[0].0, ops[0].1), ops[1..])
    else PushAll(t, ops[1..])
  }

  lemma {:induction false} EveryHistoryOk(t: Table, ops: seq<(nat, Addr)>)
    requires TableOk(t)
    ensures TableOk(PushAll(t, ops)) && Extends(t, PushAll(t, ops))
    decreases |ops|
  {
    if ops == [] {
    } else if ops[0].0 < |t.contexts| {
      PushOk(t, ops[0].0, ops[0].1);
      EveryHistoryOk(PushTable(t, ops[0].0, ops[0].1), ops[1..]);
    } else {
      EveryHistoryOk(t, ops[1..]);
    }
  }
}
