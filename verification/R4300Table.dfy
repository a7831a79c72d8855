/** Control-flow decode of r4300cfg.cc, and its reading of bounds-checked jump tables. */
module R4300Table {
  import opened Collections
  import opened Bits
  import opened RspState
  import opened R4300Insn
  import opened R4300Likely

  datatype Kind = Fall | Branch | Likely | Jump | Call | Jr | Jalr | Trap

  datatype Ctl = Ctl(k: Kind, target: Word, reg: Reg)

  function Decode(pc: Word, w: Word): Ctl {
    var op, fn, rt := Op(w), Fn(w), Rt(w);
    if op == 0 && fn == 0x08 then Ctl(Jr, 0, Rs(w))
    else if op == 0 && fn == 0x09 then Ctl(Jalr, 0, Rs(w))
    else if op == 0 && (fn == 0x0c || fn == 0x0d) then Ctl(Trap, 0, 0)
    else if op == 1 && (rt / 4 == 0 || rt / 4 == 4) then
      Ctl(if rt / 2 % 2 == 1 then Likely else Branch, BranchTo(w, pc), 0)
    else if op == 2 then Ctl(Jump, JumpTo(w, pc), 0)
    else if op == 3 then Ctl(Call, JumpTo(w, pc), 0)
    else if 4 <= op <= 7 then Ctl(Branch, BranchTo(w, pc), 0)
    else if 0x14 <= op <= 0x17 then Ctl(Likely, BranchTo(w, pc), 0)
    else if op == 0x11 && Rs(w) == 0x08 then Ctl(if rt / 2 % 2 == 1 then Likely else Branch, BranchTo(w, pc), 0)
    else Ctl(Fall, 0, 0)
  }

  /** Discovery and translation read the same transfers: what the translator does not leave to
      the interpreter ends a block, with the same target and the same annulment. */
  lemma DecodersAgree(pc: Word, w: Word)
    requires !IsForeign(w)
    ensures var c := Decode(pc, w);
            (IsControl(w) <==> c.k != Fall && c.k != Trap) &&
            (IsBranchOp(w) <==> c.k == Branch || c.k == Likely) &&
            (IsControl(w) && IsLikely(w) <==> c.k == Likely) &&
            (IsLink(w) <==> c.k == Call || c.k == Jalr) &&
            (IsBranchOp(w) ==> c.target == BranchTo(w, pc)) && (Op(w) == 2 || Op(w) == 3 ==> c.target == JumpTo(w, pc))
  {
  }

  const MAPPED_TOP := 0xffff_ffe0

  /** Nothing is mapped at the very top of the address space. */
  predicate CodeOk(code: Code) { forall a :: a in code ==> a < MAPPED_TOP }

  /* ---- jump_table ---- */

  const WINDOW := 64
  const MAX_ENTRIES := 256

  /** The bound of the nearest sltiu among the instructions before `pc`, 0 if there is none. */
  function BoundBefore(code: Code, pc: Word, k: nat): Word
    requires CodeOk(code) && 1 <= k <= 17 && (k > 1 ==> pc >= 4)
    decreases 17 - k
  {
    var q := Plus(pc, -4 * k);
    if Plus(q, WINDOW) < pc || q !in code then 0
    else if Op(code[q]) == 0x0b then Uimm(code[q])
    else BoundBefore(code, pc, k + 1)
  }

  /** What the backward scan knows: the register it follows, and the table base once the lw
      has been seen. */
  datatype Scan = Scan(reg: Reg, base: Option<Word>, count: Word)

  /** None when the scan meets an unmapped word. */
  function ScanBack(code: Code, jr: Word, k: nat, s: Scan): Option<Scan>
    requires CodeOk(code) && 1 <= k <= 17 && (k > 1 ==> jr >= 4)
    decreases 17 - k
  {
    var pc := Plus(jr, -4 * k);
    if Plus(pc, WINDOW) < jr then Some(s)
    else if pc !in code then None
    else
      var w := code[pc];
      if s.base.None? && Op(w) == 0x23 && Rt(w) == s.reg then
        ScanBack(code, jr, k + 1, Scan(Rs(w), Some(Wrap32(Simm(w))), s.count))
      else if s.base.Some? && Op(w) == 0x0f && Rt(w) == s.reg then
        Some(Scan(s.reg, Some(Plus(s.base.value, Uimm(w) * 0x1_0000)), BoundBefore(code, pc, 1)))
      else ScanBack(code, jr, k + 1, s)
  }

  function EntryAt(base: Word, i: nat): Word { Plus(base, 4 * i) }

  /** Entries i .. count - 1; stops at the first unmapped one. */
  function ReadTable(code: Code, base: Word, i: nat, count: nat): (r: (bool, seq<Word>))
    requires i <= count
    ensures r.0 ==> |r.1| == count - i
    ensures |r.1| <= count - i
    decreases count - i
  {
    if i == count then (true, [])
    else if EntryAt(base, i) !in code then (false, [])
    else
      var rest := ReadTable(code, base, i + 1, count);
      (rest.0, [code[EntryAt(base, i)]] + rest.1)
  }

  lemma {:induction false} TableEntry(code: Code, base: Word, i: nat, count: nat, j: nat)
    requires i <= count && j < |ReadTable(code, base, i, count).1|
    ensures EntryAt(base, i + j) in code && ReadTable(code, base, i, count).1[j] == code[EntryAt(base, i + j)]
    decreases j
  {
    if j > 0 {
      TableEntry(code, base, i + 1, count, j - 1);
    }
  }

  predicate Accepted(s: Scan) { s.base.Some? && 1 <= s.count <= MAX_ENTRIES }

  /** jump_table: whether a whole table was read, and the entries it left in `out`. */
  function JumpTable(code: Code, jr: Word): (r: (bool, seq<Word>))
    requires CodeOk(code)
    ensures r.0 ==> 1 <= |r.1| <= MAX_ENTRIES
  {
    if jr !in code then (false, []) else
    match ScanBack(code, jr, 1, Scan(Rs(code[jr]), None, 0))
    case None => (false, [])
    case Some(s) => if Accepted(s) then ReadTable(code, s.base.value, 0, s.count) else (false, [])
  }

  /** One more word back: still in the window, so at most sixteen words. */
  lemma InWindow(code: Code, pc: Word, k: nat)
    requires CodeOk(code) && 1 <= k <= 17 && (k > 1 ==> pc >= 4)
    requires Plus(Plus(pc, -4 * k), WINDOW) >= pc && Plus(pc, -4 * k) in code
    ensures k <= 16 && pc >= 4 && Plus(Plus(pc, -4 * k), -4) == Plus(pc, -4 * (k + 1))
  {
    PlusTwice(pc, -4 * k, -4);
    PlusTwice(pc, -4 * k, WINDOW);
    assert pc < 4 ==> Plus(pc, -4) == pc - 4 + 0x1_0000_0000;
  }

  /** The inner loop. */
  method FindBound(code: Code, pc: Word) returns (count: Word)
    requires CodeOk(code)
    ensures count == BoundBefore(code, pc, 1)
  {
    var q, k := Plus(pc, -4), 1;
    while Plus(q, WINDOW) >= pc
      invariant 1 <= k <= 17 && (k > 1 ==> pc >= 4) && q == Plus(pc, -4 * k)
      invariant BoundBefore(code, pc, k) == BoundBefore(code, pc, 1)
      decreases 17 - k
    {
      if q !in code {
        break;
      }
      InWindow(code, pc, k);
      var w := code[q];
      if Op(w) == 0x0b {
        return Uimm(w);
      }
      q, k := Plus(q, -4), k + 1;
    }
    return 0;
  }

  /** The scan: `ok` unless it met an unmapped word. */
  method FindTable(code: Code, jr: Word) returns (ok: bool, s: Scan)
    requires CodeOk(code) && jr in code
    ensures ScanBack(code, jr, 1, Scan(Rs(code[jr]), None, 0)) == if ok then Some(s) else None
  {
    s := Scan(Rs(code[jr]), None, 0);
    var pc, k := Plus(jr, -4), 1;
    ghost var want := ScanBack(code, jr, 1, s);
    while Plus(pc, WINDOW) >= jr
      invariant 1 <= k <= 17 && (k > 1 ==> jr >= 4) && pc == Plus(jr, -4 * k)
      invariant ScanBack(code, jr, k, s) == want
      decreases 17 - k
    {
      if pc !in code {
        return false, s;
      }
      InWindow(code, jr, k);
      var w := code[pc];
      if s.base.None? && Op(w) == 0x23 && Rt(w) == s.reg {
        s := Scan(Rs(w), Some(Wrap32(Simm(w))), s.count);
      } else if s.base.Some? && Op(w) == 0x0f && Rt(w) == s.reg {
        var count := FindBound(code, pc);
        s := Scan(s.reg, Some(Plus(s.base.value, Uimm(w) * 0x1_0000)), count);
        return true, s;
      }
      pc, k := Plus(pc, -4), k + 1;
    }
    return true, s;
  }

  /** `out` keeps what was read even when the table turns out to be unmapped. */
  method ReadJumpTable(code: Code, jr: Word) returns (ok: bool, out: seq<Word>)
    requires CodeOk(code)
    ensures (ok, out) == JumpTable(code, jr)
  {
    out := [];
    if jr !in code {
      return false, out;
    }
    var found, s := FindTable(code, jr);
    if !found || !Accepted(s) {
      return false, out;
    }
    ok, out := ReadEntries(code, s.base.value, s.count);
  }

  method ReadEntries(code: Code, base: Word, count: nat) returns (ok: bool, out: seq<Word>)
    ensures (ok, out) == ReadTable(code, base, 0, count)
  {
    out := [];
    for i := 0 to count
      invariant ReadTable(code, base, 0, count).0 == ReadTable(code, base, i, count).0
      invariant ReadTable(code, base, 0, count).1 == out + ReadTable(code, base, i, count).1
    {
      if EntryAt(base, i) !in code {
        assert out + [] == out;
        return false, out;
      }
      out := out + [code[EntryAt(base, i)]];
    }
    assert out + [] == out;
    return true, out;
  }

  /* ---- the idiom the scan is for ---- */

  /** The window is compared in 32 bits, so it must not reach over the top of the address space. */
  const TABLE_TOP := 0xffff_ff00

  /** sltiu a,x,N; beq a,$0,default; sll t,x,2; lui a,%hi; addu a,a,t; lw t,%lo(a); jr t
      ending at `jr`. */
  predicate BoundedSwitch(code: Code, jr: Word, a: Reg, t: Reg, x: Reg) {
    && 24 <= jr < TABLE_TOP && jr in code && jr - 4 in code && jr - 8 in code && jr - 12 in code
    && jr - 16 in code && jr - 20 in code && jr - 24 in code
    && a != 0 && t != 0 && a != t && x != a
    && Op(code[jr - 24]) == 0x0b && Rt(code[jr - 24]) == a && Rs(code[jr - 24]) == x
    && Op(code[jr - 20]) == 0x04 && Rs(code[jr - 20]) == a && Rt(code[jr - 20]) == 0
    && Op(code[jr - 16]) == 0x00 && Fn(code[jr - 16]) == 0x00 && Rd(code[jr - 16]) == t && Rt(code[jr - 16]) == x &&
       Sa(code[jr - 16]) == 2
    && Op(code[jr - 12]) == 0x0f && Rt(code[jr - 12]) == a
    && Op(code[jr - 8]) == 0x00 && Fn(code[jr - 8]) == 0x21 && Rd(code[jr - 8]) == a && Rs(code[jr - 8]) == a &&
       Rt(code[jr - 8]) == t
    && Op(code[jr - 4]) == 0x23 && Rt(code[jr - 4]) == t && Rs(code[jr - 4]) == a
    && Op(code[jr]) == 0x00 && Fn(code[jr]) == 0x08 && Rs(code[jr]) == t
  }

  function IdiomBase(code: Code, jr: Word): Word
    requires jr >= 12 && jr - 4 in code && jr - 12 in code
  {
    Plus(Wrap32(Simm(code[jr - 4])), Uimm(code[jr - 12]) * 0x1_0000)
  }

  function Bound(code: Code, jr: Word): Word
    requires jr >= 24 && jr - 24 in code
  {
    Uimm(code[jr - 24])
  }

  lemma PlusBack(pc: Word, d: int)
    requires 0 <= d <= pc
    ensures Plus(pc, 0 - d) == pc - d
  {
  }

  /** One turn of each scan. */
  lemma BoundTurn(code: Code, pc: Word, k: nat)
    requires CodeOk(code) && 1 <= k <= 6 && 4 * k <= pc < TABLE_TOP && pc - 4 * k in code
    ensures BoundBefore(code, pc, k) ==
            if Op(code[pc - 4 * k]) == 0x0b then Uimm(code[pc - 4 * k]) else BoundBefore(code, pc, k + 1)
  {
    PlusBack(pc, 4 * k);
    PlusForth(pc, 4 * k);
  }

  lemma PlusForth(pc: Word, d: int)
    requires 0 <= d <= WINDOW && d <= pc < TABLE_TOP
    ensures Plus(pc - d, WINDOW) >= pc
  {
  }

  lemma ScanTurn(code: Code, jr: Word, k: nat, s: Scan)
    requires CodeOk(code) && 1 <= k <= 6 && 4 * k <= jr < TABLE_TOP && jr - 4 * k in code
    ensures var w := code[jr - 4 * k];
            ScanBack(code, jr, k, s) ==
              if s.base.None? && Op(w) == 0x23 && Rt(w) == s.reg then
                ScanBack(code, jr, k + 1, Scan(Rs(w), Some(Wrap32(Simm(w))), s.count))
              else if s.base.Some? && Op(w) == 0x0f && Rt(w) == s.reg then
                Some(Scan(s.reg, Some(Plus(s.base.value, Uimm(w) * 0x1_0000)), BoundBefore(code, jr - 4 * k, 1)))
              else ScanBack(code, jr, k + 1, s)
  {
    PlusBack(jr, 4 * k);
    PlusForth(jr, 4 * k);
  }

  /** The scan finds the base and the bound of the idiom. */
  lemma IdiomScanned(code: Code, jr: Word, a: Reg, t: Reg, x: Reg)
    requires CodeOk(code) && BoundedSwitch(code, jr, a, t, x)
    ensures ScanBack(code, jr, 1, Scan(t, None, 0)) == Some(Scan(a, Some(IdiomBase(code, jr)), Bound(code, jr)))
  {
    var s := Scan(a, Some(Wrap32(Simm(code[jr - 4]))), 0);
    ScanTurn(code, jr, 1, Scan(t, None, 0));
    ScanTurn(code, jr, 2, s);
    ScanTurn(code, jr, 3, s);
    IdiomBound(code, jr, a, t, x);
  }

  lemma IdiomBound(code: Code, jr: Word, a: Reg, t: Reg, x: Reg)
    requires CodeOk(code) && BoundedSwitch(code, jr, a, t, x)
    ensures BoundBefore(code, jr - 12, 1) == Bound(code, jr)
  {
    BoundTurn(code, jr - 12, 1);
    BoundTurn(code, jr - 12, 2);
    BoundTurn(code, jr - 12, 3);
  }

  /** RAM holds what was read at guest address `at` during discovery. */
  predicate Holds(m: Machine, code: Code, at: Word)
    requires at in code
  {
    BeValue(m.ram[PhysAddr(at)..PhysAddr(at) + 4]) == code[at]
  }

  function SetReg64(m: Machine, r: Reg, v: Dword): Machine { m.(cpu := m.cpu.(gpr := m.cpu.gpr[r := v])) }

  /** The instruction at `pc` is plain and writes v to register r. */
  predicate Writes(ef: EmitFn, code: Code, pc: Word, m: Machine, r: Reg, v: Dword) {
    pc in code && !IsControl(code[pc]) && r != 0 && ef(code[pc], m.cpu, Loaded(code[pc], m)) == Some([SetGpr(r, v)])
  }

  lemma WritesOne(ef: EmitFn, code: Code, pc: Word, npc: Word, m: Machine, r: Reg, v: Dword)
    requires Writes(ef, code, pc, m, r, v)
    ensures Step(ef, code, At(pc, npc, m)) == At(npc, Plus(npc, 4), SetReg64(m, r, v))
  {
    OneApplied(m, r, v);
  }

  lemma WritesNext(ef: EmitFn, code: Code, pc: Word, m: Machine, r: Reg, v: Dword)
    requires pc < TABLE_TOP && Writes(ef, code, pc, m, r, v)
    ensures Step(ef, code, InLine(pc, m)) == InLine(pc + 4, SetReg64(m, r, v))
  {
    PlusSmall(pc, 4);
    PlusSmall(pc + 4, 4);
    WritesOne(ef, code, pc, pc + 4, m, r, v);
  }

  lemma PlusSmall(pc: Word, d: nat)
    requires pc + d < 0x1_0000_0000
    ensures Plus(pc, d) == pc + d
  {
  }

  lemma OneApplied(m: Machine, r: Reg, v: Dword)
    requires r != 0
    ensures ApplyAll([SetGpr(r, v)], m) == SetReg64(m, r, v)
  {
    var es := [SetGpr(r, v)];
    assert es[1..] == [];
    assert ApplyAll([], SetReg64(m, r, v)) == SetReg64(m, r, v);
  }

  /* The five plain instructions of the idiom. */

  lemma Sltiu(fp: Fp, code: Code, pc: Word, m: Machine)
    requires pc in code && Op(code[pc]) == 0x0b && Rt(code[pc]) != 0 && Uimm(code[pc]) <= MAX_ENTRIES
    ensures Writes(Emission(fp), code, pc, m, Rt(code[pc]), Flag(m.cpu.Get(Rs(code[pc])) < Uimm(code[pc])))
  {
    SmallImmediate(code[pc]);
  }

  lemma SmallImmediate(w: Word)
    requires Uimm(w) <= MAX_ENTRIES
    ensures Wrap64u(Simm(w)) == Uimm(w)
  {
  }

  lemma Sll2(fp: Fp, code: Code, pc: Word, m: Machine)
    requires pc in code && Op(code[pc]) == 0 && Fn(code[pc]) == 0 && Sa(code[pc]) == 2 && Rd(code[pc]) != 0
    requires m.cpu.Get(Rt(code[pc])) < MAX_ENTRIES
    ensures Writes(Emission(fp), code, pc, m, Rd(code[pc]), 4 * m.cpu.Get(Rt(code[pc])))
  {
    ScaleIndex(m.cpu.Get(Rt(code[pc])));
  }

  lemma ScaleIndex(i: Dword)
    requires i < MAX_ENTRIES
    ensures Sext32(Shl32(Lo32(i), 2)) == 4 * i
  {
    assert Pow2(2) == 4;
  }

  lemma Lui(fp: Fp, code: Code, pc: Word, m: Machine)
    requires pc in code && Op(code[pc]) == 0x0f && Rt(code[pc]) != 0
    ensures Writes(Emission(fp), code, pc, m, Rt(code[pc]), Sext32(Wrap32(Uimm(code[pc]) * 0x1_0000)))
  {
  }

  lemma Addu(fp: Fp, code: Code, pc: Word, m: Machine)
    requires pc in code && Op(code[pc]) == 0 && Fn(code[pc]) == 0x21 && Rd(code[pc]) != 0
    ensures var c := m.cpu;
            Writes(Emission(fp), code, pc, m, Rd(code[pc]),
              Sext32(Add32(Lo32(c.Get(Rs(code[pc]))), Lo32(c.Get(Rt(code[pc]))))))
  {
  }

  lemma Lw(fp: Fp, code: Code, pc: Word, m: Machine, at: Word)
    requires pc in code && Op(code[pc]) == 0x23 && Rt(code[pc]) != 0 && at in code && Holds(m, code, at)
    requires Lo32(Wrap64u(m.cpu.Get(Rs(code[pc])) as int + Simm(code[pc]))) == at
    ensures Writes(Emission(fp), code, pc, m, Rt(code[pc]), SextFrom(code[at], 0x8000_0000))
  {
    var w := code[pc];
    PhysLow(EffAddr(w, m.cpu), at);
    assert LoadWidth(w) == 4;
  }

  lemma SextLow(v: Word)
    ensures Lo32(Sext32(v)) == v && Lo32(SextFrom(v, 0x8000_0000)) == v
  {
  }

  /** The address the lw forms from %hi, %lo and the scaled index is the entry's. */
  lemma EntryAddress(high: Word, i: Word, simm: Half, lui: Dword, sum: Dword)
    requires high < 0x1_0000 && i < MAX_ENTRIES
    requires lui == Sext32(Wrap32(high as int * 0x1_0000)) && sum == Sext32(Add32(Lo32(lui), Lo32(4 * i)))
    ensures Lo32(Wrap64u(sum as int + simm)) == EntryAt(Plus(Wrap32(simm), high as int * 0x1_0000), i)
  {
    var h: int, e: int := high as int * 0x1_0000, 4 * i;
    SmallWrap(h);
    SmallWrap(e);
    SextLow(h);
    var s: Word := Add32(h, e);
    SextLow(s);
    LowSide(sum, s, h + e, simm);
    EntrySide(h, i, simm);
  }

  lemma LowSide(sum: Dword, s: Word, y: int, simm: Half)
    requires Lo32(sum) == s == y % 0x1_0000_0000
    ensures Lo32(Wrap64u(sum as int + simm)) == (y + simm) % 0x1_0000_0000
  {
    SumLow(sum, s, simm);
    ModSum(y, simm);
  }

  lemma EntrySide(h: int, i: Word, simm: Half)
    ensures EntryAt(Plus(Wrap32(simm), h), i) == (h + 4 * i as int + simm) % 0x1_0000_0000
  {
    var e: int, base: Word := 4 * i as int, Wrap32(simm);
    PlusTwice(base, h, e);
    var d := h + e;
    ModSum(simm, d);
    assert Plus(base, d) == (simm as int + d) % 0x1_0000_0000;
    assert simm as int + d == h + 4 * i as int + simm;
  }

  lemma SmallWrap(h: int)
    requires 0 <= h < 0x1_0000_0000
    ensures Wrap32(h) == h
  {
  }

  lemma ModSum(x: int, y: int)
    ensures (x % 0x1_0000_0000 + y) % 0x1_0000_0000 == (x + y) % 0x1_0000_0000
  {
    assert x % 0x1_0000_0000 + y == x + y - x / 0x1_0000_0000 * 0x1_0000_0000;
  }

  lemma SumLow(x: Dword, s: int, simm: Half)
    requires Lo32(x) == s
    ensures Lo32(Wrap64u(x as int + simm)) == (s + simm) % 0x1_0000_0000
  {
    var q, y := x / 0x1_0000_0000, x as int + simm;
    var p := y / 0x1_0000_0000_0000_0000;
    SameLow(y, 0x1_0000_0000 * p);
    SameLow(s + simm, 0 - q);
  }

  lemma SameLow(y: int, p: int)
    ensures (y - p * 0x1_0000_0000) % 0x1_0000_0000 == y % 0x1_0000_0000
  {
  }

  lemma PhysLow(x: Dword, y: Dword)
    requires Lo32(x) == Lo32(y)
    ensures PhysAddr(x) == PhysAddr(y)
  {
  }

  /** Where the idiom goes after `n` steps: `to` is the instruction after the slot at `pc`. */
  ghost predicate Reaches(ef: EmitFn, code: Code, n: nat, c: Cfg, pc: Word, to: Word) {
    var c' := Steps(ef, code, n, c);
    c'.At? && c'.pc == pc && c'.npc == to
  }

  /** The beq on the flag the sltiu left. */
  lemma BoundChecked(ef: EmitFn, code: Code, pc: Word, a: Reg, m: Machine, within: bool)
    requires pc < TABLE_TOP && Writes(ef, code, pc, m, a, Flag(within))
    requires pc + 4 in code && Op(code[pc + 4]) == 0x04 && Rs(code[pc + 4]) == a && Rt(code[pc + 4]) == 0
    ensures within ==> Steps(ef, code, 2, InLine(pc, m)) == InLine(pc + 8, SetReg64(m, a, 1))
    ensures !within ==> Reaches(ef, code, 2, InLine(pc, m), pc + 8, BranchTo(code[pc + 4], pc + 4))
  {
    PlusSmall(pc + 4, 4);
    PlusSmall(pc + 4, 8);
    PlusSmall(pc + 8, 4);
    var c0, c1 := InLine(pc, m), InLine(pc + 4, SetReg64(m, a, Flag(within)));
    WritesNext(ef, code, pc, m, a, Flag(within));
    TransferStep(ef, code, pc + 4, c1.m);
    OneStep(ef, code, 1, c0);
    OneStep(ef, code, 0, c1);
  }

  /** Three instructions that write one register each. */
  lemma ThreeWrites(ef: EmitFn, code: Code, pc: Word, m: Machine, r1: Reg, v1: Dword, r2: Reg, v2: Dword, r3: Reg,
                    v3: Dword)
    requires pc + 8 < TABLE_TOP && Writes(ef, code, pc, m, r1, v1) &&
             Writes(ef, code, pc + 4, SetReg64(m, r1, v1), r2, v2)
    requires Writes(ef, code, pc + 8, SetReg64(SetReg64(m, r1, v1), r2, v2), r3, v3)
    ensures Steps(ef, code, 3, InLine(pc, m)) ==
            InLine(pc + 12, SetReg64(SetReg64(SetReg64(m, r1, v1), r2, v2), r3, v3))
  {
    var m1 := SetReg64(m, r1, v1);
    var m2 := SetReg64(m1, r2, v2);
    WritesNext(ef, code, pc, m, r1, v1);
    WritesNext(ef, code, pc + 4, m1, r2, v2);
    WritesNext(ef, code, pc + 8, m2, r3, v3);
    ThreeSteps(ef, code, InLine(pc, m), InLine(pc + 4, m1), InLine(pc + 8, m2), InLine(pc + 12, SetReg64(m2, r3, v3)));
  }

  lemma ThreeSteps(ef: EmitFn, code: Code, c0: Cfg, c1: Cfg, c2: Cfg, c3: Cfg)
    requires Step(ef, code, c0) == c1 && Step(ef, code, c1) == c2 && Step(ef, code, c2) == c3
    ensures Steps(ef, code, 3, c0) == c3
  {
    OneStep(ef, code, 2, c0);
    OneStep(ef, code, 1, c1);
    OneStep(ef, code, 0, c2);
  }

  /** sll, lui and addu form the address of the entry but for %lo. */
  lemma AddressFormed(fp: Fp, code: Code, jr: Word, a: Reg, t: Reg, x: Reg, m: Machine) returns (m3: Machine)
    requires CodeOk(code) && BoundedSwitch(code, jr, a, t, x) && m.cpu.Get(x) < MAX_ENTRIES
    ensures Steps(Emission(fp), code, 3, InLine(jr - 16, m)) == InLine(jr - 4, m3) && m3.ram == m.ram
    ensures Lo32(Wrap64u(m3.cpu.Get(a) as int + Simm(code[jr - 4]))) == EntryAt(IdiomBase(code, jr), m.cpu.Get(x))
  {
    var ef, i, high := Emission(fp), m.cpu.Get(x), Uimm(code[jr - 12]);
    var lui := Sext32(Wrap32(high * 0x1_0000));
    var sum := Sext32(Add32(Lo32(lui), Lo32(4 * i)));
    m3 := SetReg64(SetReg64(SetReg64(m, t, 4 * i), a, lui), a, sum);
    AddressWritten(fp, code, jr, a, t, x, m, lui, sum);
    EntryAddress(high, i, Simm(code[jr - 4]), lui, sum);
  }

  lemma AddressWritten(fp: Fp, code: Code, jr: Word, a: Reg, t: Reg, x: Reg, m: Machine, lui: Dword, sum: Dword)
    requires BoundedSwitch(code, jr, a, t, x) && m.cpu.Get(x) < MAX_ENTRIES
    requires lui == Sext32(Wrap32(Uimm(code[jr - 12]) * 0x1_0000))
    requires sum == Sext32(Add32(Lo32(lui), Lo32(4 * m.cpu.Get(x))))
    ensures Steps(Emission(fp), code, 3, InLine(jr - 16, m)) ==
            InLine(jr - 4, SetReg64(SetReg64(SetReg64(m, t, 4 * m.cpu.Get(x)), a, lui), a, sum))
  {
    var ef, i := Emission(fp), m.cpu.Get(x);
    var m1 := SetReg64(m, t, 4 * i);
    var m2 := SetReg64(m1, a, lui);
    Sll2(fp, code, jr - 16, m);
    Lui(fp, code, jr - 12, m1);
    Addu(fp, code, jr - 8, m2);
    ThreeWrites(ef, code, jr - 16, m, t, 4 * i, a, lui, a, sum);
  }

  /** lw and jr: to the word the table holds. */
  lemma EntryTaken(ef: EmitFn, code: Code, pc: Word, t: Reg, m: Machine, target: Word)
    requires pc < TABLE_TOP && Writes(ef, code, pc, m, t, SextFrom(target, 0x8000_0000))
    requires pc + 4 in code && Op(code[pc + 4]) == 0 && Fn(code[pc + 4]) == 0x08 && Rs(code[pc + 4]) == t
    ensures Steps(ef, code, 2, InLine(pc, m)) == At(pc + 8, target, SetReg64(m, t, SextFrom(target, 0x8000_0000)))
  {
    var v := SextFrom(target, 0x8000_0000);
    var m1 := SetReg64(m, t, v);
    SextLow(target);
    WritesNext(ef, code, pc, m, t, v);
    TransferStep(ef, code, pc + 4, m1);
    OneStep(ef, code, 1, InLine(pc, m));
    OneStep(ef, code, 0, InLine(pc + 4, m1));
  }

  /** The part of the idiom within the bound. */
  lemma EntryReached(fp: Fp, code: Code, jr: Word, a: Reg, t: Reg, x: Reg, m: Machine, at: Word)
    requires CodeOk(code) && BoundedSwitch(code, jr, a, t, x) && m.cpu.Get(x) < MAX_ENTRIES
    requires at == EntryAt(IdiomBase(code, jr), m.cpu.Get(x)) && at in code && Holds(m, code, at)
    ensures Reaches(Emission(fp), code, 5, InLine(jr - 16, m), jr + 4, code[at])
  {
    var ef := Emission(fp);
    var m2 := AddressFormed(fp, code, jr, a, t, x, m);
    EntryLoaded(fp, code, jr, a, t, x, m2, at);
    EntryFollowed(ef, code, jr - 4, t, InLine(jr - 16, m), m2, code[at]);
  }

  lemma EntryLoaded(fp: Fp, code: Code, jr: Word, a: Reg, t: Reg, x: Reg, m: Machine, at: Word)
    requires BoundedSwitch(code, jr, a, t, x) && at in code && Holds(m, code, at)
    requires Lo32(Wrap64u(m.cpu.Get(a) as int + Simm(code[jr - 4]))) == at
    ensures Writes(Emission(fp), code, jr - 4, m, t, SextFrom(code[at], 0x8000_0000))
  {
    Lw(fp, code, jr - 4, m, at);
  }

  lemma EntryFollowed(ef: EmitFn, code: Code, pc: Word, t: Reg, c: Cfg, m: Machine, target: Word)
    requires Steps(ef, code, 3, c) == InLine(pc, m)
    requires pc < TABLE_TOP && Writes(ef, code, pc, m, t, SextFrom(target, 0x8000_0000))
    requires pc + 4 in code && Op(code[pc + 4]) == 0 && Fn(code[pc + 4]) == 0x08 && Rs(code[pc + 4]) == t
    ensures Reaches(ef, code, 5, c, pc + 8, target)
  {
    EntryTaken(ef, code, pc, t, m, target);
    StepsAdd(ef, code, 3, 2, c);
  }

  /** For every index value and every %lo: the idiom takes its default branch, or its jr goes
      to the entry of the recovered table with that index. */
  lemma SwitchLands(fp: Fp, code: Code, jr: Word, a: Reg, t: Reg, x: Reg, m: Machine)
    requires CodeOk(code) && BoundedSwitch(code, jr, a, t, x) && JumpTable(code, jr).0
    requires forall i: nat {:trigger EntryAt(IdiomBase(code, jr), i)} ::
               EntryAt(IdiomBase(code, jr), i) in code && i < Bound(code, jr) ==>
                 Holds(m, code, EntryAt(IdiomBase(code, jr), i))
    ensures var table, i, c := JumpTable(code, jr).1, m.cpu.Get(x), InLine(jr - 24, m);
            |table| == Bound(code, jr) &&
            if i < |table| then Reaches(Emission(fp), code, 7, c, jr + 4, table[i])
            else Reaches(Emission(fp), code, 2, c, jr - 16, BranchTo(code[jr - 20], jr - 20))
  {
    var table := TableRecovered(code, jr, a, t, x);
    var ef, i, c := Emission(fp), m.cpu.Get(x), InLine(jr - 24, m);
    IndexChecked(fp, code, jr, a, t, x, m);
    if i < |table| {
      TableEntry(code, IdiomBase(code, jr), 0, Bound(code, jr), i);
      WithinBound(fp, code, jr, a, t, x, m, EntryAt(IdiomBase(code, jr), i));
    }
  }

  lemma IndexChecked(fp: Fp, code: Code, jr: Word, a: Reg, t: Reg, x: Reg, m: Machine)
    requires BoundedSwitch(code, jr, a, t, x) && Bound(code, jr) <= MAX_ENTRIES
    ensures var ef, c := Emission(fp), InLine(jr - 24, m);
            if m.cpu.Get(x) < Bound(code, jr) then Steps(ef, code, 2, c) == InLine(jr - 16, SetReg64(m, a, 1))
            else Reaches(ef, code, 2, c, jr - 16, BranchTo(code[jr - 20], jr - 20))
  {
    Sltiu(fp, code, jr - 24, m);
    BoundChecked(Emission(fp), code, jr - 24, a, m, m.cpu.Get(x) < Bound(code, jr));
  }

  lemma WithinBound(fp: Fp, code: Code, jr: Word, a: Reg, t: Reg, x: Reg, m: Machine, at: Word)
    requires CodeOk(code) && BoundedSwitch(code, jr, a, t, x) && m.cpu.Get(x) < MAX_ENTRIES
    requires at == EntryAt(IdiomBase(code, jr), m.cpu.Get(x)) && at in code && Holds(m, code, at)
    requires Steps(Emission(fp), code, 2, InLine(jr - 24, m)) == InLine(jr - 16, SetReg64(m, a, 1))
    ensures Reaches(Emission(fp), code, 7, InLine(jr - 24, m), jr + 4, code[at])
  {
    var m1 := SetReg64(m, a, 1);
    assert Holds(m1, code, at);
    EntryReached(fp, code, jr, a, t, x, m1, at);
    StepsAdd(Emission(fp), code, 2, 5, InLine(jr - 24, m));
  }

  lemma TableRecovered(code: Code, jr: Word, a: Reg, t: Reg, x: Reg) returns (table: seq<Word>)
    requires CodeOk(code) && BoundedSwitch(code, jr, a, t, x) && JumpTable(code, jr).0
    ensures table == JumpTable(code, jr).1 && |table| == Bound(code, jr) <= MAX_ENTRIES
    ensures ReadTable(code, IdiomBase(code, jr), 0, Bound(code, jr)) == (true, table)
  {
    IdiomScanned(code, jr, a, t, x);
    table := JumpTable(code, jr).1;
  }

  /** A table is accepted exactly when its bound is 1 to 256 and every entry is mapped. */
  lemma TableAccepted(code: Code, jr: Word, a: Reg, t: Reg, x: Reg)
    requires CodeOk(code) && BoundedSwitch(code, jr, a, t, x)
    ensures JumpTable(code, jr).0 <==>
              1 <= Bound(code, jr) <= MAX_ENTRIES &&
              forall i: nat :: i < Bound(code, jr) ==> EntryAt(IdiomBase(code, jr), i) in code
  {
    IdiomScanned(code, jr, a, t, x);
    WholeTable(code, IdiomBase(code, jr), 0, Bound(code, jr));
  }

  lemma {:induction false} WholeTable(code: Code, base: Word, i: nat, count: nat)
    requires i <= count
    ensures ReadTable(code, base, i, count).0 <==> forall j: nat :: i <= j < count ==> EntryAt(base, j) in code
    decreases count - i
  {
    if i < count {
      WholeTable(code, base, i + 1, count);
    }
  }
}
