/** `rsp_t` as the program has it: fixed buffers updated in place.  Each method is proved
    against the function of the same purpose in the modules it imports. */
module RspCore {
  import opened Bits
  import opened RspState
  import opened RspControl
  import opened RspVector
  import opened RspMemory
  import opened RspMemoryLaws
  import opened RspDma
  import opened RspExec

  /** A load that grows by one byte. */
  lemma LoadOneMore(row: Row, first: nat, n: nat, mem: Mem, ea: int)
    requires first + n < 16
    ensures LoadInto(row, first, n + 1, mem, ea) ==
            SetVByte(LoadInto(row, first, n, mem, ea), first + n, DByte(mem, ea + n))
  {
    var a, l := LoadInto(row, first, n + 1, mem, ea), LoadInto(row, first, n, mem, ea);
    forall j: nat | j < 16 ensures VByte(a, j) == if j == first + n then DByte(mem, ea + n) else VByte(l, j) {
      OneMoreByte(row, first, n, mem, ea, j);
    }
    IsSetVByte(a, l, first + n, DByte(mem, ea + n));
  }

  lemma OneMoreByte(row: Row, first: nat, n: nat, mem: Mem, ea: int, j: nat)
    requires first + n < 16 && j < 16
    ensures VByte(LoadInto(row, first, n + 1, mem, ea), j) ==
            if j == first + n then DByte(mem, ea + n) else VByte(LoadInto(row, first, n, mem, ea), j)
  {
    LoadedByte(row, first, n, mem, ea, j);
    LoadedByte(row, first, n + 1, mem, ea, j);
  }

  lemma UpdateTwice<T>(s: seq<T>, i: nat, a: T, b: T)
    requires i < |s|
    ensures s[i := a][i := b] == s[i := b] && s[i := a][i] == a
  {
  }

  lemma LoadNothing(row: Row, first: nat, n: nat, mem: Mem, ea: int)
    requires first >= 16 || n == 0
    ensures LoadInto(row, first, n, mem, ea) == row
  {
    assert LoadBytes(row, first, n, mem, ea) == ToBytes(row);
    BytesOfRow(row);
  }

  /** Bytes that would land past the register are not loaded. */
  lemma LoadClipped(row: Row, first: nat, n: nat, m: nat, mem: Mem, ea: int)
    requires first + n >= 16 && first + m >= 16
    ensures LoadInto(row, first, n, mem, ea) == LoadInto(row, first, m, mem, ea)
  {
    assert LoadBytes(row, first, n, mem, ea) == LoadBytes(row, first, m, mem, ea);
  }

  lemma WriteOneMore(mem: Mem, ea: int, b: seq<Byte>, x: Byte)
    requires |b| < 0x1000
    ensures WriteBytes(mem, ea, b + [x]) == WriteBytes(mem, ea, b)[(ea + |b|) % 0x1000 := x]
  {
    WriteJoins(mem, ea, b, [x]);
    var m := WriteBytes(mem, ea, b);
    var one, put := WriteBytes(m, ea + |b|, [x]), m[(ea + |b|) % 0x1000 := x];
    forall k | 0 <= k < MEM_SIZE ensures one[k] == put[k] {
      if k < 0x1000 {
        ZeroOffset(ea + |b|, k);
      }
    }
  }

  lemma ZeroOffset(ea: int, k: int)
    requires 0 <= k < 0x1000
    ensures (k - ea) % 0x1000 == 0 <==> k == ea % 0x1000
  {
    assert (k - ea) % 0x1000 == (k - ea % 0x1000) % 0x1000;
  }

  lemma StepAgain(prev: VRegs, now: VRegs, v0: VRegs, vt: Reg, row: Row, first: nat, i: nat, mem: Mem, ea: int)
    requires first + i < 16 && prev == v0[vt := LoadInto(row, first, i, mem, ea)]
    requires now == prev[vt := SetVByte(prev[vt], first + i, DByte(mem, ea + i))]
    ensures now == v0[vt := LoadInto(row, first, i + 1, mem, ea)]
  {
    LoadOneMore(row, first, i, mem, ea);
    UpdateTwice(v0, vt, LoadInto(row, first, i, mem, ea), LoadInto(row, first, i + 1, mem, ea));
  }

  /** A packed load after `n` of its eight bytes. */
  function PackedSoFar(row: Row, mem: Mem, ea: int, e: nat, shift: int, n: nat): Row {
    seq(8, l requires 0 <= l < 8 => if (l as int - e) % 8 < n then PackedLane(mem, ea, e, l, shift) else row[l])
  }

  lemma PackedOneMore(row: Row, mem: Mem, ea: int, e: nat, shift: int, n: nat)
    requires n < 8
    ensures PackedSoFar(row, mem, ea, e, shift, n + 1) ==
            PackedSoFar(row, mem, ea, e, shift, n)[(e + n) % 8 := PackedLane(mem, ea, e, (e + n) % 8, shift)]
    ensures PackedLane(mem, ea, e, (e + n) % 8, shift) == ToHalf(DByte(mem, ea + n) as int * shift)
  {
    var at := (e + n) % 8;
    LaneOfByte(e, n, at);
    var a, b := PackedSoFar(row, mem, ea, e, shift, n + 1),
                PackedSoFar(row, mem, ea, e, shift, n)[at := PackedLane(mem, ea, e, at, shift)];
    forall l | 0 <= l < 8 ensures a[l] == b[l] {
      LaneOfByte(e, n, l);
    }
  }

  lemma LaneOfByte(e: nat, n: nat, l: nat)
    requires n < 8 && l < 8
    ensures (l as int - e) % 8 == n <==> l == (e + n) % 8
  {
    var q := (e + n) / 8;
    assert (e + n) % 8 == e + n - 8 * q;
    if l == e + n - 8 * q {
      assert l - e == n - 8 * q;
    } else {
      var p := (l - e) / 8;
      assert l - e == 8 * p + (l - e) % 8;
    }
  }

  lemma PackedEnds(row: Row, mem: Mem, ea: int, e: nat, shift: int)
    ensures PackedSoFar(row, mem, ea, e, shift, 0) == row
    ensures PackedSoFar(row, mem, ea, e, shift, 8) == LoadPacked(row, mem, ea, e, shift)
  {
  }

  /** A transposing load after `n` of its eight slices. */
  function SlicesSoFar(v: VRegs, mem: Mem, ea: int, vt: Reg, n: nat): VRegs {
    var full := LoadTransposed(v, mem, ea, vt);
    seq(32, g requires 0 <= g < 32 => if g < vt / 8 * 8 + n then full[g] else v[g])
  }

  lemma SliceOneMore(v: VRegs, mem: Mem, ea: int, vt: Reg, n: nat)
    requires n < 8
    ensures var g := vt / 8 * 8 + n;
            SlicesSoFar(v, mem, ea, vt, n)[g] == v[g] &&
            SlicesSoFar(v, mem, ea, vt, n + 1) == SlicesSoFar(v, mem, ea, vt, n)[g := v[g][n := SliceHalf(mem, ea, n)]]
  {
    var g := vt / 8 * 8 + n;
    assert g / 8 == vt / 8 && g % 8 == n;
  }

  lemma SlicesEnd(v: VRegs, mem: Mem, ea: int, vt: Reg)
    ensures SlicesSoFar(v, mem, ea, vt, 0) == v && SlicesSoFar(v, mem, ea, vt, 8) == LoadTransposed(v, mem, ea, vt)
  {
  }

  /** Eight lanes written one by one are what SetLanes writes at once. */
  lemma LanesWritten(o: seq<LaneOut>, v: VRegs, vd: Reg, res: Row, now: Vu)
    requires |o| == 8 && now.v == v[vd := res]
    requires forall j :: 0 <= j < 8 ==> res[j] == o[j].res && LaneAt(now, j) == o[j].x
    ensures forall vu: Vu :: vu.v == v ==> SetLanes(vu, o, vd) == now
  {
    forall vu: Vu | vu.v == v ensures SetLanes(vu, o, vd) == now {
      var u := SetLanes(vu, o, vd);
      assert res == u.v[vd];
      assert forall j :: 0 <= j < 8 ==> LaneAt(u, j) == LaneAt(now, j);
      SameUnit(u, now);
    }
  }

  lemma SameUnit(a: Vu, b: Vu)
    requires a.v == b.v && forall j :: 0 <= j < 8 ==> LaneAt(a, j) == LaneAt(b, j)
    ensures a == b
  {
    forall j | 0 <= j < 8
      ensures a.acc[j] == b.acc[j] && a.fl.vcoL[j] == b.fl.vcoL[j] && a.fl.vcoH[j] == b.fl.vcoH[j] &&
              a.fl.vccL[j] == b.fl.vccL[j] && a.fl.vccH[j] == b.fl.vccH[j] && a.fl.vce[j] == b.fl.vce[j]
    {
      assert LaneAt(a, j) == LaneAt(b, j);
    }
    assert a.acc == b.acc && a.fl == b.fl;
  }

  /** How a bounded run of the interpreter ended. */
  datatype RunResult = Finished | Fatal | OutOfSteps

  class RspT {
    const r: array<Word>
    const v: array<Row>
    const acc: array<Int64>
    const vcoL: array<bool>
    const vcoH: array<bool>
    const vccL: array<bool>
    const vccH: array<bool>
    const vce: array<bool>
    const mem: array<Byte>
    const rdram: array<Byte>
    var spMemAddr: Word
    var spDramAddr: Word
    var spStatus: Word
    var imemGen: nat
    var halted: bool

    /** The buffers have their sizes and none is another. */
    ghost predicate Valid() {
      && r.Length == 32 && v.Length == 32 && acc.Length == 8
      && vcoL.Length == 8 && vcoH.Length == 8 && vccL.Length == 8 && vccH.Length == 8 && vce.Length == 8
      && mem.Length == MEM_SIZE && rdram.Length == DRAM_SIZE
      && vcoL != vcoH && vcoL != vccL && vcoL != vccH && vcoL != vce && vcoH != vccL && vcoH != vccH && vcoH != vce
      && vccL != vccH && vccL != vce && vccH != vce && mem != rdram
    }

    ghost function Buffers(): set<object> { {this, r, v, acc, vcoL, vcoH, vccL, vccH, vce, mem, rdram} }

    function FlagsNow(): Flags
      requires vcoL.Length == vcoH.Length == vccL.Length == vccH.Length == vce.Length == 8
      reads vcoL, vcoH, vccL, vccH, vce
    {
      Flags(vcoL[..], vcoH[..], vccL[..], vccH[..], vce[..])
    }

    function SpNow(): Sp reads this { Sp(spMemAddr, spDramAddr, spStatus) }

    function Snap(): Rsp
      requires Valid()
      reads this, r, v, acc, vcoL, vcoH, vccL, vccH, vce, mem, rdram
    {
      Rsp(r[..], Vu(v[..], acc[..], FlagsNow()), mem[..], SpNow(), rdram[..], imemGen, halted)
    }

    /** Every field at once. */
    method Put(s: Rsp)
      requires Valid()
      modifies this, r, v, acc, vcoL, vcoH, vccL, vccH, vce, mem, rdram
      ensures Snap() == s
    {
      PutFlags(s.vu.fl);
      PutLocals(s.r, s.vu);
      PutMemory(s.mem, s.dram);
      spMemAddr, spDramAddr, spStatus, imemGen, halted := s.sp.memAddr, s.sp.dramAddr, s.sp.status, s.gen, s.halted;
    }

    method PutMemory(m: Mem, d: Dram)
      requires Valid()
      modifies mem, rdram
      ensures mem[..] == m && rdram[..] == d
    {
      forall i | 0 <= i < MEM_SIZE {
        mem[i] := m[i];
      }
      forall i | 0 <= i < DRAM_SIZE {
        rdram[i] := d[i];
      }
    }

    method PutLocals(regs: Regs, vu: Vu)
      requires Valid()
      modifies r, v, acc
      ensures r[..] == regs && v[..] == vu.v && acc[..] == vu.acc
    {
      forall i | 0 <= i < 32 {
        r[i] := regs[i];
      }
      forall i | 0 <= i < 32 {
        v[i] := vu.v[i];
      }
      forall i | 0 <= i < 8 {
        acc[i] := vu.acc[i];
      }
    }

    method PutFlags(fl: Flags)
      requires Valid()
      modifies vcoL, vcoH, vccL, vccH, vce
      ensures FlagsNow() == fl
    {
      forall i | 0 <= i < 8 {
        vcoL[i] := fl.vcoL[i];
      }
      forall i | 0 <= i < 8 {
        vcoH[i] := fl.vcoH[i];
      }
      forall i | 0 <= i < 8 {
        vccL[i] := fl.vccL[i];
      }
      forall i | 0 <= i < 8 {
        vccH[i] := fl.vccH[i];
      }
      forall i | 0 <= i < 8 {
        vce[i] := fl.vce[i];
      }
    }

    /* ---- memory ---- */

    method PutByte(a: int, x: Byte)
      requires Valid()
      modifies mem
      ensures mem[..] == old(mem[..])[a % 0x1000 := x]
    {
      mem[a % 0x1000] := x;
    }

    method Wr16(a: int, x: Word)
      requires Valid()
      modifies mem
      ensures mem[..] == WriteBytes(old(mem[..]), a, BeBytes(x, 2))
    {
      WriteByteByByte(mem[..], a, BeBytes(x, 2));
      PutByte(a, x / 0x100 % 0x100);
      PutByte(a + 1, x % 0x100);
    }

    method Wr32(a: int, x: Word)
      requires Valid()
      modifies mem
      ensures mem[..] == WriteBytes(old(mem[..]), a, BeBytes(x, 4))
    {
      WriteByteByByte(mem[..], a, BeBytes(x, 4));
      PutByte(a, x / 0x100_0000);
      PutByte(a + 1, x / 0x1_0000 % 0x100);
      PutByte(a + 2, x / 0x100 % 0x100);
      PutByte(a + 3, x % 0x100);
    }

    method PutVByte(vt: Reg, i: nat, b: Byte)
      requires Valid()
      modifies v
      ensures v[..] == old(v[..])[vt := SetVByte(old(v[..])[vt], i, b)]
    {
      v[vt] := SetVByte(v[vt], i, b);
    }

    /* ---- vector loads and stores ---- */

    /** One turn of a byte loop: byte `i` of the load of `row` from `first` on. */
    method LoadStep(vt: Reg, ghost row: Row, ghost v0: VRegs, first: nat, i: nat, x: Byte, ghost ea: int)
      requires Valid() && first + i < 16 && x == DByte(mem[..], ea + i)
      requires v[..] == v0[vt := LoadInto(row, first, i, mem[..], ea)]
      modifies v
      ensures v[..] == v0[vt := LoadInto(row, first, i + 1, mem[..], ea)]
    {
      ghost var prev, m := v[..], mem[..];
      PutVByte(vt, first + i, x);
      StepAgain(prev, v[..], v0, vt, row, first, i, m, ea);
    }

    /** The byte loop of lsv, llv, ldv and lqv: at most `n` bytes, while they fit the register. */
    method LoadLoop(vt: Reg, e: nat, n: nat, ea: int)
      requires Valid() && n <= 16
      modifies v
      ensures v[..] == old(v[..])[vt := LoadInto(old(v[vt]), e, n, mem[..], ea)]
    {
      ghost var row := v[vt];
      LoadNothing(row, e, 0, mem[..], ea);
      var i := 0;
      while i < n && e + i < 16
        invariant i <= n && (e + i <= 16 || i == 0)
        invariant v[..] == old(v[..])[vt := LoadInto(row, e, i, mem[..], ea)]
      {
        LoadStep(vt, row, old(v[..]), e, i, mem[(ea + i) % 0x1000], ea);
        i := i + 1;
      }
      if i < n {
        if e >= 16 {
          LoadNothing(row, e, n, mem[..], ea);
        } else {
          LoadClipped(row, e, i, n, mem[..], ea);
        }
      }
    }

    /** The byte loop of lrv. */
    method LoadRightLoop(vt: Reg, start: nat, at: int)
      requires Valid()
      modifies v
      ensures v[..] == old(v[..])[vt := LoadInto(old(v[vt]), start, 16, mem[..], at)]
    {
      ghost var row := v[vt];
      LoadNothing(row, start, 0, mem[..], at);
      var i, ea := start, at;
      while i < 16
        invariant start <= i && (i <= 16 || i == start) && ea == at + (i - start)
        invariant v[..] == old(v[..])[vt := LoadInto(row, start, i - start, mem[..], at)]
      {
        LoadStep(vt, row, old(v[..]), start, i - start, mem[ea % 0x1000], at);
        i, ea := i + 1, ea + 1;
      }
      if start >= 16 {
        LoadNothing(row, start, 16, mem[..], at);
      } else {
        LoadClipped(row, start, i - start, 16, mem[..], at);
      }
    }

    /** lpv and luv. */
    method PackedLoop(vt: Reg, e: nat, ea: int, shift: int)
      requires Valid()
      modifies v
      ensures v[..] == old(v[..])[vt := LoadPacked(old(v[vt]), mem[..], ea, e, shift)]
    {
      ghost var row := v[vt];
      PackedEnds(row, mem[..], ea, e, shift);
      for i := 0 to 8
        invariant v[..] == old(v[..])[vt := PackedSoFar(row, mem[..], ea, e, shift, i)]
      {
        PackedOneMore(row, mem[..], ea, e, shift, i);
        ghost var prev := v[..];
        var b: int := mem[(ea + i) % 0x1000];
        PutLane(vt, (e + i) % 8, ToHalf(b * shift));
        UpdateTwice(old(v[..]), vt, prev[vt], v[..][vt]);
      }
    }

    /** ltv. */
    method TransposeLoop(vt: Reg, ea: int)
      requires Valid()
      modifies v
      ensures v[..] == LoadTransposed(old(v[..]), mem[..], ea, vt)
    {
      var group, win := vt / 8 * 8, ea - ea % 8;
      SlicesEnd(v[..], mem[..], ea, vt);
      for sl := 0 to 8
        invariant v[..] == SlicesSoFar(old(v[..]), mem[..], ea, vt, sl)
      {
        SliceOneMore(old(v[..]), mem[..], ea, vt, sl);
        var m := (win + (ea - win + 2 * sl) % 16) % 0x1000;
        PutLane(group + sl, sl, ToHalf(Be16(mem[m], mem[(m + 1) % 0x1000])));
      }
    }

    method PutLane(g: Reg, l: nat, x: Half)
      requires Valid() && l < 8
      modifies v
      ensures v[..] == old(v[..])[g := old(v[..])[g][l := x]]
    {
      v[g] := v[g][l := x];
    }

    method Lwc2(w: Word) returns (died: bool)
      requires Valid()
      modifies v
      ensures died <==> !LoadImplemented(w)
      ensures !died ==> v[..] == LoadVec(w, r[..], old(v[..]), mem[..])
      ensures died ==> v[..] == old(v[..])
    {
      var vt, e, ea := Rt(w), VmE(w), VmEa(w, r[..]);
      match VmOp(w) {
      case 0 | 1 | 2 | 3 => LoadLoop(vt, e, VmSize(w), ea);
      case 4 => LoadLoop(vt, e, 16 - ea % 16, ea);
      case 5 => LoadRightLoop(vt, 16 - ea % 16 + e, ea - ea % 16);
      case 6 => PackedLoop(vt, e, ea, 0x100);
      case 7 => PackedLoop(vt, e, ea, 0x80);
      case 11 =>
        if e / 2 != 0 {
          return true;
        }
        TransposeLoop(vt, ea);
      case _ => return true;
      }
      died := false;
    }

    /** The byte loops of the stores: n register bytes from e on, wrapping round the register. */
    method StoreLoop(vt: Reg, e: nat, n: nat, ea: int)
      requires Valid() && n <= 16
      modifies mem
      ensures mem[..] == WriteBytes(old(mem[..]), ea, BytesFrom(v[vt], e, n))
    {
      ghost var b := BytesFrom(v[vt], e, n);
      assert mem[..] == WriteBytes(mem[..], ea, b[..0]);
      for i := 0 to n
        invariant mem[..] == WriteBytes(old(mem[..]), ea, b[..i])
      {
        assert b[..i + 1] == b[..i] + [b[i]];
        WriteOneMore(old(mem[..]), ea, b[..i], b[i]);
        PutByte(ea + i, VByte(v[vt], e + i));
      }
      assert b[..n] == b;
    }

    /** The byte loop of srv. */
    method StoreRightLoop(vt: Reg, start: nat, at: int)
      requires Valid()
      modifies mem
      ensures mem[..] == WriteBytes(old(mem[..]), at, BytesFrom(v[vt], start, if start < 16 then 16 - start else 0))
    {
      if start < 16 {
        StoreLoop(vt, start, 16 - start, at);
      } else {
        assert WriteBytes(mem[..], at, []) == mem[..] && BytesFrom(v[vt], start, 0) == [];
      }
    }

    /** spv and suv. */
    method PackedStoreLoop(vt: Reg, e: nat, ea: int, shift: int)
      requires Valid() && (shift == 0x80 || shift == 0x100)
      modifies mem
      ensures mem[..] == WriteBytes(old(mem[..]), ea, PackedBytes(v[vt], e, shift))
    {
      ghost var b := PackedBytes(v[vt], e, shift);
      assert mem[..] == WriteBytes(mem[..], ea, b[..0]);
      for i := 0 to 8
        invariant mem[..] == WriteBytes(old(mem[..]), ea, b[..i])
      {
        assert b[..i + 1] == b[..i] + [b[i]];
        WriteOneMore(old(mem[..]), ea, b[..i], b[i]);
        PutByte(ea + i, U16(v[vt][(e + i) % 8]) / shift % 0x100);
      }
      assert b[..8] == b;
    }

    method Swc2(w: Word) returns (died: bool)
      requires Valid()
      modifies mem
      ensures died <==> !StoreImplemented(w)
      ensures !died ==> mem[..] == StoreVec(w, r[..], v[..], old(mem[..]))
      ensures died ==> mem[..] == old(mem[..])
    {
      died := VmOp(w) > 7;
      if !died {
        StoreAt(VmOp(w), Rt(w), VmE(w), VmEa(w, r[..]));
      }
    }

    /** The switch on the opcode. */
    method StoreAt(op: nat, vt: Reg, e: nat, ea: int)
      requires Valid() && op <= 7
      modifies mem
      ensures mem[..] == StoreRow(op, v[vt], old(mem[..]), e, ea)
    {
      match op {
      case 4 => StoreLoop(vt, e, 16 - ea % 16, ea);
      case 5 => StoreRightLoop(vt, 16 - ea % 16 + e, ea - ea % 16);
      case 6 => PackedStoreLoop(vt, e, ea, if e >= 8 then 0x80 else 0x100);
      case 7 => PackedStoreLoop(vt, e, ea, if e >= 8 then 0x100 else 0x80);
      case _ => StoreLoop(vt, e, SizeOf(op), ea);
      }
    }

    /* ---- DMA and the SP registers ---- */

    method CopyToMem(at: nat, dram: nat, n: nat)
      requires Valid() && at + n <= MEM_SIZE && dram + n <= DRAM_SIZE
      modifies mem
      ensures mem[..] == Copy(old(mem[..]), at, rdram[..], dram, n)
    {
      forall k | 0 <= k < n {
        mem[at + k] := rdram[dram + k];
      }
      ghost var now, want := mem[..], Copy(old(mem[..]), at, rdram[..], dram, n);
      forall k | 0 <= k < MEM_SIZE ensures now[k] == want[k] {
        CopyAt(old(mem[..]), at, rdram[..], dram, n, k);
      }
    }

    method CopyToDram(dram: nat, at: nat, n: nat)
      requires Valid() && at + n <= MEM_SIZE && dram + n <= DRAM_SIZE
      modifies rdram
      ensures rdram[..] == Copy(old(rdram[..]), dram, mem[..], at, n)
    {
      forall k | 0 <= k < n {
        rdram[dram + k] := mem[at + k];
      }
      ghost var now, want := rdram[..], Copy(old(rdram[..]), dram, mem[..], at, n);
      forall k | 0 <= k < DRAM_SIZE ensures now[k] == want[k] {
        CopyAt(old(rdram[..]), dram, mem[..], at, n, k);
      }
    }

    ghost function BuffersNow(): RspDma.Buffers
      requires Valid()
      reads mem, rdram
    {
      RspDma.Buffers(mem[..], rdram[..])
    }

    /** One row of the transfer; where the next one starts. */
    method CopyRow(bank: nat, off: nat, dram: nat, n: nat, toRsp: bool)
      requires Valid() && bank + off + n <= MEM_SIZE && dram + n <= DRAM_SIZE
      modifies mem, rdram
      ensures BuffersNow() ==
              if toRsp then old(BuffersNow()).(mem := Copy(old(mem[..]), bank + off, old(rdram[..]), dram, n))
              else old(BuffersNow()).(dram := Copy(old(rdram[..]), dram, old(mem[..]), bank + off, n))
    {
      if toRsp {
        CopyToMem(bank + off, dram, n);
      } else {
        CopyToDram(dram, bank + off, n);
      }
    }

    method DmaRow(bank: nat, off: nat, dram: nat, len: nat, skip: nat, toRsp: bool) returns (off': nat, dram': nat)
      requires Valid() && BankOk(bank) && CursorOk(Cursor(off, dram)) && LenOk(len)
      modifies this`imemGen, mem, rdram
      ensures CursorOk(Cursor(off', dram')) && Cursor(off', dram') == NextRow(Cursor(off, dram), len, skip)
      ensures BuffersNow() == OneRow(old(BuffersNow()), toRsp, bank, Cursor(off, dram), len)
      ensures imemGen == old(imemGen) + if toRsp && bank == 0x1000 then 1 else 0
    {
      var n := len;
      if off + n > 0x1000 {
        n := 0x1000 - off;
      }
      RowStaysInBank(Cursor(off, dram), len, skip);
      CopyRow(bank, off, dram, n, toRsp);
      if toRsp && bank == 0x1000 {
        imemGen := imemGen + 1;
      }
      off', dram' := (off + n) % 0x1000, (dram + n + skip) % DRAM_SPAN;
    }

    method DmaRows(bank: nat, off0: nat, dram0: nat, len: nat, skip: nat, count: nat, toRsp: bool)
        returns (off: nat, dram: nat)
      requires Valid() && BankOk(bank) && CursorOk(Cursor(off0, dram0)) && LenOk(len)
      modifies this`imemGen, mem, rdram
      ensures BuffersNow() == Rows(old(BuffersNow()), toRsp, bank, Cursor(off0, dram0), len, skip, count)
      ensures Cursor(off, dram) == CursorAfter(Cursor(off0, dram0), len, skip, count)
      ensures imemGen == old(imemGen) + if toRsp && bank == 0x1000 then count else 0
    {
      off, dram := off0, dram0;
      for row := 0 to count
        invariant CursorOk(Cursor(off, dram))
        invariant Rows(BuffersNow(), toRsp, bank, Cursor(off, dram), len, skip, count - row) ==
                  Rows(old(BuffersNow()), toRsp, bank, Cursor(off0, dram0), len, skip, count)
        invariant CursorAfter(Cursor(off, dram), len, skip, count - row) ==
                  CursorAfter(Cursor(off0, dram0), len, skip, count)
        invariant imemGen == old(imemGen) + if toRsp && bank == 0x1000 then row else 0
      {
        off, dram := DmaRow(bank, off, dram, len, skip, toRsp);
      }
    }

    method DmaTransfer(x: Word, toRsp: bool)
      requires Valid()
      modifies this, mem, rdram
      ensures Snap() == Dma(old(Snap()), x, toRsp)
    {
      var bank, off0, dram0 := BankOf(SpNow()), FirstRow(SpNow()).off, FirstRow(SpNow()).dram;
      assert FirstRow(SpNow()) == Cursor(off0, dram0);
      var len, skip, count := RowBytesOf(x), SkipOf(x), RowsOf(x);
      CursorAfterOk(Cursor(off0, dram0), len, skip, count);
      var off, dram := DmaRows(bank, off0, dram0, len, skip, count, toRsp);
      spMemAddr, spDramAddr := bank + off, dram;
    }

    method WriteSp(rd: Reg, x: Word) returns (died: bool)
      requires Valid()
      modifies this, mem, rdram
      ensures died <==> !Mtc0Implemented(rd)
      ensures !died ==> Snap() == Mtc0(old(Snap()), rd, x)
    {
      died := false;
      match rd
      case 0 => spMemAddr := x % 0x2000;
      case 1 => spDramAddr := x % 0x100_0000;
      case 2 => DmaTransfer(x, true);
      case 3 => DmaTransfer(x, false);
      case 4 => spStatus := ApplyStatusWrite(spStatus, x);
      case _ => died := rd == 5 || rd == 6 || rd > 15;
    }

    /* ---- the vector ALU ---- */

    ghost function VuNow(): Vu
      requires Valid()
      reads v, acc, vcoL, vcoH, vccL, vccH, vce
    {
      Vu(v[..], acc[..], FlagsNow())
    }

    /** Lane j of the accumulators and flags. */
    function LaneNow(j: nat): Lane
      requires Valid() && j < 8
      reads acc, vcoL, vcoH, vccL, vccH, vce
    {
      Lane(acc[j], vcoL[j], vcoH[j], vccL[j], vccH[j], vce[j])
    }

    method PutLaneState(i: nat, x: Lane)
      requires Valid() && i < 8
      modifies acc, vcoL, vcoH, vccL, vccH, vce
      ensures forall j :: 0 <= j < 8 ==> LaneNow(j) == if j == i then x else old(LaneNow(j))
    {
      acc[i], vcoL[i], vcoH[i], vccL[i], vccH[i], vce[i] := x.acc, x.coL, x.coH, x.ccL, x.ccH, x.ce;
    }

    method OneLane(fn: int, e: nat, s: Half, t: Half, i: nat) returns (res: Half)
      requires Valid() && IsVectorOp(fn) && i < 8
      modifies acc, vcoL, vcoH, vccL, vccH, vce
      ensures res == LaneOp(fn, e, s, t, old(LaneNow(i))).res
      ensures forall j :: 0 <= j < 8 ==>
                LaneNow(j) == if j == i then LaneOp(fn, e, s, t, old(LaneNow(i))).x else old(LaneNow(j))
    {
      var out := LaneOp(fn, e, s, t, LaneNow(i));
      PutLaneState(i, out.x);
      res := out.res;
    }

    /** The lane loop: accumulators and flags change lane by lane, the register at the end. */
    method VectorAlu(w: Word) returns (died: bool)
      requires Valid()
      modifies v, acc, vcoL, vcoH, vccL, vccH, vce
      ensures died <==> !IsVectorOp(Fn(w))
      ensures !died ==> VuNow() == VectorOp(w, old(VuNow()))
    {
      var e, vt, vs, vd, fn := VecE(w), VecVt(w), VecVs(w), VecVd(w), Fn(w);
      if !IsVectorOp(fn) {
        return true;
      }
      ghost var o := LaneOuts(fn, e, v[vs], v[vt], VuNow());
      var res: seq<Half> := [];
      for i := 0 to 8
        invariant v[..] == old(v[..]) && |res| == i
        invariant forall j :: 0 <= j < i ==> res[j] == o[j].res && LaneNow(j) == o[j].x
        invariant forall j :: i <= j < 8 ==> LaneNow(j) == old(LaneNow(j))
      {
        var x := OneLane(fn, e, v[vs][i], v[vt][VtLane(e, i)], i);
        res := res + [x];
      }
      v[vd] := res;
      LanesWritten(o, old(v[..]), vd, res, VuNow());
      died := false;
    }

    /* ---- COP2 moves ---- */

    method ReadVflags(which: Reg) returns (x: nat)
      requires Valid()
      ensures x == GetVflags(FlagsNow(), which)
    {
      var lo, hi := if which == 0 then vcoL else if which == 1 then vccL else vce, if which == 0 then vcoH else vccH;
      var low, high := 0, 0;
      ghost var l: Bits8, h: Bits8 := lo[..], hi[..];
      assert l == FlagLow(FlagsNow(), which) && h == FlagHigh(FlagsNow(), which);
      for i := 0 to 8
        invariant low + PackBits(l, i) == PackBits(l, 0) && high + PackBits(h, i) == PackBits(h, 0)
      {
        low := low + if lo[i] then Pow2(i) else 0;
        high := high + if hi[i] then Pow2(i) else 0;
      }
      x := if which != 2 then low + 0x100 * high else low;
    }

    method PutBits(lo: array<bool>, x: Word, from: nat)
      requires lo.Length == 8
      modifies lo
      ensures lo[..] == UnpackBits(x, from)
    {
      forall i | 0 <= i < 8 {
        lo[i] := BitSet(x, from + i);
      }
    }

    method WriteVflags(which: Reg, x: Word)
      requires Valid()
      modifies vcoL, vcoH, vccL, vccH, vce
      ensures FlagsNow() == SetVflags(old(FlagsNow()), which, x)
    {
      PutBits(if which == 0 then vcoL else if which == 1 then vccL else vce, x, 0);
      if which != 2 {
        PutBits(if which == 0 then vcoH else vccH, x, 8);
      }
    }

    method PutReg(i: Reg, x: Word)
      requires Valid()
      modifies r
      ensures r[..] == old(r[..])[i := x]
    {
      r[i] := x;
    }

    method Cop2(w: Word) returns (died: bool)
      requires Valid()
      modifies r, v, acc, vcoL, vcoH, vccL, vccH, vce
      ensures match ExecCop2(w, old(Snap()))
              case Ok(s) => !died && Snap().(r := Snap().r[0 := 0]) == s
              case Die => died
    {
      if IsVector(w) {
        died := VectorAlu(w);
      } else {
        died := Cop2Move(w);
      }
    }

    /** mtc2 */
    method MoveTo(vd: Reg, e: nat, x: Word)
      requires Valid() && e < 16
      modifies v
      ensures Snap() == SetRow(old(Snap()), vd, Mtc2(old(v[vd]), e, x))
    {
      PutVByte(vd, e, x / 0x100 % 0x100);
      if e != 15 {
        PutVByte(vd, e + 1, x % 0x100);
      }
    }

    method Cop2Move(w: Word) returns (died: bool)
      requires Valid() && !IsVector(w)
      modifies r, v, vcoL, vcoH, vccL, vccH, vce
      ensures match ExecCop2(w, old(Snap()))
              case Ok(s) => !died && Snap().(r := Snap().r[0 := 0]) == s
              case Die => died
    {
      died := false;
      var rt, vd, e := Rt(w), Rd(w), VmE(w);
      match Rs(w) {
      case 0 =>
        PutReg(rt, Mfc2(v[vd], e));
      case 4 =>
        MoveTo(vd, e, r[rt]);
      case 2 =>
        var x := ReadVflags(vd);
        PutReg(rt, Wrap32(ToHalf(x)));
      case 6 =>
        WriteVflags(vd, r[rt]);
      case _ =>
        died := true;
      }
    }

    /* ---- the interpreter loop ---- */

    method Scalar(w: Word) returns (died: bool)
      requires Valid() && (Op(w) == 0 || 0x08 <= Op(w) <= 0x0f || IsLoad(Op(w)) || IsStore(Op(w)))
      modifies r, mem
      ensures match Exec(w, old(Snap()))
              case Ok(s) => !died && Snap().(r := Snap().r[0 := 0]) == s
              case Die => died
    {
      died := false;
      var op := Op(w);
      if op == 0 {
        if IsSpecial(Fn(w)) {
          PutReg(Rd(w), SpecialOp(w, r[..]));
        } else {
          died := true;
        }
      } else if op <= 0x0f {
        PutReg(Rt(w), ImmediateOp(w, r[..]));
      } else {
        AccessScalar(w);
      }
    }

    method AccessScalar(w: Word)
      requires Valid() && (IsLoad(Op(w)) || IsStore(Op(w)))
      modifies r, mem
      ensures var s := old(Snap());
              Snap().(r := Snap().r[0 := 0]) ==
                if IsLoad(Op(w)) then SetReg(s, Rt(w), LoadOp(w, s.r, s.mem))
                else SetReg(s.(mem := StoreOp(w, s.r, s.mem)), 0, 0)
    {
      var op, ea := Op(w), r[Rs(w)] as int + Simm(w);
      if IsLoad(op) {
        PutReg(Rt(w), LoadValue(op, mem[..], ea));
      } else {
        StoreScalar(op, ea, r[Rt(w)]);
      }
    }

    method StoreScalar(op: int, ea: int, x: Word)
      requires Valid() && IsStore(op)
      modifies mem
      ensures mem[..] == WriteBytes(old(mem[..]), ea, BeBytes(x, StoreSize(op)))
    {
      if op == 0x28 {
        ghost var m := mem[..];
        PutByte(ea, x % 0x100);
        assert WriteBytes(m, ea, []) == m;
        WriteOneMore(m, ea, [], x % 0x100);
      } else if op == 0x29 {
        Wr16(ea, x);
      } else {
        Wr32(ea, x);
      }
    }

    method Cop0(w: Word) returns (died: bool)
      requires Valid() && Op(w) == 0x10
      modifies this, r, mem, rdram
      ensures match ExecCop0(w, old(Snap()))
              case Ok(s) => !died && Snap().(r := Snap().r[0 := 0]) == s
              case Die => died
    {
      died := false;
      if Rs(w) == 0 {
        if Mfc0Implemented(Rd(w)) {
          PutReg(Rt(w), Mfc0(SpNow(), Rd(w)));
        } else {
          died := true;
        }
      } else if Rs(w) == 4 {
        died := WriteSp(Rd(w), r[Rt(w)]);
      } else {
        died := true;
      }
    }

    /** The switch on a word that transfers nothing; the caller then clears r[0]. */
    method Execute(w: Word) returns (died: bool)
      requires Valid()
      modifies this, r, v, acc, vcoL, vcoH, vccL, vccH, vce, mem, rdram
      ensures match Exec(w, old(Snap()))
              case Ok(s) => !died && Snap().(r := Snap().r[0 := 0]) == s
              case Die => died
    {
      var op := Op(w);
      if op == 0 || 0x08 <= op <= 0x0f || IsLoad(op) || IsStore(op) {
        died := Scalar(w);
      } else if op == 0x10 {
        died := Cop0(w);
      } else if op == 0x12 {
        died := Cop2(w);
      } else if op == 0x32 {
        died := Lwc2(w);
      } else if op == 0x3a {
        died := Swc2(w);
      } else {
        died := true;
      }
    }

    /** A transfer: the instruction after the slot, and the link register. */
    method TransferControl(w: Word, npc: Addr) returns (after: Addr)
      requires Valid() && IsTransfer(w)
      modifies r
      ensures var (to, s) := Transfer(w, npc, old(Snap()));
              after == to && Snap().(r := Snap().r[0 := 0]) == s
    {
      after := Next(npc);
      var a, b, op := r[Rs(w)], r[Rt(w)], Op(w);
      if op == 0 {
        after := MaskPc(a);
        if Fn(w) == 0x09 {
          PutReg(Rd(w), Bytes(Next(npc)));
        }
      } else if op == 2 || op == 3 {
        after := MaskPc(4 * w as int);
        if op == 3 {
          PutReg(31, Bytes(Next(npc)));
        }
      } else {
        if op == 1 && Rt(w) / 16 == 1 {
          PutReg(31, Bytes(Next(npc)));
        }
        if Taken(w, a, b) {
          after := MaskPc(4 * npc + 4 * Simm(w));
        }
      }
    }

    /** An instruction that is not BREAK, then `r[0] = 0`. */
    method Perform(w: Word, npc: Addr) returns (after: Addr, died: bool)
      requires Valid() && !IsBreak(w)
      modifies this, r, v, acc, vcoL, vcoH, vccL, vccH, vce, mem, rdram
      ensures Performed(w, npc, old(Snap()), after, died, Snap())
    {
      after, died := Next(npc), false;
      if IsTransfer(w) {
        after := TransferControl(w, npc);
      } else {
        died := Execute(w);
      }
      r[0] := 0;
    }

    /** One turn of the loop: the instruction at `pc`. */
    method StepOnce(pc: Addr, npc: Addr) returns (after: Addr, died: bool)
      requires Valid() && !halted
      modifies this, r, v, acc, vcoL, vcoH, vccL, vccH, vce, mem, rdram
      ensures died <==> Step(Exec, Running(pc, npc, old(Snap()))) == Died
      ensures !died ==> CfgNow(npc, after) == Step(Exec, Running(pc, npc, old(Snap())))
    {
      var w := WordAt(mem[IMEM..], pc);
      if IsBreak(w) {
        halted := true;
        r[0] := 0;
        return Next(npc), false;
      }
      ghost var s0 := Snap();
      after, died := Perform(w, npc);
      PerformedIsStep(pc, npc, s0, after, died, Snap());
    }

    /** Where a run that has reached this state stands. */
    ghost function CfgNow(pc: Addr, npc: Addr): Cfg
      requires Valid()
      reads this, r, v, acc, vcoL, vcoH, vccL, vccH, vce, mem, rdram
    {
      if halted then Halted(Snap()) else Running(pc, npc, Snap())
    }

    /** The interpreter's loop, for at most `fuel` turns. */
    method Loop(pc0: Addr, npc0: Addr, fuel: nat) returns (died: bool)
      requires Valid() && !halted
      modifies this, r, v, acc, vcoL, vcoH, vccL, vccH, vce, mem, rdram
      ensures Reached(old(CfgNow(pc0, npc0)), fuel, died, halted, Snap())
    {
      var pc, npc, left: nat := pc0, npc0, fuel;
      died := false;
      ghost var c0 := CfgNow(pc, npc);
      while left > 0 && !halted && !died
        invariant OnTheWay(left, if died then Died else CfgNow(pc, npc), fuel, c0)
        decreases left
      {
        ghost var c := CfgNow(pc, npc);
        var after, dies := StepOnce(pc, npc);
        StepTaken(left, c, fuel, c0);
        pc, npc, left, died := npc, after, left - 1, dies;
      }
      StoppedThere(left, if died then Died else CfgNow(pc, npc), fuel, c0);
    }

    /** The interpreter from `start`. */
    method Run(start: Word, fuel: nat) returns (out: RunResult)
      requires Valid()
      modifies this, r, v, acc, vcoL, vcoH, vccL, vccH, vce, mem, rdram
      ensures RunEnds(old(Snap()), start, fuel, out, Snap())
    {
      halted := false;
      assert CfgNow(MaskPc(start), Next(MaskPc(start))) == Start(start, old(Snap()));
      var died := Loop(MaskPc(start), Next(MaskPc(start)), fuel);
      out := if died then Fatal else if halted then Finished else OutOfSteps;
    }
  }

  /** What a word that is not BREAK does to the state and to the instruction after the next. */
  ghost predicate Performed(w: Word, npc: Addr, s0: Rsp, after: Addr, died: bool, s: Rsp) {
    if IsTransfer(w) then !died && (after, s) == Transfer(w, npc, s0)
    else if Exec(w, s0).Ok? then !died && after == Next(npc) && s == Exec(w, s0).s
    else died
  }

  lemma PerformedIsStep(pc: Addr, npc: Addr, s0: Rsp, after: Addr, died: bool, s: Rsp)
    requires var w := WordAt(ImageOf(s0), pc); !IsBreak(w) && Performed(w, npc, s0, after, died, s)
    requires !s0.halted
    ensures Step(Exec, Running(pc, npc, s0)) == if died then Died else Running(npc, after, s)
    ensures !died ==> !s.halted
  {
    PlainKeepsImem(WordAt(ImageOf(s0), pc), s0);
  }

  ghost predicate Reached(c0: Cfg, fuel: nat, died: bool, halted: bool, s: Rsp) {
    match Steps(Exec, fuel, c0)
    case Halted(t) => !died && halted && s == t
    case Died => died
    case Running(_, _, t) => !died && !halted && s == t
  }

  /** What Run reports: the interpreter's outcome, and the state it is in. */
  ghost predicate RunEnds(s0: Rsp, start: Word, fuel: nat, out: RunResult, s: Rsp) {
    match Steps(Exec, fuel, Start(start, s0))
    case Halted(t) => out.Finished? && s == t
    case Died => out.Fatal?
    case Running(_, _, t) => out.OutOfSteps? && s == t
  }

  /** With `left` of `fuel` steps to go, a run that began in `c0` is in `c`. */
  ghost predicate OnTheWay(left: nat, c: Cfg, fuel: nat, c0: Cfg) {
    Steps(Exec, left, c) == Steps(Exec, fuel, c0)
  }

  lemma StepTaken(left: nat, c: Cfg, fuel: nat, c0: Cfg)
    requires left > 0 && OnTheWay(left, c, fuel, c0)
    ensures OnTheWay(left - 1, Step(Exec, c), fuel, c0)
  {
  }

  lemma StoppedThere(left: nat, c: Cfg, fuel: nat, c0: Cfg)
    requires OnTheWay(left, c, fuel, c0) && (left == 0 || !c.Running?)
    ensures Steps(Exec, fuel, c0) == c
  {
    if left > 0 {
      StopsForGood(Exec, left, c);
    }
  }

  /** Up to four bytes written one after the other. */
  lemma WriteByteByByte(mem: Mem, a: int, b: seq<Byte>)
    requires |b| == 2 || |b| == 4
    ensures var m2 := mem[a % 0x1000 := b[0]][(a + 1) % 0x1000 := b[1]];
            if |b| == 2 then WriteBytes(mem, a, b) == m2
            else WriteBytes(mem, a, b) == m2[(a + 2) % 0x1000 := b[2]][(a + 3) % 0x1000 := b[3]]
  {
    assert WriteBytes(mem, a, []) == mem;
    assert b[..1] == [] + [b[0]] && b[..2] == b[..1] + [b[1]];
    WriteOneMore(mem, a, [], b[0]);
    WriteOneMore(mem, a, b[..1], b[1]);
    if |b| == 4 {
      assert b[..3] == b[..2] + [b[2]] && b == b[..3] + [b[3]];
      WriteOneMore(mem, a, b[..2], b[2]);
      WriteOneMore(mem, a, b[..3], b[3]);
    } else {
      assert b == b[..2];
    }
  }
}
