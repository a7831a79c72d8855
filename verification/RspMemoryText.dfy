/** The text of memory accesses (rspFunc.cc): an inline path for what stays inside data
    memory and a call into rsp.cc for the rest, and their agreement with the byte loops. */
module RspMemoryText {
  import opened Bits
  import opened RspState
  import opened RspMemory
  import opened RspMemoryLaws
  import opened BlockGraph

  function Ea12(ea: int): nat { ea % 0x1000 }

  /** fitsInDmem */
  predicate Fits(ea: int, n: nat) { Ea12(ea) <= 0x1000 - n }

  /* ---- scalar accesses: one unaligned host access and a byte swap ---- */

  /** A little-endian host load of `b`. */
  function HostInt(b: seq<Byte>): (x: nat)
  {
    if b == [] then 0 else b[0] as int + 0x100 * HostInt(b[1..])
  }

  /** The bytes a little-endian host stores for `x`. */
  function HostBytes(x: nat, n: nat): (b: seq<Byte>)
    ensures |b| == n
    decreases n
  {
    if n == 0 then [] else [x % 0x100] + HostBytes(x / 0x100, n - 1)
  }

  /** llvm.bswap on an integer of n bytes. */
  function Bswap(x: nat, n: nat): nat { HostInt(Reverse(HostBytes(x, n))) }

  function Reverse(b: seq<Byte>): (r: seq<Byte>)
    ensures |r| == |b| && forall i :: 0 <= i < |b| ==> r[i] == b[|b| - 1 - i]
  {
    if b == [] then [] else Reverse(b[1..]) + [b[0]]
  }

  function LoadText(mem: Mem, ea: int, n: nat): int
    requires n == 1 || n == 2 || n == 4
  {
    if n == 1 then mem[Ea12(ea)]
    else if Fits(ea, n) then Bswap(HostInt(mem[Ea12(ea)..Ea12(ea) + n]), n)
    else if n == 2 then Rd16(mem, ea) else Rd32(mem, ea)
  }

  /** Bytes stored by the host at offset `at`. */
  function Poke(mem: Mem, at: nat, b: seq<Byte>): Mem
    requires at + |b| <= MEM_SIZE
  {
    mem[..at] + b + mem[at + |b|..]
  }

  /** CreateTrunc to the access size. */
  function TruncTo(x: Word, n: nat): Word { if n == 2 then x % 0x1_0000 else x }

  function StoreText(mem: Mem, ea: int, x: Word, n: nat): Mem
    requires n == 1 || n == 2 || n == 4
  {
    if n == 1 then mem[Ea12(ea) := x % 0x100]
    else if Fits(ea, n) then Poke(mem, Ea12(ea), HostBytes(Bswap(TruncTo(x, n), n), n))
    else WriteBytes(mem, ea, BeBytes(x, n))
  }

  lemma {:induction false} HostRoundTrip(b: seq<Byte>)
    ensures HostBytes(HostInt(b), |b|) == b
  {
    if b != [] {
      HostRoundTrip(b[1..]);
      assert HostInt(b) % 0x100 == b[0] && HostInt(b) / 0x100 == HostInt(b[1..]);
      assert b == [b[0]] + b[1..];
    }
  }

  lemma TwoBytes(a: Byte, b: Byte)
    ensures HostInt([b, a]) == Be16(a, b) && Reverse([a, b]) == [b, a]
  {
    assert [b, a][1..] == [a] && [a][1..] == [];
    assert HostInt([]) == 0 && HostInt([a]) == a as int + 0x100 * HostInt([]);
    assert HostInt([b, a]) == b as int + 0x100 * HostInt([a]);
  }

  lemma FourBytes(a: Byte, b: Byte, c: Byte, d: Byte)
    ensures HostInt([d, c, b, a]) == Be32(a, b, c, d) && Reverse([a, b, c, d]) == [d, c, b, a]
  {
    assert [d, c, b, a][1..] == [c, b, a] && [c, b, a][1..] == [b, a];
    TwoBytes(a, b);
  }

  /** The inline scalar load and the byte loop read the same value. */
  lemma ScalarLoadAgrees(mem: Mem, ea: int, n: nat)
    requires n == 1 || n == 2 || n == 4
    ensures LoadText(mem, ea, n) ==
            if n == 1 then DByte(mem, ea) as int else if n == 2 then Rd16(mem, ea) else Rd32(mem, ea)
  {
    if n == 2 && Fits(ea, 2) {
      LoadTwo(mem, ea);
    } else if n == 4 && Fits(ea, 4) {
      LoadFour(mem, ea);
    }
  }

  lemma WindowByte(mem: Mem, ea: int, n: nat, i: nat)
    requires Fits(ea, n) && i < n
    ensures mem[Ea12(ea)..Ea12(ea) + n][i] == DByte(mem, ea + i)
  {
    ModAdd(ea, i);
  }

  lemma LoadTwo(mem: Mem, ea: int)
    requires Fits(ea, 2)
    ensures LoadText(mem, ea, 2) == Rd16(mem, ea)
  {
    var b := mem[Ea12(ea)..Ea12(ea) + 2];
    WindowByte(mem, ea, 2, 0);
    WindowByte(mem, ea, 2, 1);
    assert b == [b[0], b[1]];
    HostRoundTrip(b);
    TwoBytes(b[0], b[1]);
  }

  lemma LoadFour(mem: Mem, ea: int)
    requires Fits(ea, 4)
    ensures LoadText(mem, ea, 4) == Rd32(mem, ea)
  {
    var b := mem[Ea12(ea)..Ea12(ea) + 4];
    WindowByte(mem, ea, 4, 0);
    WindowByte(mem, ea, 4, 1);
    WindowByte(mem, ea, 4, 2);
    WindowByte(mem, ea, 4, 3);
    assert b == [b[0], b[1], b[2], b[3]];
    HostRoundTrip(b);
    FourBytes(b[0], b[1], b[2], b[3]);
  }

  /** A host store inside data memory is the wrapping write. */
  lemma PokeIsWrite(mem: Mem, ea: int, b: seq<Byte>)
    requires Ea12(ea) + |b| <= 0x1000
    ensures Poke(mem, Ea12(ea), b) == WriteBytes(mem, ea, b)
  {
    var p, w := Poke(mem, Ea12(ea), b), WriteBytes(mem, ea, b);
    forall k | 0 <= k < MEM_SIZE ensures p[k] == w[k] {
      if k < 0x1000 {
        assert (k - ea) % 0x1000 == (k - Ea12(ea)) % 0x1000;
      }
    }
  }

  lemma StoredTwo(x: Word)
    ensures Reverse(HostBytes(TruncTo(x, 2), 2)) == BeBytes(x, 2)
  {
    var y := x % 0x1_0000;
    LowBytes(x);
    var h, lo, hi := HostBytes(y, 2), y % 0x100, y / 0x100 % 0x100;
    assert h == [lo, hi];
    assert Reverse(h) == [hi, lo];
  }

  lemma LowBytes(x: Word)
    ensures x % 0x1_0000 % 0x100 == x % 0x100 && x % 0x1_0000 / 0x100 % 0x100 == x / 0x100 % 0x100
  {
    var a, b, c, d := Digits(x);
    DivIs(0x100 * c as int + d, 0x100, c, d);
  }

  lemma StoredFour(x: Word)
    ensures Reverse(HostBytes(TruncTo(x, 4), 4)) == BeBytes(x, 4)
  {
    var a, b, c, d := Digits(x);
    var y, z := 0x100 * a as int + b, 0x1_0000 * a as int + 0x100 * b as int + c;
    DivIs(z, 0x100, y, c);
    DivIs(y, 0x100, a, b);
    HostDigits(x, z, y, a, b, c, d);
    assert BeBytes(x, 4) == [a, b, c, d];
  }

  lemma HostDigits(x: nat, z: nat, y: nat, a: Byte, b: Byte, c: Byte, d: Byte)
    requires x / 0x100 == z && x % 0x100 == d && z / 0x100 == y && z % 0x100 == c && y / 0x100 == a && y % 0x100 == b
    ensures Reverse(HostBytes(x, 4)) == [a, b, c, d]
  {
    assert HostBytes(a, 1) == [a] + HostBytes(0, 0);
    assert HostBytes(y, 2) == [b, a] && HostBytes(z, 3) == [c, b, a] && HostBytes(x, 4) == [d, c, b, a];
    FourBytes(a, b, c, d);
  }

  lemma StoredBytes(x: Word, n: nat)
    requires n == 2 || n == 4
    ensures Reverse(HostBytes(TruncTo(x, n), n)) == BeBytes(x, n)
  {
    if n == 2 {
      StoredTwo(x);
    } else {
      StoredFour(x);
    }
  }

  /** The inline scalar store and the byte loop write the same bytes. */
  lemma ScalarStoreAgrees(mem: Mem, ea: int, x: Word, n: nat)
    requires n == 1 || n == 2 || n == 4
    ensures StoreText(mem, ea, x, n) == WriteBytes(mem, ea, BeBytes(x, n))
  {
    if n == 1 {
      assert mem[Ea12(ea) := x % 0x100] == Poke(mem, Ea12(ea), [x % 0x100]);
      PokeIsWrite(mem, ea, [x % 0x100]);
    } else if Fits(ea, n) {
      var b := Reverse(HostBytes(TruncTo(x, n), n));
      HostRoundTrip(b);
      StoredBytes(x, n);
      PokeIsWrite(mem, ea, b);
    }
  }

  /* ---- vector registers as host bytes ---- */

  /** Byte i of a bitcast <8 x i16> on a little-endian host. */
  function HostByte(row: Row, i: nat): Byte
    requires i < 16
  {
    var x := U16(row[i / 2]);
    if i % 2 == 0 then x % 0x100 else x / 0x100
  }

  /** swapPairs: `i ^ 1` */
  function Swap(i: nat): nat { if i % 2 == 0 then i + 1 else i - 1 }

  function ToBytesText(row: Row): RowBytes { seq(16, i requires 0 <= i < 16 => HostByte(row, Swap(i))) }

  lemma ToBytesAgrees(row: Row)
    ensures ToBytesText(row) == ToBytes(row)
  {
    forall i | 0 <= i < 16 ensures HostByte(row, Swap(i)) == VByte(row, i) {
      SwappedByte(row, i);
    }
  }

  lemma SwappedByte(row: Row, i: nat)
    requires i < 16
    ensures HostByte(row, Swap(i)) == VByte(row, i)
  {
    assert Swap(i) / 2 == i % 16 / 2 && Swap(i) % 2 == 1 - i % 2;
  }

  datatype VecMemKind = Fixed | RowLeft | RowRight

  /** Whether the inline path exists and is taken. */
  predicate FastLoad(kind: VecMemKind, ea: int, e: nat, n: nat) {
    match kind
    case Fixed => e + n <= 16 && Fits(ea, n)
    case RowLeft => e == 0 && Ea12(ea) <= 0xff0
    case RowRight => e == 0 && Ea12(ea) >= 16
  }

  predicate FastStore(kind: VecMemKind, ea: int, e: nat, n: nat) { !kind.RowRight? && FastLoad(kind, ea, e, n) }

  function BlendByte(kind: VecMemKind, before: RowBytes, window: seq<Byte>, e: nat, n: nat, k: nat, i: nat): Byte
    requires i < 16 && |window| == (if kind.Fixed? then n else 16)
  {
    match kind
    case Fixed => if e <= i < e + n then window[i - e] else before[i]
    case RowLeft => if i < 16 - k then window[i] else before[i]
    case RowRight => if i >= 16 - k then window[i] else before[i]
  }

  /** The inline load: blend a window of memory into the old register. */
  function LoadFast(row: Row, mem: Mem, ea: int, e: nat, n: nat, kind: VecMemKind): Row
    requires FastLoad(kind, ea, e, n) && n <= 16
  {
    var at := if kind.RowRight? then Ea12(ea) - 16 else Ea12(ea);
    var window := mem[at..at + (if kind.Fixed? then n else 16)];
    FromBytes(seq(16, i requires 0 <= i < 16 => BlendByte(kind, ToBytesText(row), window, e, n, ea % 16, i)))
  }

  /** The loads the inline path is meant for. */
  function LoadMeant(row: Row, mem: Mem, ea: int, e: nat, n: nat, kind: VecMemKind): Row {
    match kind
    case Fixed => LoadInto(row, e, n, mem, ea)
    case RowLeft => Lqv(row, mem, ea, e)
    case RowRight => Lrv(row, mem, ea, e)
  }

  lemma DmemAt(mem: Mem, ea: int, d: int)
    requires 0 <= Ea12(ea) + d < 0x1000
    ensures DByte(mem, ea + d) == mem[Ea12(ea) + d]
  {
    ModAdd(ea, d);
  }

  lemma BlendedByte(kind: VecMemKind, row: Row, window: seq<Byte>, e: nat, n: nat, k: nat, i: nat)
    requires i < 16 && |window| == (if kind.Fixed? then n else 16)
    ensures VByte(FromBytes(seq(16, j requires 0 <= j < 16 =>
                                      BlendByte(kind, ToBytesText(row), window, e, n, k, j))), i) ==
            BlendByte(kind, ToBytes(row), window, e, n, k, i)
  {
    ByteOfBytes(seq(16, j requires 0 <= j < 16 => BlendByte(kind, ToBytesText(row), window, e, n, k, j)), i);
    ToBytesAgrees(row);
  }

  lemma FixedByte(row: Row, mem: Mem, ea: int, e: nat, n: nat, i: nat)
    requires FastLoad(Fixed, ea, e, n) && i < 16
    ensures BlendByte(Fixed, ToBytes(row), mem[Ea12(ea)..Ea12(ea) + n], e, n, ea % 16, i) ==
            VByte(LoadInto(row, e, n, mem, ea), i)
  {
    LoadedByte(row, e, n, mem, ea, i);
    if e <= i < e + n { DmemAt(mem, ea, i - e); }
  }

  lemma RowLeftByte(row: Row, mem: Mem, ea: int, i: nat)
    requires FastLoad(RowLeft, ea, 0, 16) && i < 16
    ensures BlendByte(RowLeft, ToBytes(row), mem[Ea12(ea)..Ea12(ea) + 16], 0, 16, ea % 16, i) ==
            VByte(Lqv(row, mem, ea, 0), i)
  {
    LqvByte(row, mem, ea, i);
    DmemAt(mem, ea, i);
  }

  lemma RowRightByte(row: Row, mem: Mem, ea: int, i: nat)
    requires FastLoad(RowRight, ea, 0, 16) && i < 16
    ensures BlendByte(RowRight, ToBytes(row), mem[Ea12(ea) - 16..Ea12(ea)], 0, 16, ea % 16, i) ==
            VByte(Lrv(row, mem, ea, 0), i)
  {
    LrvByte(row, mem, ea, i);
    DmemAt(mem, ea, i - 16);
  }

  lemma LoadFastByte(row: Row, mem: Mem, ea: int, e: nat, n: nat, kind: VecMemKind, i: nat)
    requires FastLoad(kind, ea, e, n) && n <= 16 && i < 16 && (kind.Fixed? || n == 16)
    ensures VByte(LoadFast(row, mem, ea, e, n, kind), i) == VByte(LoadMeant(row, mem, ea, e, n, kind), i)
  {
    match kind
    case Fixed => FixedFast(row, mem, ea, e, n, i);
    case RowLeft => RowLeftFast(row, mem, ea, i);
    case RowRight => RowRightFast(row, mem, ea, i);
  }

  lemma FixedFast(row: Row, mem: Mem, ea: int, e: nat, n: nat, i: nat)
    requires FastLoad(Fixed, ea, e, n) && n <= 16 && i < 16
    ensures VByte(LoadFast(row, mem, ea, e, n, Fixed), i) == VByte(LoadInto(row, e, n, mem, ea), i)
  {
    FixedBlend(row, mem, ea, e, n);
    BlendedByte(Fixed, row, mem[Ea12(ea)..Ea12(ea) + n], e, n, ea % 16, i);
    FixedByte(row, mem, ea, e, n, i);
  }

  lemma FixedBlend(row: Row, mem: Mem, ea: int, e: nat, n: nat)
    requires FastLoad(Fixed, ea, e, n) && n <= 16
    ensures var window := mem[Ea12(ea)..Ea12(ea) + n];
            LoadFast(row, mem, ea, e, n, Fixed) ==
              FromBytes(seq(16, j requires 0 <= j < 16 =>
                              BlendByte(Fixed, ToBytesText(row), window, e, n, ea % 16, j)))
  {
  }

  lemma RowLeftFast(row: Row, mem: Mem, ea: int, i: nat)
    requires FastLoad(RowLeft, ea, 0, 16) && i < 16
    ensures VByte(LoadFast(row, mem, ea, 0, 16, RowLeft), i) == VByte(Lqv(row, mem, ea, 0), i)
  {
    BlendedByte(RowLeft, row, mem[Ea12(ea)..Ea12(ea) + 16], 0, 16, ea % 16, i);
    RowLeftByte(row, mem, ea, i);
  }

  lemma RowRightFast(row: Row, mem: Mem, ea: int, i: nat)
    requires FastLoad(RowRight, ea, 0, 16) && i < 16
    ensures VByte(LoadFast(row, mem, ea, 0, 16, RowRight), i) == VByte(Lrv(row, mem, ea, 0), i)
  {
    BlendedByte(RowRight, row, mem[Ea12(ea) - 16..Ea12(ea)], 0, 16, ea % 16, i);
    RowRightByte(row, mem, ea, i);
  }

  /** The inline load is the byte loop. */
  lemma LoadFastAgrees(row: Row, mem: Mem, ea: int, e: nat, n: nat, kind: VecMemKind)
    requires FastLoad(kind, ea, e, n) && n <= 16 && (kind.Fixed? || n == 16)
    ensures LoadFast(row, mem, ea, e, n, kind) == LoadMeant(row, mem, ea, e, n, kind)
  {
    forall i: nat | i < 16
      ensures VByte(LoadFast(row, mem, ea, e, n, kind), i) == VByte(LoadMeant(row, mem, ea, e, n, kind), i)
    {
      LoadFastByte(row, mem, ea, e, n, kind, i);
    }
    SameRow(LoadFast(row, mem, ea, e, n, kind), LoadMeant(row, mem, ea, e, n, kind));
  }

  /* ---- stores ---- */

  /** sqv reads the window, blends and writes it back. */
  function StoreBlendByte(row: Row, mem: Mem, ea: int, i: nat): Byte
    requires Ea12(ea) <= 0xff0 && i < 16
  {
    if i < 16 - ea % 16 then ToBytesText(row)[i] else mem[Ea12(ea) + i]
  }

  function StoreBlend(row: Row, mem: Mem, ea: int): RowBytes
    requires Ea12(ea) <= 0xff0
  {
    seq(16, i requires 0 <= i < 16 => StoreBlendByte(row, mem, ea, i))
  }

  function StoreFast(row: Row, mem: Mem, ea: int, e: nat, n: nat, kind: VecMemKind): Mem
    requires FastStore(kind, ea, e, n) && n <= 16
  {
    if kind.Fixed? then Poke(mem, Ea12(ea), ToBytesText(row)[e..e + n])
    else Poke(mem, Ea12(ea), StoreBlend(row, mem, ea))
  }

  function StoreMeant(row: Row, mem: Mem, ea: int, e: nat, n: nat, kind: VecMemKind): Mem {
    if kind.Fixed? then WriteBytes(mem, ea, BytesFrom(row, e, n)) else Sqv(row, mem, ea, e)
  }

  lemma BlendStoreAgrees(row: Row, mem: Mem, ea: int)
    requires Ea12(ea) <= 0xff0
    ensures Poke(mem, Ea12(ea), StoreBlend(row, mem, ea)) == Sqv(row, mem, ea, 0)
  {
    ToBytesAgrees(row);
    var p, w := Poke(mem, Ea12(ea), StoreBlend(row, mem, ea)), Sqv(row, mem, ea, 0);
    forall k | 0 <= k < MEM_SIZE ensures p[k] == w[k] {
      if k < 0x1000 {
        OffsetFrom(ea, k);
      }
    }
  }

  lemma OffsetFrom(ea: int, k: int)
    requires 0 <= k < 0x1000
    ensures (k - ea) % 0x1000 == if Ea12(ea) <= k then k - Ea12(ea) else k - Ea12(ea) + 0x1000
  {
    assert (k - ea) % 0x1000 == (k - Ea12(ea)) % 0x1000;
  }

  lemma StoreFastAgrees(row: Row, mem: Mem, ea: int, e: nat, n: nat, kind: VecMemKind)
    requires FastStore(kind, ea, e, n) && n <= 16
    ensures StoreFast(row, mem, ea, e, n, kind) == StoreMeant(row, mem, ea, e, n, kind)
  {
    if kind.Fixed? {
      ToBytesAgrees(row);
      assert ToBytesText(row)[e..e + n] == BytesFrom(row, e, n);
      PokeIsWrite(mem, ea, BytesFrom(row, e, n));
    } else {
      BlendStoreAgrees(row, mem, ea);
    }
  }

  /* ---- the frame around them ---- */

  /** The slow path hands rsp.cc only what the instruction reads: GPR[base] and vec[vt]. */
  function Spill(f: Frame, base: Reg, vt: Reg): Rsp {
    f.c.(r := if base != 0 then f.c.r[base := f.r[base]] else f.c.r, vu := f.c.vu.(v := f.c.vu.v[vt := f.vu.v[vt]]))
  }

  function KindOf(w: Word): VecMemKind { if VmOp(w) == 4 then RowLeft else if VmOp(w) == 5 then RowRight else Fixed }

  function AccessSize(w: Word): nat { if VmOp(w) <= 3 then VmSize(w) else 16 }

  /** The address the text forms from the frame's own GPR. */
  function EaText(w: Word, f: Frame): int {
    f.GetGpr(Rs(w)) as int + VmOffs(w) * (match VmOp(w) case 1 => 2 case 2 => 4 case 3 => 8 case _ => 16)
  }

  function SetVec(f: Frame, vt: Reg, row: Row): Frame { f.(vu := f.vu.(v := f.vu.v[vt := row])) }

  function VecLoadText(w: Word, f: Frame): Frame
    requires 1 <= VmOp(w) <= 5
  {
    var base, vt, e, n, ea := Rs(w), Rt(w), VmE(w), AccessSize(w), EaText(w, f);
    if FastLoad(KindOf(w), ea, e, n) then
      SetVec(f, vt, LoadFast(f.vu.v[vt], f.c.mem, ea, e, n, KindOf(w)))
    else
      var c := Spill(f, base, vt);
      var c' := c.(vu := c.vu.(v := LoadVec(w, c.r, c.vu.v, c.mem)));
      SetVec(f.(c := c'), vt, c'.vu.v[vt])
  }

  function VecStoreText(w: Word, f: Frame): Frame
    requires 1 <= VmOp(w) <= 4
  {
    var base, vt, e, n, ea := Rs(w), Rt(w), VmE(w), AccessSize(w), EaText(w, f);
    if FastStore(KindOf(w), ea, e, n) then
      f.(c := f.c.(mem := StoreFast(f.vu.v[vt], f.c.mem, ea, e, n, KindOf(w))))
    else
      var c := Spill(f, base, vt);
      f.(c := c.(mem := StoreVec(w, c.r, c.vu.v, c.mem)))
  }

  /** What the five loads do to register vt, in terms of the bytes they are meant to move. */
  lemma LoadVecMeant(w: Word, r: Regs, v: VRegs, mem: Mem)
    requires 1 <= VmOp(w) <= 5
    ensures LoadVec(w, r, v, mem) == v[Rt(w) := LoadMeant(v[Rt(w)], mem, VmEa(w, r), VmE(w), AccessSize(w), KindOf(w))]
  {
  }

  lemma StoreVecMeant(w: Word, r: Regs, v: VRegs, mem: Mem)
    requires 1 <= VmOp(w) <= 4
    ensures StoreVec(w, r, v, mem) == StoreMeant(v[Rt(w)], mem, VmEa(w, r), VmE(w), AccessSize(w), KindOf(w))
  {
  }

  lemma SameEa(w: Word, f: Frame, r: Regs)
    requires 1 <= VmOp(w) <= 5 && r[Rs(w)] == f.GetGpr(Rs(w))
    ensures VmEa(w, r) == EaText(w, f)
  {
  }

  /** The translated vector load is the interpreter's, on the synchronised state. */
  lemma VecLoadAgrees(w: Word, f: Frame)
    requires 1 <= VmOp(w) <= 5 && f.c.r[0] == 0
    ensures var s := Sync(f);
            Sync(VecLoadText(w, f)) == s.(vu := s.vu.(v := LoadVec(w, s.r, s.vu.v, s.mem)))
    ensures VecLoadText(w, f).c.r[0] == 0
  {
    var s, c := Sync(f), Spill(f, Rs(w), Rt(w));
    SameEa(w, f, s.r);
    SameEa(w, f, c.r);
    LoadVecMeant(w, s.r, s.vu.v, s.mem);
    LoadVecMeant(w, c.r, c.vu.v, c.mem);
    if FastLoad(KindOf(w), EaText(w, f), VmE(w), AccessSize(w)) {
      LoadFastAgrees(f.vu.v[Rt(w)], f.c.mem, EaText(w, f), VmE(w), AccessSize(w), KindOf(w));
    }
  }

  lemma VecStoreAgrees(w: Word, f: Frame)
    requires 1 <= VmOp(w) <= 4 && f.c.r[0] == 0
    ensures var s := Sync(f);
            Sync(VecStoreText(w, f)) == s.(mem := StoreVec(w, s.r, s.vu.v, s.mem))
    ensures VecStoreText(w, f).c.r[0] == 0
  {
    var s, c := Sync(f), Spill(f, Rs(w), Rt(w));
    SameEa(w, f, s.r);
    SameEa(w, f, c.r);
    StoreVecMeant(w, s.r, s.vu.v, s.mem);
    StoreVecMeant(w, c.r, c.vu.v, c.mem);
    if FastStore(KindOf(w), EaText(w, f), VmE(w), AccessSize(w)) {
      StoreFastAgrees(f.vu.v[Rt(w)], f.c.mem, EaText(w, f), VmE(w), AccessSize(w), KindOf(w));
    }
  }
}
