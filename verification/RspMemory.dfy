/** Data memory and the vector loads and stores of rsp.cc.  Every access wraps byte by byte
    at 4 KB.  Addresses are integers: only their residues matter. */
module RspMemory {
  import opened Bits
  import opened RspState

  function DByte(mem: Mem, a: int): Byte { mem[a % 0x1000] }

  function Rd16(mem: Mem, a: int): int { Be16(DByte(mem, a), DByte(mem, a + 1)) }

  function Rd32(mem: Mem, a: int): Word { Be32(DByte(mem, a), DByte(mem, a + 1), DByte(mem, a + 2), DByte(mem, a + 3)) }

  /** `bytes` written at ea, ea + 1, ... inside data memory; instruction memory is not touched. */
  function WriteBytes(mem: Mem, ea: int, bytes: seq<Byte>): Mem {
    seq(MEM_SIZE, k requires 0 <= k < MEM_SIZE =>
      if k < 0x1000 && (k - ea) % 0x1000 < |bytes| then bytes[(k - ea) % 0x1000] else mem[k])
  }

  function BeBytes(x: Word, n: nat): (b: seq<Byte>)
    requires n == 1 || n == 2 || n == 4
    ensures |b| == n
  {
    if n == 1 then [x % 0x100]
    else if n == 2 then [x / 0x100 % 0x100, x % 0x100]
    else [x / 0x100_0000, x / 0x1_0000 % 0x100, x / 0x100 % 0x100, x % 0x100]
  }

  /* ---- a register as sixteen big-endian bytes ---- */

  type RowBytes = s: seq<Byte> | |s| == 16 witness seq(16, _ => 0)

  function VByte(row: Row, i: nat): Byte {
    var x := U16(row[i % 16 / 2]);
    if i % 2 == 1 then x % 0x100 else x / 0x100
  }

  function SetVByte(row: Row, i: nat, b: Byte): Row {
    var x := U16(row[i % 16 / 2]);
    row[i % 16 / 2 := ToHalf(if i % 2 == 1 then x / 0x100 * 0x100 + b else x % 0x100 + 0x100 * b as int)]
  }

  function ToBytes(row: Row): RowBytes { seq(16, i requires 0 <= i < 16 => VByte(row, i)) }

  function FromBytes(b: RowBytes): Row { seq(8, l requires 0 <= l < 8 => ToHalf(Be16(b[2 * l], b[2 * l + 1]))) }

  lemma HalfIsBytes(x: Half, a: Byte, b: Byte)
    ensures ToHalf(Be16(U16(x) / 0x100, U16(x) % 0x100)) == x
    ensures U16(ToHalf(Be16(a, b))) / 0x100 == a && U16(ToHalf(Be16(a, b))) % 0x100 == b
  {
    ToHalfOfU16(x);
    DivIs(Be16(a, b), 0x100, a, b);
    U16OfToHalf(Be16(a, b));
  }

  lemma ToHalfOfU16(x: Half)
    ensures 0x100 * (U16(x) / 0x100) + U16(x) % 0x100 == U16(x) && ToHalf(U16(x)) == x
  {
  }

  lemma U16OfToHalf(y: int)
    requires 0 <= y < 0x1_0000
    ensures U16(ToHalf(y)) == y
  {
  }

  lemma LaneBytes(row: Row, l: nat)
    requires l < 8
    ensures VByte(row, 2 * l) == U16(row[l]) / 0x100 && VByte(row, 2 * l + 1) == U16(row[l]) % 0x100
  {
    assert (2 * l) % 16 == 2 * l && (2 * l + 1) % 16 == 2 * l + 1;
  }

  lemma BytesOfRow(row: Row)
    ensures FromBytes(ToBytes(row)) == row
  {
    forall l | 0 <= l < 8 ensures FromBytes(ToBytes(row))[l] == row[l] {
      HalfIsBytes(row[l], 0, 0);
      LaneBytes(row, l);
    }
  }

  lemma SameRow(a: Row, b: Row)
    requires forall i: nat :: i < 16 ==> VByte(a, i) == VByte(b, i)
    ensures a == b
  {
    BytesOfRow(a);
    BytesOfRow(b);
    assert ToBytes(a) == ToBytes(b);
  }

  lemma ByteOfBytes(b: RowBytes, i: nat)
    requires i < 16
    ensures VByte(FromBytes(b), i) == b[i]
  {
    var l, row := i / 2, FromBytes(b);
    HalfIsBytes(0, b[2 * l], b[2 * l + 1]);
    assert row[l] == ToHalf(Be16(b[2 * l], b[2 * l + 1]));
    LaneBytes(row, l);
    Halves(i);
  }

  lemma SetThenGet(row: Row, i: nat, b: Byte, j: nat)
    requires j < 16
    ensures VByte(SetVByte(row, i, b), j) == if j == i % 16 then b else VByte(row, j)
  {
    var k, l, row' := i % 16, j / 2, SetVByte(row, i, b);
    Halves(j);
    Halves(k);
    assert i % 2 == k % 2;
    LaneBytes(row, l);
    LaneBytes(row', l);
    if l == k / 2 {
      SetHalf(row, i, b);
    }
  }

  lemma Halves(j: nat)
    ensures j == 2 * (j / 2) + j % 2
  {
  }

  /** The lane a byte is written to. */
  lemma SetHalf(row: Row, i: nat, b: Byte)
    ensures var x, y := U16(row[i % 16 / 2]), U16(SetVByte(row, i, b)[i % 16 / 2]);
            if i % 2 == 1 then y / 0x100 == x / 0x100 && y % 0x100 == b else y / 0x100 == b && y % 0x100 == x % 0x100
  {
    var x := U16(row[i % 16 / 2]);
    if i % 2 == 1 {
      HalfIsBytes(0, x / 0x100, b);
    } else {
      HalfIsBytes(0, b, x % 0x100);
    }
  }

  /** A row that differs from `row` in byte i only. */
  lemma IsSetVByte(a: Row, row: Row, i: nat, x: Byte)
    requires i < 16 && forall j: nat :: j < 16 ==> VByte(a, j) == if j == i then x else VByte(row, j)
    ensures a == SetVByte(row, i, x)
  {
    assert i % 16 == i;
    var b := SetVByte(row, i, x);
    forall j: nat | j < 16 ensures VByte(a, j) == VByte(b, j) {
      SetThenGet(row, i, x, j);
    }
    SameRow(a, b);
  }

  /** The sixteen memory bytes from ea on. */
  function Window(mem: Mem, ea: int): RowBytes { seq(16, i requires 0 <= i < 16 => WindowByte(mem, ea, i)) }

  function WindowByte(mem: Mem, ea: int, i: nat): Byte { DByte(mem, ea + i) }

  /* ---- loads ---- */

  /** Memory bytes ea, ea + 1, ... into the register bytes first .. first + n - 1, clipped at 16. */
  function LoadByte(row: Row, first: nat, n: nat, mem: Mem, ea: int, j: nat): Byte {
    if first <= j < first + n then DByte(mem, ea + j - first) else VByte(row, j)
  }

  function LoadBytes(row: Row, first: nat, n: nat, mem: Mem, ea: int): RowBytes {
    seq(16, j requires 0 <= j < 16 => LoadByte(row, first, n, mem, ea, j))
  }

  function LoadInto(row: Row, first: nat, n: nat, mem: Mem, ea: int): Row {
    FromBytes(LoadBytes(row, first, n, mem, ea))
  }

  /** lqv fills bytes from e on with what is left of the row at ea. */
  function Lqv(row: Row, mem: Mem, ea: int, e: nat): Row { LoadInto(row, e, 16 - ea % 16, mem, ea) }

  /** lrv fills the last ea % 16 bytes, e further on, with the start of that row. */
  function Lrv(row: Row, mem: Mem, ea: int, e: nat): Row {
    LoadInto(row, 16 - ea % 16 + e, 16, mem, ea - ea % 16)
  }

  /** Lane `l` of a packed load: eight bytes from ea on, rotated up by e lanes. */
  function PackedLane(mem: Mem, ea: int, e: nat, l: nat, shift: int): Half {
    var b: int := DByte(mem, ea + (l - e) % 8);
    ToHalf(b * shift)
  }

  function LoadPacked(row: Row, mem: Mem, ea: int, e: nat, shift: int): Row {
    seq(8, l requires 0 <= l < 8 => PackedLane(mem, ea, e, l, shift))
  }

  /** The two bytes lane `sl` of a transposed load gets, from the sixteen that begin at ea rounded
      down to a multiple of eight, taken cyclically from ea on. */
  function SliceHalf(mem: Mem, ea: int, sl: nat): Half {
    var win := ea - ea % 8;
    var m := (win + (ea - win + 2 * sl) % 16) % 0x1000;
    ToHalf(Be16(mem[m], mem[(m + 1) % 0x1000]))
  }

  /** Each of the eight registers of the group of vt gets one lane: the k-th its lane k. */
  function LoadTransposed(v: VRegs, mem: Mem, ea: int, vt: Reg): VRegs {
    seq(32, g requires 0 <= g < 32 => if g / 8 == vt / 8 then v[g][g % 8 := SliceHalf(mem, ea, g % 8)] else v[g])
  }

  function VmOp(w: Word): int { Rd(w) }
  function VmE(w: Word): nat { w / 0x80 % 16 }
  function VmOffs(w: Word): int { if w % 0x80 < 0x40 then w % 0x80 else w % 0x80 - 0x80 }

  /** GPR[base] plus the scaled offset. */
  function VmEa(w: Word, r: Regs): int {
    r[Rs(w)] + ScaledOffs(VmOp(w), VmOffs(w))
  }

  function ScaledOffs(op: int, o: int): int {
    match op
    case 0 => o
    case 1 => 2 * o
    case 2 => 4 * o
    case 3 => 8 * o
    case 6 => 8 * o
    case 7 => 8 * o
    case _ => 16 * o
  }

  function SizeOf(op: int): nat { match op case 1 => 2 case 2 => 4 case 3 => 8 case _ => 1 }

  function VmSize(w: Word): nat { SizeOf(VmOp(w)) }

  predicate LoadImplemented(w: Word) { VmOp(w) <= 7 || (VmOp(w) == 11 && VmE(w) / 2 == 0) }

  /** lwc2. */
  function LoadVec(w: Word, r: Regs, v: VRegs, mem: Mem): VRegs
    requires LoadImplemented(w)
  {
    var vt, e, ea := Rt(w), VmE(w), VmEa(w, r);
    match VmOp(w)
    case 4 => v[vt := Lqv(v[vt], mem, ea, e)]
    case 5 => v[vt := Lrv(v[vt], mem, ea, e)]
    case 6 => v[vt := LoadPacked(v[vt], mem, ea, e, 0x100)]
    case 7 => v[vt := LoadPacked(v[vt], mem, ea, e, 0x80)]
    case 11 => LoadTransposed(v, mem, ea, vt)
    case _ => v[vt := LoadInto(v[vt], e, VmSize(w), mem, ea)]
  }

  /* ---- stores ---- */

  /** Register bytes e, e + 1, ..., wrapping round the register. */
  function BytesFrom(row: Row, e: nat, n: nat): (b: seq<Byte>)
    ensures |b| == n
  {
    seq<Byte>(n, i requires 0 <= i < n => VByte(row, e + i))
  }

  function Sqv(row: Row, mem: Mem, ea: int, e: nat): Mem { WriteBytes(mem, ea, BytesFrom(row, e, 16 - ea % 16)) }

  function Srv(row: Row, mem: Mem, ea: int, e: nat): Mem {
    var first := 16 - ea % 16 + e;
    if first >= 16 then mem else WriteBytes(mem, ea - ea % 16, BytesFrom(row, first, 16 - first))
  }

  function PackedBytes(row: Row, e: nat, shift: int): (b: seq<Byte>)
    requires shift == 0x80 || shift == 0x100
    ensures |b| == 8
  {
    seq<Byte>(8, i requires 0 <= i < 8 => U16(row[(e + i) % 8]) / shift % 0x100)
  }

  predicate StoreImplemented(w: Word) { VmOp(w) <= 7 }

  /** swc2. */
  function StoreVec(w: Word, r: Regs, v: VRegs, mem: Mem): Mem
    requires StoreImplemented(w)
  {
    StoreRow(VmOp(w), v[Rt(w)], mem, VmE(w), VmEa(w, r))
  }

  function StoreRow(op: int, row: Row, mem: Mem, e: nat, ea: int): Mem {
    match op
    case 4 => Sqv(row, mem, ea, e)
    case 5 => Srv(row, mem, ea, e)
    case 6 => WriteBytes(mem, ea, PackedBytes(row, e, if e >= 8 then 0x80 else 0x100))
    case 7 => WriteBytes(mem, ea, PackedBytes(row, e, if e >= 8 then 0x100 else 0x80))
    case _ => WriteBytes(mem, ea, BytesFrom(row, e, SizeOf(op)))
  }

  /** No store reaches instruction memory. */
  lemma WritesSpareImem(mem: Mem, ea: int, bytes: seq<Byte>)
    ensures WriteBytes(mem, ea, bytes)[IMEM..] == mem[IMEM..]
  {
  }
}
