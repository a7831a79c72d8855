/** The unaligned idioms `lqv 0; lrv +16` and `sqv 0; srv +16`. */
module RspMemoryLaws {
  import opened Bits
  import opened RspState
  import opened RspMemory

  lemma LoadedByte(row: Row, first: nat, n: nat, mem: Mem, ea: int, j: nat)
    requires j < 16
    ensures VByte(LoadInto(row, first, n, mem, ea), j) == LoadByte(row, first, n, mem, ea, j)
  {
    ByteOfBytes(LoadBytes(row, first, n, mem, ea), j);
  }

  /** The offset of ea + 16 in its row is that of ea, so the second load starts where the first ended. */
  lemma SameOffset(ea: int)
    ensures (ea + 16) % 16 == ea % 16
  {
  }

  lemma LqvByte(row: Row, mem: Mem, ea: int, j: nat)
    requires j < 16
    ensures VByte(Lqv(row, mem, ea, 0), j) == if j < 16 - ea % 16 then DByte(mem, ea + j) else VByte(row, j)
  {
    LoadedByte(row, 0, 16 - ea % 16, mem, ea, j);
  }

  lemma LrvByte(row: Row, mem: Mem, ea: int, j: nat)
    requires j < 16
    ensures VByte(Lrv(row, mem, ea, 0), j) == if j >= 16 - ea % 16 then DByte(mem, ea - 16 + j) else VByte(row, j)
  {
    var k := ea % 16;
    LoadedByte(row, 16 - k, 16, mem, ea - k, j);
    assert ea - k + j - (16 - k) == ea - 16 + j;
  }

  /** The second load of the idiom, 16 bytes further on. */
  lemma LrvNextByte(row: Row, mem: Mem, ea: int, j: nat)
    requires j < 16
    ensures VByte(Lrv(row, mem, ea + 16, 0), j) == if j >= 16 - ea % 16 then DByte(mem, ea + j) else VByte(row, j)
  {
    SameOffset(ea);
    LrvByte(row, mem, ea + 16, j);
  }

  lemma UnalignedLoadByte(row: Row, mem: Mem, ea: int, j: nat)
    requires j < 16
    ensures VByte(Lrv(Lqv(row, mem, ea, 0), mem, ea + 16, 0), j) == DByte(mem, ea + j)
  {
    LqvByte(row, mem, ea, j);
    LrvNextByte(Lqv(row, mem, ea, 0), mem, ea, j);
  }

  /** At any address, across any row and the 4 KB wrap: exactly the sixteen bytes at ea. */
  lemma UnalignedLoad(row: Row, mem: Mem, ea: int)
    ensures ToBytes(Lrv(Lqv(row, mem, ea, 0), mem, ea + 16, 0)) == Window(mem, ea)
  {
    var got := Lrv(Lqv(row, mem, ea, 0), mem, ea + 16, 0);
    forall j | 0 <= j < 16 ensures VByte(got, j) == DByte(mem, ea + j) {
      UnalignedLoadByte(row, mem, ea, j);
    }
    IsWindow(got, mem, ea);
  }

  lemma IsWindow(row: Row, mem: Mem, ea: int)
    requires forall j :: 0 <= j < 16 ==> VByte(row, j) == DByte(mem, ea + j)
    ensures ToBytes(row) == Window(mem, ea)
  {
  }

  lemma ModAdd(x: int, d: int)
    requires 0 <= x % 0x1000 + d < 0x1000
    ensures (x + d) % 0x1000 == x % 0x1000 + d
  {
    assert x + d == x / 0x1000 * 0x1000 + (x % 0x1000 + d);
  }

  /** Two writes that follow one another are one write. */
  lemma WriteJoins(mem: Mem, ea: int, a: seq<Byte>, b: seq<Byte>)
    requires |a| + |b| <= 0x1000
    ensures WriteBytes(WriteBytes(mem, ea, a), ea + |a|, b) == WriteBytes(mem, ea, a + b)
  {
    var once, twice := WriteBytes(mem, ea, a + b), WriteBytes(WriteBytes(mem, ea, a), ea + |a|, b);
    forall k | 0 <= k < MEM_SIZE ensures once[k] == twice[k] {
      if k < 0x1000 {
        var d := (k - ea) % 0x1000;
        if d >= |a| {
          ModAdd(k - ea, -|a|);
        } else {
          ModAdd(k - ea, 0x1000 - |a|);
          assert (k - (ea + |a|)) % 0x1000 == (k - ea + 0x1000 - |a|) % 0x1000;
        }
      }
    }
  }

  lemma UnalignedStore(row: Row, mem: Mem, ea: int)
    ensures Srv(row, Sqv(row, mem, ea, 0), ea + 16, 0) == WriteBytes(mem, ea, ToBytes(row))
  {
    SameOffset(ea);
    var k := ea % 16;
    var a := BytesFrom(row, 0, 16 - k);
    if k == 0 {
      assert a == ToBytes(row);
    } else {
      var b := BytesFrom(row, 16 - k, k);
      assert a + b == ToBytes(row);
      WriteJoins(mem, ea, a, b);
    }
  }

  lemma WrittenByte(mem: Mem, ea: int, bytes: seq<Byte>, j: nat)
    requires j < |bytes| <= 0x1000
    ensures DByte(WriteBytes(mem, ea, bytes), ea + j) == bytes[j]
  {
    var k := (ea + j) % 0x1000;
    assert k - ea == j - (ea + j) / 0x1000 * 0x1000;
    assert (k - ea) % 0x1000 == j;
  }

  /** Storing a register unaligned and loading it back restores it, whatever the target held. */
  lemma UnalignedRoundTrip(row: Row, other: Row, mem: Mem, ea: int)
    ensures var mem' := Srv(row, Sqv(row, mem, ea, 0), ea + 16, 0);
            Lrv(Lqv(other, mem', ea, 0), mem', ea + 16, 0) == row
  {
    UnalignedStore(row, mem, ea);
    var mem' := WriteBytes(mem, ea, ToBytes(row));
    var got := Lrv(Lqv(other, mem', ea, 0), mem', ea + 16, 0);
    forall j | 0 <= j < 16 ensures ToBytes(got)[j] == ToBytes(row)[j] {
      UnalignedLoadByte(other, mem', ea, j);
      WrittenByte(mem, ea, ToBytes(row), j);
    }
    BytesOfRow(got);
    BytesOfRow(row);
    assert ToBytes(got) == ToBytes(row);
  }

  lemma RowLoads(w: Word, r: Regs, v: VRegs, mem: Mem)
    requires VmOp(w) == 4 || VmOp(w) == 5
    ensures var vt, ea := Rt(w), r[Rs(w)] as int + 16 * VmOffs(w);
            LoadVec(w, r, v, mem) ==
              v[vt := if VmOp(w) == 4 then Lqv(v[vt], mem, ea, VmE(w)) else Lrv(v[vt], mem, ea, VmE(w))]
  {
  }

  /** The idioms as instruction words: `lqv vt,0(base)` `lrv vt,16(base)`. */
  lemma UnalignedLoadPair(lq: Word, lr: Word, r: Regs, v: VRegs, mem: Mem)
    requires VmOp(lq) == 4 && VmOp(lr) == 5 && VmE(lq) == VmE(lr) == 0 && VmOffs(lq) == 0 && VmOffs(lr) == 1
    requires Rs(lq) == Rs(lr) && Rt(lq) == Rt(lr)
    ensures LoadVec(lr, r, LoadVec(lq, r, v, mem), mem) == v[Rt(lq) := FromBytes(Window(mem, r[Rs(lq)]))]
  {
    var vt, ea: int := Rt(lq), r[Rs(lq)];
    RowLoads(lq, r, v, mem);
    var first := Lqv(v[vt], mem, ea, 0);
    assert LoadVec(lq, r, v, mem) == v[vt := first];
    RowLoads(lr, r, v[vt := first], mem);
    UnalignedLoad(v[vt], mem, ea);
    BytesOfRow(Lrv(first, mem, ea + 16, 0));
  }

  lemma QuadStores(w: Word, r: Regs, v: VRegs, mem: Mem)
    requires VmOp(w) == 4
    ensures StoreImplemented(w) &&
            StoreVec(w, r, v, mem) == Sqv(v[Rt(w)], mem, r[Rs(w)] as int + 16 * VmOffs(w), VmE(w))
  {
    assert VmEa(w, r) == r[Rs(w)] as int + 16 * VmOffs(w);
  }

  lemma RestStores(w: Word, r: Regs, v: VRegs, mem: Mem)
    requires VmOp(w) == 5
    ensures StoreImplemented(w) &&
            StoreVec(w, r, v, mem) == Srv(v[Rt(w)], mem, r[Rs(w)] as int + 16 * VmOffs(w), VmE(w))
  {
    assert VmEa(w, r) == r[Rs(w)] as int + 16 * VmOffs(w);
  }

  /** `sqv vt,0(base)` `srv vt,16(base)`. */
  lemma UnalignedStorePair(sq: Word, sr: Word, r: Regs, v: VRegs, mem: Mem)
    requires VmOp(sq) == 4 && VmOp(sr) == 5 && VmE(sq) == VmE(sr) == 0 && VmOffs(sq) == 0 && VmOffs(sr) == 1
    requires Rs(sq) == Rs(sr) && Rt(sq) == Rt(sr)
    ensures StoreVec(sr, r, v, StoreVec(sq, r, v, mem)) == WriteBytes(mem, r[Rs(sq)], ToBytes(v[Rt(sq)]))
  {
    QuadStores(sq, r, v, mem);
    RestStores(sr, r, v, StoreVec(sq, r, v, mem));
    UnalignedStore(v[Rt(sq)], mem, r[Rs(sq)]);
  }
}
