/** The strided DMA behind writes to RD_LEN and WR_LEN (`rsp_t::dma`). */
module RspDma {
  import opened Bits
  import opened RspState

  const DRAM_SPAN := 0x100_0000

  /** The three fields of the length register. */
  function RowBytesOf(x: Word): (n: nat)
    ensures 8 <= n <= 0x1000 && n % 8 == 0
  {
    x % 0x1000 / 8 * 8 + 8
  }

  function RowsOf(x: Word): nat { x / 0x1000 % 0x100 + 1 }

  function SkipOf(x: Word): nat { x / 0x10_0000 % 0x1000 }

  /** Where the next row starts: an offset in the 4 KB bank and a DRAM address. */
  datatype Cursor = Cursor(off: nat, dram: nat)

  predicate CursorOk(c: Cursor) { c.off < 0x1000 && c.off % 8 == 0 && c.dram < DRAM_SPAN }

  /** A row never leaves its bank. */
  function Clip(len: nat, off: nat): nat { if off + len > 0x1000 && off <= 0x1000 then 0x1000 - off else len }

  function NextRow(c: Cursor, len: nat, skip: nat): Cursor {
    var n := Clip(len, c.off);
    Cursor((c.off + n) % 0x1000, (c.dram + n + skip) % DRAM_SPAN)
  }

  predicate LenOk(len: nat) { 8 <= len <= 0x1000 && len % 8 == 0 }

  /** Every row lies in its bank, with a positive length that is a multiple of eight. */
  lemma RowStaysInBank(c: Cursor, len: nat, skip: nat)
    requires CursorOk(c) && LenOk(len)
    ensures 8 <= Clip(len, c.off) <= len && Clip(len, c.off) % 8 == 0 && c.off + Clip(len, c.off) <= 0x1000
    ensures CursorOk(NextRow(c, len, skip))
  {
    var p, q := c.off / 8, len / 8;
    assert c.off == 8 * p && len == 8 * q;
    if c.off + len > 0x1000 {
      EightsOf(0x1000 - c.off, 0x200 - p);
      EightsOf(0, 0);
    } else {
      EightsOf(c.off + len, p + q);
    }
    RowEnd(c.off + Clip(len, c.off));
  }

  lemma EightsOf(x: int, k: int)
    requires x == 8 * k
    ensures x % 8 == 0
  {
  }

  lemma RowEnd(end: nat)
    requires end <= 0x1000
    ensures end % 0x1000 == if end == 0x1000 then 0 else end
  {
  }

  /** memcpy */
  function Copy(dst: seq<Byte>, at: nat, src: seq<Byte>, from: nat, n: nat): (r: seq<Byte>)
    requires at + n <= |dst| && from + n <= |src|
    ensures |r| == |dst|
  {
    dst[..at] + src[from..from + n] + dst[at + n..]
  }

  lemma CopyAt(dst: seq<Byte>, at: nat, src: seq<Byte>, from: nat, n: nat, k: nat)
    requires at + n <= |dst| && from + n <= |src| && k < |dst|
    ensures Copy(dst, at, src, from, n)[k] == if at <= k < at + n then src[from + k - at] else dst[k]
  {
  }

  datatype Buffers = Buffers(mem: Mem, dram: Dram)

  predicate BankOk(bank: nat) { bank == 0 || bank == 0x1000 }

  function OneRow(b: Buffers, toRsp: bool, bank: nat, c: Cursor, len: nat): Buffers
    requires CursorOk(c) && LenOk(len) && BankOk(bank)
  {
    var n := Clip(len, c.off);
    if toRsp then b.(mem := Copy(b.mem, bank + c.off, b.dram, c.dram, n))
    else b.(dram := Copy(b.dram, c.dram, b.mem, bank + c.off, n))
  }

  function Rows(b: Buffers, toRsp: bool, bank: nat, c: Cursor, len: nat, skip: nat, count: nat): Buffers
    requires CursorOk(c) && LenOk(len) && BankOk(bank)
    decreases count
  {
    if count == 0 then b
    else Rows(OneRow(b, toRsp, bank, c, len), toRsp, bank, NextRow(c, len, skip), len, skip, count - 1)
  }

  function CursorAfter(c: Cursor, len: nat, skip: nat, count: nat): Cursor
    decreases count
  {
    if count == 0 then c else CursorAfter(NextRow(c, len, skip), len, skip, count - 1)
  }

  lemma {:induction false} CursorAfterOk(c: Cursor, len: nat, skip: nat, count: nat)
    requires CursorOk(c) && LenOk(len)
    ensures CursorOk(CursorAfter(c, len, skip, count))
    decreases count
  {
    if count > 0 {
      CursorAfterOk(NextRow(c, len, skip), len, skip, count - 1);
    }
  }

  function BankOf(sp: Sp): (b: nat)
    ensures BankOk(b)
  {
    if sp.memAddr / 0x1000 % 2 == 1 then 0x1000 else 0
  }

  function FirstRow(sp: Sp): (c: Cursor)
    ensures CursorOk(c)
  {
    Cursor(sp.memAddr % 0x1000 / 8 * 8, sp.dramAddr % DRAM_SPAN / 8 * 8)
  }

  /** The whole transfer: the rows, the registers where they end, and one IMEM generation per
      row that lands in instruction memory. */
  function Dma(s: Rsp, x: Word, toRsp: bool): Rsp {
    var len, skip, count, bank, c := RowBytesOf(x), SkipOf(x), RowsOf(x), BankOf(s.sp), FirstRow(s.sp);
    var b := Rows(Buffers(s.mem, s.dram), toRsp, bank, c, len, skip, count);
    CursorAfterOk(c, len, skip, count);
    var last := CursorAfter(c, len, skip, count);
    s.(mem := b.mem, dram := b.dram, sp := s.sp.(memAddr := bank + last.off, dramAddr := last.dram),
       gen := if toRsp && bank == 0x1000 then s.gen + count else s.gen)
  }

  /* ---- frames ---- */

  /** Row number j of the transfer covers byte k of the bank, or of DRAM. */
  predicate InBankRow(c: Cursor, len: nat, skip: nat, count: nat, k: int)
    decreases count
  {
    count > 0 && (c.off <= k < c.off + Clip(len, c.off) || InBankRow(NextRow(c, len, skip), len, skip, count - 1, k))
  }

  predicate InDramRow(c: Cursor, len: nat, skip: nat, count: nat, k: int)
    decreases count
  {
    count > 0 && (c.dram <= k < c.dram + Clip(len, c.off) || InDramRow(NextRow(c, len, skip), len, skip, count - 1, k))
  }

  /** A transfer to the RSP changes no DRAM, nothing outside the rows and nothing of the other bank. */
  lemma {:induction false} ToRspFrame(b: Buffers, bank: nat, c: Cursor, len: nat, skip: nat, count: nat, k: nat)
    requires CursorOk(c) && LenOk(len) && BankOk(bank) && k < MEM_SIZE
    ensures Rows(b, true, bank, c, len, skip, count).dram == b.dram
    ensures !InBankRow(c, len, skip, count, k - bank) ==> Rows(b, true, bank, c, len, skip, count).mem[k] == b.mem[k]
    decreases count
  {
    if count > 0 {
      RowStaysInBank(c, len, skip);
      CopyAt(b.mem, bank + c.off, b.dram, c.dram, Clip(len, c.off), k);
      ToRspFrame(OneRow(b, true, bank, c, len), bank, NextRow(c, len, skip), len, skip, count - 1, k);
    }
  }

  lemma {:induction false} ToDramFrame(b: Buffers, bank: nat, c: Cursor, len: nat, skip: nat, count: nat, k: nat)
    requires CursorOk(c) && LenOk(len) && BankOk(bank) && k < DRAM_SIZE
    ensures Rows(b, false, bank, c, len, skip, count).mem == b.mem
    ensures !InDramRow(c, len, skip, count, k) ==> Rows(b, false, bank, c, len, skip, count).dram[k] == b.dram[k]
    decreases count
  {
    if count > 0 {
      RowStaysInBank(c, len, skip);
      CopyAt(b.dram, c.dram, b.mem, bank + c.off, Clip(len, c.off), k);
      ToDramFrame(OneRow(b, false, bank, c, len), bank, NextRow(c, len, skip), len, skip, count - 1, k);
    }
  }

  lemma {:induction false} RowsInBank(c: Cursor, len: nat, skip: nat, count: nat, k: int)
    requires CursorOk(c) && LenOk(len) && InBankRow(c, len, skip, count, k)
    ensures 0 <= k < 0x1000
    decreases count
  {
    RowStaysInBank(c, len, skip);
    if !(c.off <= k < c.off + Clip(len, c.off)) {
      RowsInBank(NextRow(c, len, skip), len, skip, count - 1, k);
    }
  }

  /** Instruction memory changes only under a transfer that counts a generation. */
  lemma ImemChangesCounted(s: Rsp, x: Word, toRsp: bool)
    ensures Dma(s, x, toRsp).gen == s.gen ==> ImageOf(Dma(s, x, toRsp)) == ImageOf(s)
    ensures Dma(s, x, toRsp).gen >= s.gen
  {
    var len, skip, count, bank, c := RowBytesOf(x), SkipOf(x), RowsOf(x), BankOf(s.sp), FirstRow(s.sp);
    if !toRsp {
      ToDramFrame(Buffers(s.mem, s.dram), bank, c, len, skip, count, 0);
    } else if bank == 0 {
      var s' := Dma(s, x, toRsp);
      forall k | 0x1000 <= k < MEM_SIZE ensures s'.mem[k] == s.mem[k] {
        if InBankRow(c, len, skip, count, k - bank) {
          RowsInBank(c, len, skip, count, k - bank);
        }
        ToRspFrame(Buffers(s.mem, s.dram), bank, c, len, skip, count, k);
      }
    }
  }

  /* ---- out and back ---- */

  /** The DRAM address does not wrap at 24 bits between the first row and the last. */
  predicate NoWrap(c: Cursor, len: nat, skip: nat, count: nat)
    decreases count
  {
    count <= 1 ||
    (c.dram + Clip(len, c.off) + skip < DRAM_SPAN && NoWrap(NextRow(c, len, skip), len, skip, count - 1))
  }

  /** The row of DRAM at the cursor holds what the row of the bank holds. */
  predicate RowMirrors(b: Buffers, bank: nat, c: Cursor, len: nat)
    requires CursorOk(c) && LenOk(len) && BankOk(bank)
  {
    forall k :: bank + c.off <= k < bank + c.off + Clip(len, c.off) ==> b.mem[k] == b.dram[k - (bank + c.off) + c.dram]
  }

  predicate RowsMirror(b: Buffers, bank: nat, c: Cursor, len: nat, skip: nat, count: nat)
    requires CursorOk(c) && LenOk(len) && BankOk(bank)
    decreases count
  {
    count == 0 || (RowMirrors(b, bank, c, len) && RowsMirror(b, bank, NextRow(c, len, skip), len, skip, count - 1))
  }

  /** Rows go up in DRAM, so no row disturbs what lies below it. */
  lemma {:induction false} RowsGoUp(c: Cursor, len: nat, skip: nat, count: nat, k: nat)
    requires CursorOk(c) && LenOk(len) && NoWrap(c, len, skip, count) && k < c.dram
    ensures !InDramRow(c, len, skip, count, k)
    decreases count
  {
    if count > 1 {
      RowsGoUp(NextRow(c, len, skip), len, skip, count - 1, k);
    }
  }

  lemma {:induction false} StoredRowsMirror(b: Buffers, bank: nat, c: Cursor, len: nat, skip: nat, count: nat)
    requires CursorOk(c) && LenOk(len) && BankOk(bank) && NoWrap(c, len, skip, count)
    ensures RowsMirror(Rows(b, false, bank, c, len, skip, count), bank, c, len, skip, count)
    decreases count
  {
    if count > 0 {
      RowStaysInBank(c, len, skip);
      var b1, next := OneRow(b, false, bank, c, len), NextRow(c, len, skip);
      StoredRowsMirror(b1, bank, next, len, skip, count - 1);
      ToDramFrame(b1, bank, next, len, skip, count - 1, 0);
      StoredRowMirrors(b, bank, c, len, skip, count);
    }
  }

  lemma StoredRowMirrors(b: Buffers, bank: nat, c: Cursor, len: nat, skip: nat, count: nat)
    requires CursorOk(c) && LenOk(len) && BankOk(bank) && NoWrap(c, len, skip, count) && count > 0
    ensures RowMirrors(Rows(b, false, bank, c, len, skip, count), bank, c, len)
  {
    forall k | bank + c.off <= k < bank + c.off + Clip(len, c.off)
      ensures Rows(b, false, bank, c, len, skip, count).mem[k] ==
              Rows(b, false, bank, c, len, skip, count).dram[k - (bank + c.off) + c.dram]
    {
      StoredByte(b, bank, c, len, skip, count, k);
    }
  }

  lemma NextGoesUp(c: Cursor, len: nat, skip: nat, count: nat)
    requires CursorOk(c) && LenOk(len) && NoWrap(c, len, skip, count) && count > 1
    ensures NextRow(c, len, skip).dram == c.dram + Clip(len, c.off) + skip &&
            NoWrap(NextRow(c, len, skip), len, skip, count - 1)
  {
  }

  lemma StoredByte(b: Buffers, bank: nat, c: Cursor, len: nat, skip: nat, count: nat, k: nat)
    requires CursorOk(c) && LenOk(len) && BankOk(bank) && NoWrap(c, len, skip, count) && count > 0
    requires bank + c.off <= k < bank + c.off + Clip(len, c.off)
    ensures Rows(b, false, bank, c, len, skip, count).mem[k] ==
            Rows(b, false, bank, c, len, skip, count).dram[k - (bank + c.off) + c.dram]
  {
    var b1, d := OneRow(b, false, bank, c, len), k - (bank + c.off) + c.dram;
    CopyAt(b.dram, c.dram, b.mem, bank + c.off, Clip(len, c.off), d);
    assert b1.dram[d] == b.mem[k];
    RowStaysInBank(c, len, skip);
    if count > 1 {
      NextGoesUp(c, len, skip, count);
      RowsGoUp(NextRow(c, len, skip), len, skip, count - 1, d);
    }
    ToDramFrame(b1, bank, NextRow(c, len, skip), len, skip, count - 1, d);
  }

  lemma MirroredCopyIsIdle(b: Buffers, bank: nat, c: Cursor, len: nat)
    requires CursorOk(c) && LenOk(len) && BankOk(bank) && RowMirrors(b, bank, c, len)
    ensures OneRow(b, true, bank, c, len) == b
  {
    RowStaysInBank(c, len, 0);
    var n := Clip(len, c.off);
    CopyIdle(b.mem, bank + c.off, b.dram, c.dram, n);
  }

  lemma CopyIdle(dst: seq<Byte>, at: nat, src: seq<Byte>, from: nat, n: nat)
    requires at + n <= |dst| && from + n <= |src|
    requires forall k :: at <= k < at + n ==> dst[k] == src[k - at + from]
    ensures Copy(dst, at, src, from, n) == dst
  {
    var m := Copy(dst, at, src, from, n);
    forall k | 0 <= k < |m| ensures m[k] == dst[k] {
      CopyAt(dst, at, src, from, n, k);
    }
  }

  lemma {:induction false} MirroredLoadIsIdle(b: Buffers, bank: nat, c: Cursor, len: nat, skip: nat, count: nat)
    requires CursorOk(c) && LenOk(len) && BankOk(bank) && RowsMirror(b, bank, c, len, skip, count)
    ensures Rows(b, true, bank, c, len, skip, count) == b
    decreases count
  {
    if count > 0 {
      RowStaysInBank(c, len, skip);
      MirroredCopyIsIdle(b, bank, c, len);
      MirroredLoadIsIdle(b, bank, NextRow(c, len, skip), len, skip, count - 1);
    }
  }

  /** SP to DRAM and back from the same register values: memory is as it was and DRAM keeps
      the copy, however the rows were clipped and wrapped over one another in the bank. */
  lemma DmaRoundTrip(s: Rsp, x: Word)
    requires NoWrap(FirstRow(s.sp), RowBytesOf(x), SkipOf(x), RowsOf(x))
    ensures var out := Dma(s, x, false);
            var back := Dma(out.(sp := s.sp), x, true);
            back.mem == s.mem && back.dram == out.dram && back.sp == out.sp
  {
    var len, skip, count, bank, c := RowBytesOf(x), SkipOf(x), RowsOf(x), BankOf(s.sp), FirstRow(s.sp);
    StoredRowsMirror(Buffers(s.mem, s.dram), bank, c, len, skip, count);
    var b := Rows(Buffers(s.mem, s.dram), false, bank, c, len, skip, count);
    ToDramFrame(Buffers(s.mem, s.dram), bank, c, len, skip, count, 0);
    MirroredLoadIsIdle(b, bank, c, len, skip, count);
  }
}
