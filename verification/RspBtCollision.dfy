/** Two images under one hash.  A lookup that finds the entry of another image relabels it, and
    its code then runs: two images for which that is wrong. */
module RspBtCollision {
  import opened Bits
  import opened RspState
  import opened RspControl
  import opened RspDecode
  import opened BlockGraph
  import opened Simulation
  import opened RspExec
  import opened RspEmit
  import opened RspPrograms
  import opened RspRelabel
  import opened RspBt

  /* ---- a lookup ---- */

  /** What a lookup that finds a fresh entry leaves behind, whatever image it was made from. */
  lemma LookupExact(images: map<nat, ImageT>, h: nat, im: Image)
    requires h in images && ImageOk(images[h]) && !images[h].stale
    ensures var i := Selected(images, im, h);
            !i.stale && i.imem == im && (ImageOk(i) <==> Alike(images[h].imem, im, i.fn))
  {
    RelabelledExact(images[h].fn, images[h].imem, im);
  }

  /* ---- two images that collide ---- */

  const HALT_WORDS: seq<Word> := [BREAK]
  const ADD_WORDS: seq<Word> := [ADD_1, BREAK, 0x6a0f_0f0e, 0x3b1b_0ede, 0x4704_c018, 0x617e_6272]

  lemma {:induction false} XorZero(x: nat, n: nat)
    requires x < Pow2(n)
    ensures Bitwise(XorOp, x, 0, n) == x
  {
    if n > 0 {
      XorZero(x / 2, n - 1);
    }
  }

  /** A byte only meets the low eight bits. */
  lemma {:induction false} XorLow(x: nat, y: nat, k: nat, n: nat)
    requires y < Pow2(k) && x < Pow2(n) && k <= n
    ensures Bitwise(XorOp, x, y, n) == Bitwise(XorOp, x, y, k) + Pow2(k) * (x / Pow2(k))
  {
    if k == 0 {
      XorZero(x, n);
    } else {
      XorLow(x / 2, y / 2, k - 1, n - 1);
      QuotientOfHalf(x, Pow2(k - 1));
      Doubled(Bit(XorOp, x, y), Bitwise(XorOp, x / 2, y / 2, k - 1), Pow2(k - 1), x / 2 / Pow2(k - 1));
    }
  }

  lemma Doubled(b: int, low: int, p: int, q: int)
    ensures b + 2 * (low + p * q) == b + 2 * low + 2 * p * q
  {
  }

  /* ---- their hashes, byte by byte: h = 0x100 * q + l before and after ---- */

  const PRIME := 0x100_0000_01b3
  const PRIME_4 := 0x9ffa_ac08_5635_bc91
  const WORD64 := 0x1_0000_0000_0000_0000

  lemma Pow2Of64()
    ensures Pow2(64) == WORD64
  {
    Pow2Values();
    Pow2Add(16, 16);
    Pow2Add(32, 32);
  }

  function V(b: bv8): (n: nat)
    ensures n < 0x100
  {
    b as int
  }

  lemma Halve(b: bv8)
    ensures V(b) / 2 == V(b >> 1) && V(b) % 2 == V(b & 1)
  {
  }

  lemma XorParts(b: bv8, c: bv8)
    ensures (b ^ c) >> 1 == (b >> 1) ^ (c >> 1) && (b ^ c) & 1 == (b & 1) ^ (c & 1)
  {
  }

  lemma XorBit(b: bv8, c: bv8)
    ensures V((b & 1) ^ (c & 1)) == Bit(XorOp, V(b), V(c))
  {
    Halve(b);
    Halve(c);
    assert b & 1 == 0 || b & 1 == 1;
    assert c & 1 == 0 || c & 1 == 1;
  }

  lemma HalfFits(b: bv8, n: nat)
    requires n > 0 && V(b) < Pow2(n)
    ensures V(b >> 1) < Pow2(n - 1)
  {
    Halve(b);
  }

  lemma NothingFits(b: bv8)
    requires V(b) < 1
    ensures b == 0
  {
  }

  /** The recursion and the machine operation agree on bytes. */
  lemma {:induction false} XorBytes(b: bv8, c: bv8, n: nat)
    requires V(b) < Pow2(n) && V(c) < Pow2(n)
    ensures Bitwise(XorOp, V(b), V(c), n) == V(b ^ c)
    decreases n
  {
    if n == 0 {
      XorNothing(b, c);
    } else {
      XorOnce(b, c, n - 1);
      XorBytes(b >> 1, c >> 1, n - 1);
    }
  }

  lemma XorNothing(b: bv8, c: bv8)
    requires V(b) < 1 && V(c) < 1
    ensures Bitwise(XorOp, V(b), V(c), 0) == V(b ^ c)
  {
    NothingFits(b);
    NothingFits(c);
  }

  lemma XorOnce(b: bv8, c: bv8, n: nat)
    requires V(b) < Pow2(n + 1) && V(c) < Pow2(n + 1)
    ensures V(b >> 1) < Pow2(n) && V(c >> 1) < Pow2(n)
    ensures Bitwise(XorOp, V(b >> 1), V(c >> 1), n) == V((b >> 1) ^ (c >> 1)) ==>
              Bitwise(XorOp, V(b), V(c), n + 1) == V(b ^ c)
  {
    HalfFits(b, n + 1);
    HalfFits(c, n + 1);
    XorLast(b, c, n);
  }

  lemma XorLast(b: bv8, c: bv8, n: nat)
    ensures Bitwise(XorOp, V(b >> 1), V(c >> 1), n) == V((b >> 1) ^ (c >> 1)) ==>
              Bitwise(XorOp, V(b), V(c), n + 1) == V(b ^ c)
  {
    Halve(b);
    Halve(c);
    Halve(b ^ c);
    XorParts(b, c);
    XorBit(b, c);
  }

  lemma XorIntoLow(q: nat, l: nat, x: nat, y: int)
    requires l < 0x100 && x < 0x100 && 0x100 * q + l < WORD64 && Bitwise(XorOp, l, x, 8) == y
    ensures Xor64(0x100 * q + l, x) == 0x100 * q + y
  {
    var h := 0x100 * q + l;
    Pow2Of64();
    Pow2Values();
    XorLow(h, x, 8, 64);
    DivIs(h, 0x100, q, l);
    LowByte(h, l, x, q, 8);
  }

  /** Only the low n bits of the operands matter. */
  lemma {:induction false} LowByte(h: nat, l: nat, x: nat, q: nat, n: nat)
    requires h == Pow2(n) * q + l
    ensures Bitwise(XorOp, h, x, n) == Bitwise(XorOp, l, x, n)
  {
    if n > 0 {
      var p := Pow2(n - 1);
      EvenPart(p, q, l);
      LowByte(h / 2, l / 2, x / 2, q, n - 1);
    }
  }

  lemma EvenPart(p: nat, q: nat, l: nat)
    ensures (2 * p * q + l) / 2 == p * q + l / 2 && (2 * p * q + l) % 2 == l % 2
  {
    var m := p * q;
    assert 2 * p * q == 2 * m;
  }

  /** `hash(n)` is the hash of the first n bytes. */
  predicate HashedAt(hash: nat -> nat, byte: nat -> Byte, n: nat) { hash(n + 1) == HashStep(hash(n), byte(n)) }

  ghost predicate Hashes(hash: nat -> nat, byte: nat -> Byte) {
    forall n: nat {:trigger HashedAt(hash, byte, n)} :: n < 0x1000 ==> HashedAt(hash, byte, n)
  }

  lemma HashByte(h: nat, x: Byte, z: nat, k: nat, r: nat)
    requires Xor64(h, x) == z && z * PRIME == k * WORD64 + r && r < WORD64
    ensures HashStep(h, x) == r
  {
    DivIs(z * PRIME, WORD64, k, r);
  }

  /** One byte, as machine bytes l and x: the hash 0x100 * q + l becomes 0x100 * q' + l'. */
  lemma Advance(hash: nat -> nat, byte: nat -> Byte, n: nat, x: bv8, q: nat, l: bv8, k: nat, q': nat, l': nat)
    requires Hashes(hash, byte) && n < 0x1000 && byte(n) == V(x) && hash(n) == 0x100 * q + V(l) < WORD64
    requires (0x100 * q + V(l ^ x)) * PRIME == k * WORD64 + 0x100 * q' + l' && 0x100 * q' + l' < WORD64
    ensures hash(n + 1) == 0x100 * q' + l'
  {
    Pow2Values();
    XorBytes(l, x, 8);
    AdvanceBy(hash, byte, n, V(x), q, V(l), V(l ^ x), k, 0x100 * q' + l');
  }

  lemma AdvanceBy(hash: nat -> nat, byte: nat -> Byte, n: nat, x: nat, q: nat, l: nat, y: nat, k: nat, r: nat)
    requires Hashes(hash, byte) && n < 0x1000 && byte(n) == x && hash(n) == 0x100 * q + l < WORD64
    requires l < 0x100 && x < 0x100 && Bitwise(XorOp, l, x, 8) == y
    requires (0x100 * q + y) * PRIME == k * WORD64 + r && r < WORD64
    ensures hash(n + 1) == r
  {
    XorIntoLow(q, l, x, y);
    NextHash(hash, byte, n, 0x100 * q + l, x, 0x100 * q + y, k, r);
  }

  lemma NextHash(hash: nat -> nat, byte: nat -> Byte, n: nat, h: nat, x: Byte, z: nat, k: nat, r: nat)
    requires Hashes(hash, byte) && n < 0x1000 && byte(n) == x && hash(n) == h && Xor64(h, x) == z
    requires z * PRIME == k * WORD64 + r && r < WORD64
    ensures hash(n + 1) == r
  {
    assert HashedAt(hash, byte, n);
    HashByte(h, x, z, k, r);
  }

  lemma ZeroHashed(h: nat)
    requires h < WORD64
    ensures HashStep(h, 0) == h * PRIME % WORD64
  {
    Pow2Of64();
    XorZero(h, 64);
  }

  /** Four zero bytes at once. */
  lemma AdvanceZeros(hash: nat -> nat, byte: nat -> Byte, n: nat, h: nat, k: nat, h': nat)
    requires Hashes(hash, byte) && n + 4 <= 0x1000 && hash(n) == h < WORD64 && h' < WORD64
    requires ZerosAt(byte, n)
    requires h * PRIME_4 == k * WORD64 + h'
    ensures hash(n + 4) == h'
  {
    assert HashedAt(hash, byte, n) && HashedAt(hash, byte, n + 1) && HashedAt(hash, byte, n + 2) &&
      HashedAt(hash, byte, n + 3);
    ZeroHashed(h);
    ZeroHashed(hash(n + 1));
    ZeroHashed(hash(n + 2));
    ZeroHashed(hash(n + 3));
    FourTimes(h);
    DivIs(h * PRIME_4, WORD64, k, h');
  }

  lemma MulMod(x: int, y: int)
    ensures x % WORD64 * y % WORD64 == x * y % WORD64
  {
    var q, r := x / WORD64, x % WORD64;
    var d, e := r * y / WORD64, r * y % WORD64;
    assert x * y == WORD64 * (q * y) + r * y;
    DivIs(x * y, WORD64, q * y + d, e);
  }

  lemma FourTimes(h: int)
    ensures h * PRIME % WORD64 * PRIME % WORD64 * PRIME % WORD64 * PRIME % WORD64 == h * PRIME_4 % WORD64
  {
    MulMod(h * PRIME, PRIME);
    MulMod(h * PRIME * PRIME, PRIME);
    MulMod(h * PRIME * PRIME * PRIME, PRIME);
    var p4 := PRIME * PRIME * PRIME * PRIME;
    assert p4 % WORD64 == PRIME_4;
    MulMod(p4, h);
  }

  const OFFSET := 0xcbf2_9ce4_8422_2325
  const MEETING_HASH := 0x1e46_76b6_0303_046e

  lemma HaltHash0(hash: nat -> nat, byte: nat -> Byte)
    requires Hashes(hash, byte) && hash(0) == OFFSET
    requires byte(0) == 0x00 && byte(1) == 0x00 && byte(2) == 0x00 && byte(3) == 0x0d
    ensures hash(4) == 0x4d25_797f_9dce_190e
  {
    Advance(hash, byte, 0, 0x00, 0x00cb_f29c_e484_2223, 0x25, 0x00cb_f29c_e5de, 0x00af_63bd_4c86_01b7, 0xdf);
    Advance(hash, byte, 1, 0x00, 0x00af_63bd_4c86_01b7, 0xdf, 0x00af_63bd_4db0, 0x0008_3288_07b4_eb6f, 0xed);
    Advance(hash, byte, 2, 0x00, 0x0008_3288_07b4_eb6f, 0xed, 0x0008_3288_07c2, 0x00d9_4d12_186c_0f2f, 0xb7);
    Advance(hash, byte, 3, 0x0d, 0x00d9_4d12_186c_0f2f, 0xb7, 0x00d9_4d12_19dd, 0x004d_2579_7f9d_ce19, 0x0e);
  }

  predicate ZerosAt(byte: nat -> Byte, n: nat) {
    byte(n) == 0 && byte(n + 1) == 0 && byte(n + 2) == 0 && byte(n + 3) == 0
  }

  lemma HaltHash1(hash: nat -> nat, byte: nat -> Byte)
    requires Hashes(hash, byte) && hash(4) == 0x4d25_797f_9dce_190e
    requires ZerosAt(byte, 4) && ZerosAt(byte, 8) && ZerosAt(byte, 12) && ZerosAt(byte, 16) && ZerosAt(byte, 20)
    ensures hash(24) == MEETING_HASH
  {
    AdvanceZeros(hash, byte, 4, 0x4d25_797f_9dce_190e, 0x3035_d0e6_9a6b_6f3d, 0xced4_a1b1_a008_78ee);
    AdvanceZeros(hash, byte, 8, 0xced4_a1b1_a008_78ee, 0x8140_9710_d2ca_c925, 0x0ea6_b0f2_dae1_46ce);
    AdvanceZeros(hash, byte, 12, 0x0ea6_b0f2_dae1_46ce, 0x0927_e088_1c23_705e, 0x37f4_2f28_463e_62ae);
    AdvanceZeros(hash, byte, 16, 0x37f4_2f28_463e_62ae, 0x22f7_7359_f31d_a746, 0xdb0b_c6e6_7bd3_ac8e);
    AdvanceZeros(hash, byte, 20, 0xdb0b_c6e6_7bd3_ac8e, 0x88e2_cd3c_6fc2_66e3, 0x1e46_76b6_0303_046e);
  }

  lemma AddHash0(hash: nat -> nat, byte: nat -> Byte)
    requires Hashes(hash, byte) && hash(0) == 0xcbf2_9ce4_8422_2325
    requires byte(0) == 0x24 && byte(1) == 0x01 && byte(2) == 0x00 && byte(3) == 0x01
    ensures hash(4) == 0xc53b_cb53_7957_9299
  {
    Advance(hash, byte, 0, 0x24, 0x00cb_f29c_e484_2223, 0x25, 0x00cb_f29c_e5de, 0x00af_6399_4c86_017a, 0xb3);
    Advance(hash, byte, 1, 0x01, 0x00af_6399_4c86_017a, 0xb3, 0x00af_6399_4db0, 0x0007_b82f_07b4_837c, 0x76);
    Advance(hash, byte, 2, 0x00, 0x0007_b82f_07b4_837c, 0x76, 0x0007_b82f_07c1, 0x00a1_7460_17bb_6c7c, 0x82);
    Advance(hash, byte, 3, 0x01, 0x00a1_7460_17bb_6c7c, 0x82, 0x00a1_7460_18cd, 0x00c5_3bcb_5379_5792, 0x99);
  }

  lemma AddHash1(hash: nat -> nat, byte: nat -> Byte)
    requires Hashes(hash, byte) && hash(4) == 0xc53b_cb53_7957_9299
    requires byte(4) == 0x00 && byte(5) == 0x00 && byte(6) == 0x00 && byte(7) == 0x0d
    ensures hash(8) == 0x94e0_6d8c_c9ef_775a
  {
    Advance(hash, byte, 4, 0x00, 0x00c5_3bcb_5379_5792, 0x99, 0x00c5_3bcb_54c8, 0x007c_2d17_d72f_ce19, 0xfb);
    Advance(hash, byte, 5, 0x00, 0x007c_2d17_d72f_ce19, 0xfb, 0x007c_2d17_d802, 0x00ce_b97d_a63b_3625, 0x81);
    Advance(hash, byte, 6, 0x00, 0x00ce_b97d_a63b_3625, 0x81, 0x00ce_b97d_a79a, 0x007b_5602_769d_01ba, 0x33);
    Advance(hash, byte, 7, 0x0d, 0x007b_5602_769d_01ba, 0x33, 0x007b_5602_776e, 0x0094_e06d_8cc9_ef77, 0x5a);
  }

  lemma AddHash2(hash: nat -> nat, byte: nat -> Byte)
    requires Hashes(hash, byte) && hash(8) == 0x94e0_6d8c_c9ef_775a
    requires byte(8) == 0x6a && byte(9) == 0x0f && byte(10) == 0x0f && byte(11) == 0x0e
    ensures hash(12) == 0x07c6_8028_5291_eed8
  {
    Advance(hash, byte, 8, 0x6a, 0x0094_e06d_8cc9_ef77, 0x5a, 0x0094_e06d_8dc6, 0x00e8_d156_3b21_e786, 0x90);
    Advance(hash, byte, 9, 0x0f, 0x00e8_d156_3b21_e786, 0x90, 0x00e8_d156_3cad, 0x0083_3c25_7a9c_69c0, 0x2d);
    Advance(hash, byte, 10, 0x0f, 0x0083_3c25_7a9c_69c0, 0x2d, 0x0083_3c25_7b7b, 0x0068_f3d1_57c7_b179, 0xc6);
    Advance(hash, byte, 11, 0x0e, 0x0068_f3d1_57c7_b179, 0xc6, 0x0068_f3d1_587a, 0x0007_c680_2852_91ee, 0xd8);
  }

  lemma AddHash3(hash: nat -> nat, byte: nat -> Byte)
    requires Hashes(hash, byte) && hash(12) == 0x07c6_8028_5291_eed8
    requires byte(12) == 0x3b && byte(13) == 0x1b && byte(14) == 0x0e && byte(15) == 0xde
    ensures hash(16) == 0x622d_3a08_3644_35b2
  {
    Advance(hash, byte, 12, 0x3b, 0x0007_c680_2852_91ee, 0xd8, 0x0007_c680_285f, 0x00c8_3aa7_844d_f8eb, 0xb9);
    Advance(hash, byte, 13, 0x1b, 0x00c8_3aa7_844d_f8eb, 0xb9, 0x00c8_3aa7_85a2, 0x0034_9647_d07d_f864, 0x46);
    Advance(hash, byte, 14, 0x0e, 0x0034_9647_d07d_f864, 0x46, 0x0034_9647_d0d7, 0x0053_c04f_460d_1266, 0x58);
    Advance(hash, byte, 15, 0xde, 0x0053_c04f_460d_1266, 0x58, 0x0053_c04f_469b, 0x0062_2d3a_0836_4435, 0xb2);
  }

  lemma AddHash4(hash: nat -> nat, byte: nat -> Byte)
    requires Hashes(hash, byte) && hash(16) == 0x622d_3a08_3644_35b2
    requires byte(16) == 0x47 && byte(17) == 0x04 && byte(18) == 0xc0 && byte(19) == 0x18
    ensures hash(20) == 0xd902_0468_3b14_7421
  {
    Advance(hash, byte, 16, 0x47, 0x0062_2d3a_0836_4435, 0xb2, 0x0062_2d3a_08dd, 0x0017_0f90_f435_e7af, 0x4f);
    Advance(hash, byte, 17, 0x04, 0x0017_0f90_f435_e7af, 0x4f, 0x0017_0f90_f45d, 0x0017_2299_f798_aedc, 0x71);
    Advance(hash, byte, 18, 0xc0, 0x0017_2299_f798_aedc, 0x71, 0x0017_2299_f7bf, 0x00fe_a850_b871_2100, 0xc3);
    Advance(hash, byte, 19, 0x18, 0x00fe_a850_b871_2100, 0xc3, 0x00fe_a850_ba21, 0x00d9_0204_683b_1474, 0x21);
  }

  lemma AddHash5(hash: nat -> nat, byte: nat -> Byte)
    requires Hashes(hash, byte) && hash(20) == 0xd902_0468_3b14_7421
    requires byte(20) == 0x61 && byte(21) == 0x7e && byte(22) == 0x62 && byte(23) == 0x72
    ensures hash(24) == 0x1e46_76b6_0303_046e
  {
    Advance(hash, byte, 20, 0x61, 0x00d9_0204_683b_1474, 0x21, 0x00d9_0204_69ab, 0x00d2_e1bd_1c63_c188, 0xc0);
    Advance(hash, byte, 21, 0x7e, 0x00d2_e1bd_1c63_c188, 0xc0, 0x00d2_e1bd_1dca, 0x0017_1d15_3d81_db5a, 0xda);
    Advance(hash, byte, 22, 0x62, 0x0017_1d15_3d81_db5a, 0xda, 0x0017_1d15_3da9, 0x0021_c5cf_83a7_bb26, 0xa8);
    Advance(hash, byte, 23, 0x72, 0x0021_c5cf_83a7_bb26, 0xa8, 0x0021_c5cf_83e1, 0x001e_4676_b603_0304, 0x6e);
  }

  /** The bytes of word `a`. */
  predicate WordBytes(byte: nat -> Byte, a: nat, b0: Byte, b1: Byte, b2: Byte, b3: Byte) {
    byte(4 * a) == b0 && byte(4 * a + 1) == b1 && byte(4 * a + 2) == b2 && byte(4 * a + 3) == b3
  }

  lemma AddHash(hash: nat -> nat, byte: nat -> Byte)
    requires Hashes(hash, byte) && hash(0) == OFFSET
    requires WordBytes(byte, 0, 0x24, 0x01, 0x00, 0x01) && WordBytes(byte, 1, 0x00, 0x00, 0x00, 0x0d)
    requires WordBytes(byte, 2, 0x6a, 0x0f, 0x0f, 0x0e) && WordBytes(byte, 3, 0x3b, 0x1b, 0x0e, 0xde)
    requires WordBytes(byte, 4, 0x47, 0x04, 0xc0, 0x18) && WordBytes(byte, 5, 0x61, 0x7e, 0x62, 0x72)
    ensures hash(24) == MEETING_HASH
  {
    AddHash0(hash, byte);
    AddHash1(hash, byte);
    AddHash2(hash, byte);
    AddHash3(hash, byte);
    AddHash4(hash, byte);
    AddHash5(hash, byte);
  }

  /** The hashes and the bytes of an image, as functions. */
  lemma ImageHashes(im: Image) returns (hash: nat -> nat, byte: nat -> Byte)
    ensures Hashes(hash, byte) && hash(0) == OFFSET
    ensures forall n: nat :: n <= 0x1000 ==> hash(n) == HashOf(im, n)
    ensures forall n: nat :: n < 0x1000 ==> byte(n) == im[n]
  {
    hash := (n: nat) => if n <= 0x1000 then HashOf(im, n) else 0;
    byte := (n: nat) => if n < 0x1000 then im[n] else 0;
  }

  lemma FourBytes(ws: seq<Word>, a: Addr, w: Word, b0: Byte, b1: Byte, b2: Byte, b3: Byte)
    requires WordOf(ws, a) == w && w == 0x100_0000 * b0 as int + 0x1_0000 * b1 as int + 0x100 * b2 as int + b3
    ensures var im := ImageOfWords(ws);
            im[4 * a] == b0 && im[4 * a + 1] == b1 && im[4 * a + 2] == b2 && im[4 * a + 3] == b3
  {
    BytesOfImage(ws, a, 0);
    BytesOfImage(ws, a, 1);
    BytesOfImage(ws, a, 2);
    BytesOfImage(ws, a, 3);
    TakeApart(w, b0, b1, b2, b3);
  }

  lemma TakeApart(w: Word, b0: Byte, b1: Byte, b2: Byte, b3: Byte)
    requires w == 0x100_0000 * b0 as int + 0x1_0000 * b1 as int + 0x100 * b2 as int + b3
    ensures ByteOfWord(w, 0) == b0 && ByteOfWord(w, 1) == b1 && ByteOfWord(w, 2) == b2 && ByteOfWord(w, 3) == b3
  {
    DivIs(w, 0x100_0000, b0, 0x1_0000 * b1 as int + 0x100 * b2 as int + b3);
    DivIs(w, 0x1_0000, 0x100 * b0 as int + b1, 0x100 * b2 as int + b3);
    DivIs(w, 0x100, 0x1_0000 * b0 as int + 0x100 * b1 as int + b2, b3);
    DivIs(0x100 * b0 as int + b1, 0x100, b0, b1);
    DivIs(0x1_0000 * b0 as int + 0x100 * b1 as int + b2, 0x100, 0x100 * b0 as int + b1, b2);
  }

  lemma HaltImageHash()
    ensures HashOf(ImageOfWords(HALT_WORDS), 24) == MEETING_HASH
  {
    var hash, byte := ImageHashes(ImageOfWords(HALT_WORDS));
    FourBytes(HALT_WORDS, 0, 0x0000_000d, 0x00, 0x00, 0x00, 0x0d);
    FourBytes(HALT_WORDS, 1, 0x0000_0000, 0x00, 0x00, 0x00, 0x00);
    FourBytes(HALT_WORDS, 2, 0x0000_0000, 0x00, 0x00, 0x00, 0x00);
    FourBytes(HALT_WORDS, 3, 0x0000_0000, 0x00, 0x00, 0x00, 0x00);
    FourBytes(HALT_WORDS, 4, 0x0000_0000, 0x00, 0x00, 0x00, 0x00);
    FourBytes(HALT_WORDS, 5, 0x0000_0000, 0x00, 0x00, 0x00, 0x00);
    HaltHash0(hash, byte);
    HaltHash1(hash, byte);
  }

  lemma AddImageHash()
    ensures HashOf(ImageOfWords(ADD_WORDS), 24) == MEETING_HASH
  {
    var hash, byte := ImageHashes(ImageOfWords(ADD_WORDS));
    AddLowBytes(byte);
    AddHighBytes(byte);
    AddHash(hash, byte);
  }

  lemma AddLowBytes(byte: nat -> Byte)
    requires forall n: nat :: n < 0x1000 ==> byte(n) == ImageOfWords(ADD_WORDS)[n]
    ensures WordBytes(byte, 0, 0x24, 0x01, 0x00, 0x01) && WordBytes(byte, 1, 0x00, 0x00, 0x00, 0x0d)
    ensures WordBytes(byte, 2, 0x6a, 0x0f, 0x0f, 0x0e)
  {
    AddBytes(byte, 0, 0x2401_0001, 0x24, 0x01, 0x00, 0x01);
    AddBytes(byte, 1, 0x0000_000d, 0x00, 0x00, 0x00, 0x0d);
    AddBytes(byte, 2, 0x6a0f_0f0e, 0x6a, 0x0f, 0x0f, 0x0e);
  }

  lemma AddHighBytes(byte: nat -> Byte)
    requires forall n: nat :: n < 0x1000 ==> byte(n) == ImageOfWords(ADD_WORDS)[n]
    ensures WordBytes(byte, 3, 0x3b, 0x1b, 0x0e, 0xde) && WordBytes(byte, 4, 0x47, 0x04, 0xc0, 0x18)
    ensures WordBytes(byte, 5, 0x61, 0x7e, 0x62, 0x72)
  {
    AddBytes(byte, 3, 0x3b1b_0ede, 0x3b, 0x1b, 0x0e, 0xde);
    AddBytes(byte, 4, 0x4704_c018, 0x47, 0x04, 0xc0, 0x18);
    AddBytes(byte, 5, 0x617e_6272, 0x61, 0x7e, 0x62, 0x72);
  }

  lemma AddBytes(byte: nat -> Byte, a: Addr, w: Word, b0: Byte, b1: Byte, b2: Byte, b3: Byte)
    requires forall n: nat :: n < 0x1000 ==> byte(n) == ImageOfWords(ADD_WORDS)[n]
    requires WordOf(ADD_WORDS, a) == w && w == 0x100_0000 * b0 as int + 0x1_0000 * b1 as int + 0x100 * b2 as int + b3
    ensures WordBytes(byte, a, b0, b1, b2, b3)
  {
    FourBytes(ADD_WORDS, a, w, b0, b1, b2, b3);
  }

  /** Once two hashes meet they stay together over the same bytes. */
  lemma {:induction false} SameTail(a: Image, b: Image, n: nat, m: nat)
    requires n <= m <= 0x1000 && HashOf(a, n) == HashOf(b, n) && forall i :: n <= i < m ==> a[i] == b[i]
    ensures HashOf(a, m) == HashOf(b, m)
    decreases m - n
  {
    if n < m {
      SameTail(a, b, n, m - 1);
    }
  }

  /** The first bytes of both images differ and their hashes do not. */
  lemma HashesCollide()
    ensures Fnv1a64(ImageOfWords(HALT_WORDS)) == Fnv1a64(ImageOfWords(ADD_WORDS))
    ensures ImageOfWords(HALT_WORDS) != ImageOfWords(ADD_WORDS)
  {
    var a, b := ImageOfWords(HALT_WORDS), ImageOfWords(ADD_WORDS);
    HaltImageHash();
    AddImageHash();
    forall i | 24 <= i < 0x1000 ensures a[i] == b[i] {
      assert i / 4 >= 6;
    }
    SameTail(a, b, 24, 0x1000);
    WordOfImage(HALT_WORDS, 0);
    WordOfImage(ADD_WORDS, 0);
  }

  /** The first image compiled for root 0, as it is cached. */
  predicate HaltEntry(i: ImageT) {
    ImageOk(i) && !i.stale && i.imem == ImageOfWords(HALT_WORDS) && 0 in i.roots
  }

  /** The text of `g` called at 0 halts with $1 = 0, and the interpreter with $1 = 1. */
  ghost predicate Disagree(ex: Plain, tx: PlainText, g: Graph, s: Rsp, fuel: nat) {
    var x, c := CallText(tx, g, s, 0, fuel), Steps(ex, 2, At(0, s));
    x.Done? && Sync(x.f).r[1] == 0 && c.Halted? && c.s.r[1] == 1
  }

  lemma OldCodeHalts(ex: Plain, tx: PlainText, g: Graph, a: Image, s: Rsp, fuel: nat)
    requires Translates(g, a) && 0 in g.entry && WordAt(a, 0) == BREAK && fuel > 0
    requires WordAt(ImageOf(s), 0) == ADD_1 && WordAt(ImageOf(s), 1) == BREAK && s.r[1] == 0
    requires ex(ADD_1, s) == Ok(SetReg(s, 1, 1))
    ensures Disagree(ex, tx, g, s, fuel)
  {
    AddBreak(ex, s, 0);
    BreakBlock(tx, g, a, s, 0, fuel);
  }

  /** The two images differ where the graph has text. */
  lemma HaltIsNotAdd(g: Graph)
    requires Translates(g, ImageOfWords(HALT_WORDS)) && 0 in g.entry
    ensures !Alike(ImageOfWords(HALT_WORDS), ImageOfWords(ADD_WORDS), g)
  {
    var a, b, k := ImageOfWords(HALT_WORDS), ImageOfWords(ADD_WORDS), g.entry[0];
    WordOfImage(HALT_WORDS, 0);
    WordOfImage(ADD_WORDS, 0);
    Decoded();
    HaltBlock(g, a, 0);
    assert EntryOk(g, 0) && BlockOk(g, a, k);
    HaltsAndAdds(a, b);
    NotAlike(g, a, b, k);
  }

  lemma HaltsAndAdds(a: Image, b: Image)
    requires WordAt(a, 0) == BREAK && WordAt(b, 0) == ADD_1
    ensures InsnAt(a, 0) == Halts && InsnAt(b, 0) == Straight(ADD_1)
  {
    Decoded();
  }

  lemma NotAlike(g: Graph, a: Image, b: Image, k: Key)
    requires k in g.blocks && g.blocks[k].start == 0 && TextLength(g.blocks[k]) > 0 && InsnAt(a, 0) != InsnAt(b, 0)
    ensures !Alike(a, b, g)
  {
    assert AddrAt(0, 0) == 0;
    assert !AlikeAt(a, b, g.blocks[k]);
  }

  /** What the program selects for the second image. */
  function SecondEntry(images: map<nat, ImageT>): ImageT {
    Selected(images, ImageOfWords(ADD_WORDS), Fnv1a64(ImageOfWords(ADD_WORDS)))
  }

  predicate HaltCached(images: map<nat, ImageT>) {
    var h := Fnv1a64(ImageOfWords(HALT_WORDS));
    h in images && HaltEntry(images[h])
  }

  /** The lookup for the second image finds the entry of the first and takes it for its own. */
  lemma CollisionFound(images: map<nat, ImageT>)
    requires HaltCached(images)
    ensures var i := SecondEntry(images);
            !i.stale && i.imem == ImageOfWords(ADD_WORDS) && !ImageOk(i)
    ensures Translates(SecondEntry(images).fn, ImageOfWords(HALT_WORDS)) && 0 in SecondEntry(images).fn.entry
  {
    var h := Fnv1a64(ImageOfWords(HALT_WORDS));
    HashesCollide();
    LookupExact(images, h, ImageOfWords(ADD_WORDS));
    HaltIsNotAdd(images[h].fn);
  }

  /** A state with the second image loaded. */
  predicate AddLoaded(s: Rsp) { ImageOf(s) == ImageOfWords(ADD_WORDS) && s.r == seq(32, _ => 0) }

  lemma AddLoads()
    ensures AddLoaded(Loaded(ADD_WORDS, 0))
  {
    LoadedImage(ADD_WORDS, 0);
  }

  lemma AddImageWords()
    ensures WordAt(ImageOfWords(ADD_WORDS), 0) == ADD_1 && WordAt(ImageOfWords(ADD_WORDS), 1) == BREAK
    ensures WordAt(ImageOfWords(HALT_WORDS), 0) == BREAK
  {
    WordOfImage(HALT_WORDS, 0);
    WordOfImage(ADD_WORDS, 0);
    WordOfImage(ADD_WORDS, 1);
  }

  /** A task on the first image, then one on the second: the code of the first runs, and halts
      where the interpreter sets $1. */
  lemma CollisionRunsOldCode(images: map<nat, ImageT>, s: Rsp, fuel: nat)
    requires HaltCached(images) && AddLoaded(s) && fuel > 0
    ensures Disagree(Exec, Emit, SecondEntry(images).fn, s, fuel) && SecondEntry(images).imem == ImageOf(s)
    ensures AddLoaded(Loaded(ADD_WORDS, 0))
  {
    AddLoads();
    CollisionFound(images);
    AddImageWords();
    AddSets(s);
    OldCodeHalts(Exec, Emit, SecondEntry(images).fn, ImageOfWords(HALT_WORDS), s, fuel);
  }

  /** Such a cache is reached: a new object, asked for the first image at pc 0, holds the entry. */
  method CollisionReached() returns (images: map<nat, ImageT>)
    ensures HaltCached(images)
  {
    var bt := new Rspbt();
    var a := ImageOfWords(HALT_WORDS);
    var h := bt.Prepare(a, 0, [], iset{a});
    WordOfImage(HALT_WORDS, 0);
    Decoded();
    assert Translatable(a, 0);
    images := bt.images;
    assert Filed(images, h);
  }
}
