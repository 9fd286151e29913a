/** A message of the test suite in appendix A.5 of RFC 1321, worked through operation by
    operation.  Its two blocks hold sixteen different words and the padding, so the digest depends
    on every constant, shift, register and word index of the definition, and on the byte order. */
module Md5Suite {
  import opened Common
  import opened Md5Bits
  import opened Md5Core
  import opened Md5

  /** A register's value. */
  function Val(x: bv32): Word { x as Word }

  function Vals(a: bv32, b: bv32, c: bv32, d: bv32): Regs { Regs(Val(a), Val(b), Val(c), Val(d)) }

  lemma BitsOfVal(x: bv32)
    ensures Val(x) as bv32 == x
  {
  }

  lemma AuxOfVals(i: nat, x: bv32, y: bv32, z: bv32)
    ensures Aux(i, Val(x), Val(y), Val(z)) == Val(BitsAux(i, x, y, z))
  {
    hide BitsAux;
    BitsOfVal(x);
    BitsOfVal(y);
    BitsOfVal(z);
  }

  lemma RotlOfVal(x: bv32, s: bv32)
    requires s <= 32
    ensures Rotl(Val(x), s) == Val(BitsRotl(x, s))
  {
    hide BitsRotl;
    BitsOfVal(x);
  }

  lemma SumOfFour(a: Word, f: Word, x: Word, t: Word)
    ensures Plus(Plus(Plus(a, f), x), t) == (a + f + x + t) % TWO32
  {
    SumOfRest(a + f, x);
    SumOfRest(a + f + x, t);
  }

  lemma SumOfRest(x: nat, y: nat)
    ensures (x % TWO32 + y) % TWO32 == (x + y) % TWO32
  {
    LowShift(x % TWO32 + y, x / TWO32);
    assert x % TWO32 + y + TWO32 * (x / TWO32) == x + y;
  }

  lemma PlusIsMod(x: Word, y: Word)
    ensures Plus(x, y) == (x + y) % TWO32
  {
  }

  /** One operation in arithmetic, given the value of its auxiliary function and of its rotation. */
  lemma StepInSums(i: nat, q: Regs, x: seq<Word>, f: Word, u: Word, w: Word, r: Word)
    requires |x| == 16 && f == Aux(i, q.b, q.c, q.d) && u == (q.a + f + x[Index(i)] + T(i)) % TWO32
    requires w == Rotl(u, Shift(i)) && r == (q.b + w) % TWO32
    ensures RfcStep(i, q, x) == Regs(q.d, r, q.b, q.c)
  {
    hide Index, T, Shift, Aux, Rotl;
    SumOfFour(q.a, f, x[Index(i)], T(i));
    PlusIsMod(q.b, w);
    hide Plus;
  }

  lemma StepInBits(i: nat, a: bv32, b: bv32, c: bv32, d: bv32, u: bv32, r: bv32, q: Regs, x: seq<Word>)
    requires |x| == 16 && Rounds(i, q, x) == Vals(a, b, c, d)
    requires Val(u) == (Val(a) + Val(BitsAux(i, b, c, d)) + x[Index(i)] + T(i)) % TWO32
    requires Val(r) == (Val(b) + Val(BitsRotl(u, Shift(i)))) % TWO32
    ensures Rounds(i + 1, q, x) == Vals(d, r, b, c)
  {
    hide Val, BitsAux, Index, T, Shift, Aux, Rotl, RfcStep, BitsRotl;
    AuxOfVals(i, b, c, d);
    RotlOfVal(u, Shift(i));
    StepInSums(i, Vals(a, b, c, d), x, Val(BitsAux(i, b, c, d)), Val(u), Val(BitsRotl(u, Shift(i))), Val(r));
  }

  /** Operation i takes the registers a, b, c, d to d, r, b, c; u is the sum before the rotation
      by s. */
  lemma Op(i: nat, a: bv32, b: bv32, c: bv32, d: bv32, s: bv32, u: bv32, r: bv32, q: Regs, x: seq<Word>)
    requires |x| == 16 && Rounds(i, q, x) == Vals(a, b, c, d)
    requires Val(u) == (Val(a) + Val(BitsAux(i, b, c, d)) + x[Index(i)] + T(i)) % TWO32
    requires s == Shift(i) && Val(r) == (Val(b) + Val(BitsRotl(u, s))) % TWO32
    ensures Rounds(i + 1, q, x) == Vals(d, r, b, c)
  {
    hide Val, BitsAux, BitsRotl, Index, T, Shift, Rounds, Vals;
    StepInBits(i, a, b, c, d, u, r, q, x);
  }

  // ---------------------------------------------------------------- the first block

  predicate FirstBlock(x: seq<Word>) {
    && |x| == 16
    && x[0] == 0x44434241 && x[1] == 0x48474645 && x[2] == 0x4c4b4a49 && x[3] == 0x504f4e4d
    && x[4] == 0x54535251 && x[5] == 0x58575655 && x[6] == 0x62615a59 && x[7] == 0x66656463
    && x[8] == 0x6a696867 && x[9] == 0x6e6d6c6b && x[10] == 0x7271706f && x[11] == 0x76757473
    && x[12] == 0x7a797877 && x[13] == 0x33323130 && x[14] == 0x37363534 && x[15] == 0x00803938
  }

  lemma First0(q: Regs, x: seq<Word>)
    requires FirstBlock(x) && Rounds(0, q, x) == Vals(0x67452301, 0xefcdab89, 0x98badcfe, 0x10325476)
    ensures Rounds(4, q, x) == Vals(0xc6c10796, 0x27bce07a, 0x11067980, 0x99a09999)
  {
    hide Vals, Rounds;
    Op(0, 0x67452301, 0xefcdab89, 0x98badcfe, 0x10325476, 7, 0x1bade6b8, 0xc6c10796, q, x);
    Op(1, 0x10325476, 0xc6c10796, 0xefcdab89, 0x98badcfe, 12, 0x203d2df9, 0x99a09999, q, x);
    Op(2, 0x98badcfe, 0x99a09999, 0xc6c10796, 0xefcdab89, 17, 0xeff3bbb2, 0x11067980, q, x);
    Op(3, 0xefcdab89, 0x11067980, 0x99a09999, 0xc6c10796, 22, 0xd99be85a, 0x27bce07a, q, x);
  }

  lemma First4(q: Regs, x: seq<Word>)
    requires FirstBlock(x) && Rounds(4, q, x) == Vals(0xc6c10796, 0x27bce07a, 0x11067980, 0x99a09999)
    ensures Rounds(8, q, x) == Vals(0xf22e6c4e, 0xa4799506, 0xa95a2fc0, 0xb4ac9218)
  {
    hide Vals, Rounds;
    Op(4, 0xc6c10796, 0x27bce07a, 0x11067980, 0x99a09999, 7, 0xa994e317, 0xf22e6c4e, q, x);
    Op(5, 0x99a09999, 0xf22e6c4e, 0x27bce07a, 0x11067980, 12, 0x5cac27e2, 0xb4ac9218, q, x);
    Op(6, 0x11067980, 0xb4ac9218, 0xf22e6c4e, 0x27bce07a, 17, 0xced47a56, 0xa95a2fc0, q, x);
    Op(7, 0x27bce07a, 0xa95a2fc0, 0xb4ac9218, 0xf22e6c4e, 22, 0x7d951bec, 0xa4799506, q, x);
  }

  lemma First8(q: Regs, x: seq<Word>)
    requires FirstBlock(x) && Rounds(8, q, x) == Vals(0xf22e6c4e, 0xa4799506, 0xa95a2fc0, 0xb4ac9218)
    ensures Rounds(12, q, x) == Vals(0x1eb3e7c1, 0x8a7612ec, 0xca27520b, 0xa6e70cfe)
  {
    hide Vals, Rounds;
    Op(8, 0xf22e6c4e, 0xa4799506, 0xa95a2fc0, 0xb4ac9218, 7, 0x76f474a5, 0x1eb3e7c1, q, x);
    Op(9, 0xb4ac9218, 0x1eb3e7c1, 0xa4799506, 0xa95a2fc0, 12, 0x53d88332, 0xa6e70cfe, q, x);
    Op(10, 0xa95a2fc0, 0xa6e70cfe, 0x1eb3e7c1, 0xa4799506, 17, 0x228691a0, 0xca27520b, q, x);
    Op(11, 0xa4799506, 0xca27520b, 0xa6e70cfe, 0x1eb3e7c1, 22, 0x3b038701, 0x8a7612ec, q, x);
  }

  lemma First12(q: Regs, x: seq<Word>)
    requires FirstBlock(x) && Rounds(12, q, x) == Vals(0x1eb3e7c1, 0x8a7612ec, 0xca27520b, 0xa6e70cfe)
    ensures Rounds(16, q, x) == Vals(0x3cbdcd45, 0x5d38e690, 0xfa148c8a, 0xb8dec763)
  {
    hide Vals, Rounds;
    Op(12, 0x1eb3e7c1, 0x8a7612ec, 0xca27520b, 0xa6e70cfe, 7, 0xb3648f74, 0x3cbdcd45, q, x);
    Op(13, 0xa6e70cfe, 0x3cbdcd45, 0x8a7612ec, 0xca27520b, 12, 0xa1e7c20f, 0xb8dec763, q, x);
    Op(14, 0xca27520b, 0xb8dec763, 0x3cbdcd45, 0x8a7612ec, 17, 0xe293a09a, 0xfa148c8a, q, x);
    Op(15, 0x8a7612ec, 0xfa148c8a, 0xb8dec763, 0x3cbdcd45, 22, 0x9168198c, 0x5d38e690, q, x);
  }

  lemma First16(q: Regs, x: seq<Word>)
    requires FirstBlock(x) && Rounds(16, q, x) == Vals(0x3cbdcd45, 0x5d38e690, 0xfa148c8a, 0xb8dec763)
    ensures Rounds(20, q, x) == Vals(0x04b9d52a, 0x47ae7c81, 0xd3ee3ed1, 0x783002eb)
  {
    hide Vals, Rounds;
    Op(16, 0x3cbdcd45, 0x5d38e690, 0xfa148c8a, 0xb8dec763, 5, 0xd53c0774, 0x04b9d52a, q, x);
    Op(17, 0xb8dec763, 0x04b9d52a, 0x5d38e690, 0xfa148c8a, 9, 0xe0b9bb16, 0x783002eb, q, x);
    Op(18, 0xfa148c8a, 0x783002eb, 0x04b9d52a, 0x5d38e690, 14, 0xef996ef8, 0xd3ee3ed1, q, x);
    Op(19, 0x5d38e690, 0xd3ee3ed1, 0x783002eb, 0x04b9d52a, 20, 0x03db073c, 0x47ae7c81, q, x);
  }

  lemma First20(q: Regs, x: seq<Word>)
    requires FirstBlock(x) && Rounds(20, q, x) == Vals(0x04b9d52a, 0x47ae7c81, 0xd3ee3ed1, 0x783002eb)
    ensures Rounds(24, q, x) == Vals(0x2d7d8a3f, 0x75292030, 0x4b534dc3, 0xd1210823)
  {
    hide Vals, Rounds;
    Op(20, 0x04b9d52a, 0x47ae7c81, 0xd3ee3ed1, 0x783002eb, 5, 0xf72e786d, 0x2d7d8a3f, q, x);
    Op(21, 0x783002eb, 0x2d7d8a3f, 0x47ae7c81, 0xd3ee3ed1, 9, 0xf251d1be, 0xd1210823, q, x);
    Op(22, 0xd3ee3ed1, 0xd1210823, 0x2d7d8a3f, 0x47ae7c81, 14, 0x1681e8c9, 0x4b534dc3, q, x);
    Op(23, 0x47ae7c81, 0x4b534dc3, 0xd1210823, 0x2d7d8a3f, 20, 0x5d26d29d, 0x75292030, q, x);
  }

  lemma First24(q: Regs, x: seq<Word>)
    requires FirstBlock(x) && Rounds(24, q, x) == Vals(0x2d7d8a3f, 0x75292030, 0x4b534dc3, 0xd1210823)
    ensures Rounds(28, q, x) == Vals(0x9d2a6e33, 0xf2ff6ea0, 0xd473b564, 0x0e8d2e44)
  {
    hide Vals, Rounds;
    Op(24, 0x2d7d8a3f, 0x75292030, 0x4b534dc3, 0xd1210823, 5, 0x19400a70, 0x9d2a6e33, q, x);
    Op(25, 0xd1210823, 0x9d2a6e33, 0x75292030, 0x4b534dc3, 9, 0x08b8b160, 0x0e8d2e44, q, x);
    Op(26, 0x4b534dc3, 0x0e8d2e44, 0x9d2a6e33, 0x75292030, 14, 0x1c83179a, 0xd473b564, q, x);
    Op(27, 0x75292030, 0xd473b564, 0x0e8d2e44, 0x9d2a6e33, 20, 0xbb93c1e8, 0xf2ff6ea0, q, x);
  }

  lemma First28(q: Regs, x: seq<Word>)
    requires FirstBlock(x) && Rounds(28, q, x) == Vals(0x9d2a6e33, 0xf2ff6ea0, 0xd473b564, 0x0e8d2e44)
    ensures Rounds(32, q, x) == Vals(0x9b085fa9, 0xdd789ecc, 0x5993248f, 0x4400a9bd)
  {
    hide Vals, Rounds;
    Op(28, 0x9d2a6e33, 0xf2ff6ea0, 0xd473b564, 0x0e8d2e44, 5, 0x4d404788, 0x9b085fa9, q, x);
    Op(29, 0x0e8d2e44, 0x9b085fa9, 0xf2ff6ea0, 0xd473b564, 9, 0x0a547c25, 0x4400a9bd, q, x);
    Op(30, 0xd473b564, 0x4400a9bd, 0x9b085fa9, 0xf2ff6ea0, 14, 0xeb485649, 0x5993248f, q, x);
    Op(31, 0xf2ff6ea0, 0x5993248f, 0x4400a9bd, 0x9b085fa9, 20, 0x57a3d83e, 0xdd789ecc, q, x);
  }

  lemma First32(q: Regs, x: seq<Word>)
    requires FirstBlock(x) && Rounds(32, q, x) == Vals(0x9b085fa9, 0xdd789ecc, 0x5993248f, 0x4400a9bd)
    ensures Rounds(36, q, x) == Vals(0x21c8d2b7, 0x1b9504f8, 0x056ec119, 0x1d55a18e)
  {
    hide Vals, Rounds;
    Op(32, 0x9b085fa9, 0xdd789ecc, 0x5993248f, 0x4400a9bd, 4, 0xb445033e, 0x21c8d2b7, q, x);
    Op(33, 0x4400a9bd, 0x21c8d2b7, 0xdd789ecc, 0x5993248f, 11, 0xdaff7199, 0x1d55a18e, q, x);
    Op(34, 0x5993248f, 0x1d55a18e, 0x21c8d2b7, 0xdd789ecc, 16, 0x1f8be819, 0x056ec119, q, x);
    Op(35, 0xdd789ecc, 0x056ec119, 0x1d55a18e, 0x21c8d2b7, 23, 0x4c87be2c, 0x1b9504f8, q, x);
  }

  lemma First36(q: Regs, x: seq<Word>)
    requires FirstBlock(x) && Rounds(36, q, x) == Vals(0x21c8d2b7, 0x1b9504f8, 0x056ec119, 0x1d55a18e)
    ensures Rounds(40, q, x) == Vals(0x436b7fe9, 0xcf0341ed, 0xf404c2f6, 0x075800c1)
  {
    hide Vals, Rounds;
    Op(36, 0x21c8d2b7, 0x1b9504f8, 0x056ec119, 0x1d55a18e, 4, 0x127d67af, 0x436b7fe9, q, x);
    Op(37, 0x1d55a18e, 0x436b7fe9, 0x1b9504f8, 0x056ec119, 11, 0x1b187d90, 0x075800c1, q, x);
    Op(38, 0x056ec119, 0x075800c1, 0x436b7fe9, 0x1b9504f8, 16, 0xc235ecac, 0xf404c2f6, q, x);
    Op(39, 0x1b9504f8, 0xf404c2f6, 0x075800c1, 0x436b7fe9, 23, 0xfcfdefb5, 0xcf0341ed, q, x);
  }

  lemma First40(q: Regs, x: seq<Word>)
    requires FirstBlock(x) && Rounds(40, q, x) == Vals(0x436b7fe9, 0xcf0341ed, 0xf404c2f6, 0x075800c1)
    ensures Rounds(44, q, x) == Vals(0x888e7d8a, 0x047b9419, 0xce620273, 0xbbdaecd8)
  {
    hide Vals, Rounds;
    Op(40, 0x436b7fe9, 0xcf0341ed, 0xf404c2f6, 0x075800c1, 4, 0xdb98b3b9, 0x888e7d8a, q, x);
    Op(41, 0x075800c1, 0x888e7d8a, 0xcf0341ed, 0xf404c2f6, 11, 0xe9c6698d, 0xbbdaecd8, q, x);
    Op(42, 0xf404c2f6, 0xbbdaecd8, 0x888e7d8a, 0xcf0341ed, 16, 0x159b1287, 0xce620273, q, x);
    Op(43, 0xcf0341ed, 0xce620273, 0xbbdaecd8, 0x888e7d8a, 23, 0x33234c6c, 0x047b9419, q, x);
  }

  lemma First44(q: Regs, x: seq<Word>)
    requires FirstBlock(x) && Rounds(44, q, x) == Vals(0x888e7d8a, 0x047b9419, 0xce620273, 0xbbdaecd8)
    ensures Rounds(48, q, x) == Vals(0x2dbee21d, 0xf166f514, 0xee46e961, 0xe95c3a43)
  {
    hide Vals, Rounds;
    Op(44, 0x888e7d8a, 0x047b9419, 0xce620273, 0xbbdaecd8, 4, 0x429434e0, 0x2dbee21d, q, x);
    Op(45, 0xbbdaecd8, 0x2dbee21d, 0x047b9419, 0xce620273, 11, 0x04d773ab, 0xe95c3a43, q, x);
    Op(46, 0xce620273, 0xe95c3a43, 0x2dbee21d, 0x047b9419, 16, 0xaf1e04ea, 0xee46e961, q, x);
    Op(47, 0x047b9419, 0xee46e961, 0xe95c3a43, 0x2dbee21d, 23, 0x40176606, 0xf166f514, q, x);
  }

  lemma First48(q: Regs, x: seq<Word>)
    requires FirstBlock(x) && Rounds(48, q, x) == Vals(0x2dbee21d, 0xf166f514, 0xee46e961, 0xe95c3a43)
    ensures Rounds(52, q, x) == Vals(0xe47fd4f3, 0x7a13bc5c, 0xf22aedcc, 0xfb887751)
  {
    hide Vals, Rounds;
    Op(48, 0x2dbee21d, 0xf166f514, 0xee46e961, 0xe95c3a43, 6, 0x7fcc637f, 0xe47fd4f3, q, x);
    Op(49, 0xe95c3a43, 0xe47fd4f3, 0xf166f514, 0xee46e961, 10, 0x9785c228, 0xfb887751, q, x);
    Op(50, 0xee46e961, 0xfb887751, 0xe47fd4f3, 0xf166f514, 15, 0xecf7ed44, 0xf22aedcc, q, x);
    Op(51, 0xf166f514, 0xf22aedcc, 0xfb887751, 0xe47fd4f3, 21, 0x4674843f, 0x7a13bc5c, q, x);
  }

  lemma First52(q: Regs, x: seq<Word>)
    requires FirstBlock(x) && Rounds(52, q, x) == Vals(0xe47fd4f3, 0x7a13bc5c, 0xf22aedcc, 0xfb887751)
    ensures Rounds(56, q, x) == Vals(0xa691d430, 0xefb0e72f, 0x3fc23df6, 0x528452f2)
  {
    hide Vals, Rounds;
    Op(52, 0xe47fd4f3, 0x7a13bc5c, 0xf22aedcc, 0xfb887751, 6, 0x50b1f85f, 0xa691d430, q, x);
    Op(53, 0xfb887751, 0xa691d430, 0x7a13bc5c, 0xf22aedcc, 10, 0xb0aafc9f, 0x528452f2, q, x);
    Op(54, 0xf22aedcc, 0x528452f2, 0xa691d430, 0x7a13bc5c, 15, 0xd609da7b, 0x3fc23df6, q, x);
    Op(55, 0x7a13bc5c, 0x3fc23df6, 0x528452f2, 0xa691d430, 21, 0x7549cd7f, 0xefb0e72f, q, x);
  }

  lemma First56(q: Regs, x: seq<Word>)
    requires FirstBlock(x) && Rounds(56, q, x) == Vals(0xa691d430, 0xefb0e72f, 0x3fc23df6, 0x528452f2)
    ensures Rounds(60, q, x) == Vals(0x27145703, 0x49d9a5b4, 0x374fbe79, 0x21a11069)
  {
    hide Vals, Rounds;
    Op(56, 0xa691d430, 0xefb0e72f, 0x3fc23df6, 0x528452f2, 6, 0x50dd8dbf, 0x27145703, q, x);
    Op(57, 0x528452f2, 0x27145703, 0xefb0e72f, 0x3fc23df6, 10, 0x59bea32e, 0x21a11069, q, x);
    Op(58, 0x3fc23df6, 0x21a11069, 0x27145703, 0xefb0e72f, 15, 0x5c202b5d, 0x374fbe79, q, x);
    Op(59, 0xefb0e72f, 0x374fbe79, 0x21a11069, 0x27145703, 21, 0x4f39d894, 0x49d9a5b4, q, x);
  }

  lemma First60(q: Regs, x: seq<Word>)
    requires FirstBlock(x) && Rounds(60, q, x) == Vals(0x27145703, 0x49d9a5b4, 0x374fbe79, 0x21a11069)
    ensures Rounds(64, q, x) == Vals(0x1cb80f0a, 0xef2e3a46, 0x10f68731, 0xea3d3eb4)
  {
    hide Vals, Rounds;
    Op(60, 0x27145703, 0x49d9a5b4, 0x374fbe79, 0x21a11069, 6, 0x5b4b79a5, 0x1cb80f0a, q, x);
    Op(61, 0x21a11069, 0x1cb80f0a, 0x49d9a5b4, 0x374fbe79, 10, 0xeab3614b, 0xea3d3eb4, q, x);
    Op(62, 0x374fbe79, 0xea3d3eb4, 0x1cb80f0a, 0x49d9a5b4, 15, 0x90fa4d72, 0x10f68731, q, x);
    Op(63, 0x49d9a5b4, 0x10f68731, 0xea3d3eb4, 0x1cb80f0a, 21, 0xbd98aef1, 0xef2e3a46, q, x);
  }

  lemma FirstCompressed(x: seq<Word>)
    requires FirstBlock(x)
    ensures Compress(IV, x)
      == Regs(0x83fd320b, 0xdefbe5cf, 0xa9b1642f, 0xfa6f932a)
  {
    var q := Regs(0x67452301, 0xefcdab89, 0x98badcfe, 0x10325476);
    RoundsNone(q, x);
    hide Rounds, Plus, FirstBlock;
    First0(q, x);
    First4(q, x);
    First8(q, x);
    First12(q, x);
    First16(q, x);
    First20(q, x);
    First24(q, x);
    First28(q, x);
    First32(q, x);
    First36(q, x);
    First40(q, x);
    First44(q, x);
    First48(q, x);
    First52(q, x);
    First56(q, x);
    First60(q, x);
    PlusIsMod(0x67452301, 0x1cb80f0a);
    PlusIsMod(0xefcdab89, 0xef2e3a46);
    PlusIsMod(0x98badcfe, 0x10f68731);
    PlusIsMod(0x10325476, 0xea3d3eb4);
  }

  // ---------------------------------------------------------------- the second block

  predicate SecondBlock(x: seq<Word>) {
    && |x| == 16
    && x[0] == 0x00000000 && x[1] == 0x00000000 && x[2] == 0x00000000 && x[3] == 0x00000000
    && x[4] == 0x00000000 && x[5] == 0x00000000 && x[6] == 0x00000000 && x[7] == 0x00000000
    && x[8] == 0x00000000 && x[9] == 0x00000000 && x[10] == 0x00000000 && x[11] == 0x00000000
    && x[12] == 0x00000000 && x[13] == 0x00000000 && x[14] == 0x000001f0 && x[15] == 0x00000000
  }

  lemma Second0(q: Regs, x: seq<Word>)
    requires SecondBlock(x) && Rounds(0, q, x) == Vals(0x83fd320b, 0xdefbe5cf, 0xa9b1642f, 0xfa6f932a)
    ensures Rounds(4, q, x) == Vals(0xeda23ed1, 0xddcf0634, 0x3c307338, 0x989939cf)
  {
    hide Vals, Rounds;
    Op(0, 0x83fd320b, 0xdefbe5cf, 0xa9b1642f, 0xfa6f932a, 7, 0x041d4cb2, 0xeda23ed1, q, x);
    Op(1, 0xfa6f932a, 0xeda23ed1, 0xdefbe5cf, 0xa9b1642f, 12, 0xafeaaf6f, 0x989939cf, q, x);
    Op(2, 0xa9b1642f, 0x989939cf, 0xeda23ed1, 0xdefbe5cf, 17, 0x9cb4d1cb, 0x3c307338, q, x);
    Op(3, 0xdefbe5cf, 0x3c307338, 0x989939cf, 0xeda23ed1, 22, 0x7a4bf286, 0xddcf0634, q, x);
  }

  lemma Second4(q: Regs, x: seq<Word>)
    requires SecondBlock(x) && Rounds(4, q, x) == Vals(0xeda23ed1, 0xddcf0634, 0x3c307338, 0x989939cf)
    ensures Rounds(8, q, x) == Vals(0x75144433, 0x99b6b699, 0xc783cb60, 0xc8875807)
  {
    hide Vals, Rounds;
    Op(4, 0xeda23ed1, 0xddcf0634, 0x3c307338, 0x989939cf, 7, 0xff2e8a7b, 0x75144433, q, x);
    Op(5, 0x989939cf, 0x75144433, 0xddcf0634, 0x3c307338, 12, 0x3d453731, 0xc8875807, q, x);
    Op(6, 0x3c307338, 0xc8875807, 0x75144433, 0xddcf0634, 17, 0x39acff7e, 0xc783cb60, q, x);
    Op(7, 0xddcf0634, 0xc783cb60, 0xc8875807, 0x75144433, 22, 0xcbace748, 0x99b6b699, q, x);
  }

  lemma Second8(q: Regs, x: seq<Word>)
    requires SecondBlock(x) && Rounds(8, q, x) == Vals(0x75144433, 0x99b6b699, 0xc783cb60, 0xc8875807)
    ensures Rounds(12, q, x) == Vals(0xa60a3f69, 0x64cc7c5a, 0x64db26e9, 0xaa6630be)
  {
    hide Vals, Rounds;
    Op(8, 0x75144433, 0x99b6b699, 0xc783cb60, 0xc8875807, 7, 0xa018a711, 0xa60a3f69, q, x);
    Op(9, 0xc8875807, 0xa60a3f69, 0x99b6b699, 0xc783cb60, 12, 0x155045bf, 0xaa6630be, q, x);
    Op(10, 0xc783cb60, 0xaa6630be, 0xa60a3f69, 0x99b6b699, 17, 0x7b15dd3a, 0x64db26e9, q, x);
    Op(11, 0x99b6b699, 0x64db26e9, 0xaa6630be, 0xa60a3f69, 22, 0xc555c7ff, 0x64cc7c5a, q, x);
  }

  lemma Second12(q: Regs, x: seq<Word>)
    requires SecondBlock(x) && Rounds(12, q, x) == Vals(0xa60a3f69, 0x64cc7c5a, 0x64db26e9, 0xaa6630be)
    ensures Rounds(16, q, x) == Vals(0xa70737da, 0xa36f556f, 0x96f6586e, 0x5473f8a7)
  {
    hide Vals, Rounds;
    Op(12, 0xa60a3f69, 0x64cc7c5a, 0x64db26e9, 0xaa6630be, 7, 0x00847577, 0xa70737da, q, x);
    Op(13, 0xaa6630be, 0xa70737da, 0x64cc7c5a, 0x64db26e9, 12, 0x0cdad6cc, 0x5473f8a7, q, x);
    Op(14, 0x64db26e9, 0x5473f8a7, 0xa70737da, 0x64cc7c5a, 17, 0x2fe3a141, 0x96f6586e, q, x);
    Op(15, 0x64cc7c5a, 0x96f6586e, 0x5473f8a7, 0xa70737da, 22, 0xe3f40431, 0xa36f556f, q, x);
  }

  lemma Second16(q: Regs, x: seq<Word>)
    requires SecondBlock(x) && Rounds(16, q, x) == Vals(0xa70737da, 0xa36f556f, 0x96f6586e, 0x5473f8a7)
    ensures Rounds(20, q, x) == Vals(0xa5050ad3, 0x82b8827c, 0x27dcd8b4, 0x28776046)
  {
    hide Vals, Rounds;
    Op(16, 0xa70737da, 0xa36f556f, 0x96f6586e, 0x5473f8a7, 5, 0x200cadab, 0xa5050ad3, q, x);
    Op(17, 0x5473f8a7, 0xa5050ad3, 0xa36f556f, 0x96f6586e, 9, 0xb9c1b92a, 0x28776046, q, x);
    Op(18, 0x96f6586e, 0x28776046, 0xa5050ad3, 0xa36f556f, 14, 0xe1bbfd95, 0x27dcd8b4, q, x);
    Op(19, 0xa36f556f, 0x27dcd8b4, 0x28776046, 0xa5050ad3, 20, 0xba9c85ad, 0x82b8827c, q, x);
  }

  lemma Second20(q: Regs, x: seq<Word>)
    requires SecondBlock(x) && Rounds(20, q, x) == Vals(0xa5050ad3, 0x82b8827c, 0x27dcd8b4, 0x28776046)
    ensures Rounds(24, q, x) == Vals(0xe04f070c, 0xdf35cb56, 0xc0d22b61, 0x2f3cd2a2)
  {
    hide Vals, Rounds;
    Op(20, 0xa5050ad3, 0x82b8827c, 0x27dcd8b4, 0x28776046, 5, 0x82ecb424, 0xe04f070c, q, x);
    Op(21, 0x28776046, 0xe04f070c, 0x82b8827c, 0x27dcd8b4, 9, 0xcb2776e5, 0x2f3cd2a2, q, x);
    Op(22, 0x27dcd8b4, 0x2f3cd2a2, 0xe04f070c, 0x82b8827c, 14, 0x62fe4655, 0xc0d22b61, q, x);
    Op(23, 0x82b8827c, 0xc0d22b61, 0x2f3cd2a2, 0xe04f070c, 20, 0x39ff51e6, 0xdf35cb56, q, x);
  }

  lemma Second24(q: Regs, x: seq<Word>)
    requires SecondBlock(x) && Rounds(24, q, x) == Vals(0xe04f070c, 0xdf35cb56, 0xc0d22b61, 0x2f3cd2a2)
    ensures Rounds(28, q, x) == Vals(0x242dd210, 0x2291191a, 0x5c295967, 0x576ace33)
  {
    hide Vals, Rounds;
    Op(24, 0xe04f070c, 0xdf35cb56, 0xc0d22b61, 0x2f3cd2a2, 5, 0xd227c035, 0x242dd210, q, x);
    Op(25, 0x2f3cd2a2, 0x242dd210, 0xdf35cb56, 0xc0d22b61, 9, 0x11999e7e, 0x576ace33, q, x);
    Op(26, 0xc0d22b61, 0x576ace33, 0x242dd210, 0xdf35cb56, 14, 0x2cd012fa, 0x5c295967, q, x);
    Op(27, 0xdf35cb56, 0x5c295967, 0x576ace33, 0x242dd210, 20, 0x7bfb3c66, 0x2291191a, q, x);
  }

  lemma Second28(q: Regs, x: seq<Word>)
    requires SecondBlock(x) && Rounds(28, q, x) == Vals(0x242dd210, 0x2291191a, 0x5c295967, 0x576ace33)
    ensures Rounds(32, q, x) == Vals(0x24eba695, 0x9c03e2e8, 0x10c42a2f, 0x4bd0378b)
  {
    hide Vals, Rounds;
    Op(28, 0x242dd210, 0x2291191a, 0x5c295967, 0x576ace33, 5, 0xd812d46b, 0x24eba695, q, x);
    Op(29, 0x576ace33, 0x24eba695, 0x2291191a, 0x5c295967, 9, 0x7b137248, 0x4bd0378b, q, x);
    Op(30, 0x5c295967, 0x4bd0378b, 0x24eba695, 0x2291191a, 14, 0xca9313cf, 0x10c42a2f, q, x);
    Op(31, 0x2291191a, 0x10c42a2f, 0x4bd0378b, 0x24eba695, 20, 0xfb8b98b3, 0x9c03e2e8, q, x);
  }

  lemma Second32(q: Regs, x: seq<Word>)
    requires SecondBlock(x) && Rounds(32, q, x) == Vals(0x24eba695, 0x9c03e2e8, 0x10c42a2f, 0x4bd0378b)
    ensures Rounds(36, q, x) == Vals(0x5be1d526, 0xa2448453, 0x9f4a1a7e, 0x9e414279)
  {
    hide Vals, Rounds;
    Op(32, 0x24eba695, 0x9c03e2e8, 0x10c42a2f, 0x4bd0378b, 4, 0xebfddf23, 0x5be1d526, q, x);
    Op(33, 0x4bd0378b, 0x5be1d526, 0x9c03e2e8, 0x10c42a2f, 11, 0xaa684bed, 0x9e414279, q, x);
    Op(34, 0x10c42a2f, 0x9e414279, 0x5be1d526, 0x9c03e2e8, 16, 0xd8050108, 0x9f4a1a7e, q, x);
    Op(35, 0x9c03e2e8, 0x9f4a1a7e, 0x9e414279, 0x5be1d526, 23, 0xf4d3aa05, 0xa2448453, q, x);
  }

  lemma Second36(q: Regs, x: seq<Word>)
    requires SecondBlock(x) && Rounds(36, q, x) == Vals(0x5be1d526, 0xa2448453, 0x9f4a1a7e, 0x9e414279)
    ensures Rounds(40, q, x) == Vals(0xe14e403d, 0xfe314121, 0x60cc183a, 0xe8cfd670)
  {
    hide Vals, Rounds;
    Op(36, 0x5be1d526, 0xa2448453, 0x9f4a1a7e, 0x9e414279, 4, 0xa3f09bbe, 0xe14e403d, q, x);
    Op(37, 0x9e414279, 0xe14e403d, 0xa2448453, 0x9f4a1a7e, 11, 0xc660f032, 0xe8cfd670, q, x);
    Op(38, 0x9f4a1a7e, 0xe8cfd670, 0xe14e403d, 0xa2448453, 16, 0x41ca77fc, 0x60cc183a, q, x);
    Op(39, 0xa2448453, 0x60cc183a, 0xe8cfd670, 0xe14e403d, 23, 0xca51cf3a, 0xfe314121, q, x);
  }

  lemma Second40(q: Regs, x: seq<Word>)
    requires SecondBlock(x) && Rounds(40, q, x) == Vals(0xe14e403d, 0xfe314121, 0x60cc183a, 0xe8cfd670)
    ensures Rounds(44, q, x) == Vals(0xfff62809, 0x7c7e974c, 0x8cb5221c, 0xe37209ac)
  {
    hide Vals, Rounds;
    Op(40, 0xe14e403d, 0xfe314121, 0x60cc183a, 0xe8cfd670, 4, 0x801c4e6e, 0xfff62809, q, x);
    Op(41, 0xe8cfd670, 0xfff62809, 0xfe314121, 0x60cc183a, 11, 0x347c6f7c, 0xe37209ac, q, x);
    Op(42, 0x60cc183a, 0xe37209ac, 0xfff62809, 0xfe314121, 16, 0x1870a943, 0x8cb5221c, q, x);
    Op(43, 0xfe314121, 0x8cb5221c, 0xe37209ac, 0xfff62809, 23, 0x92ea61df, 0x7c7e974c, q, x);
  }

  lemma Second44(q: Regs, x: seq<Word>)
    requires SecondBlock(x) && Rounds(44, q, x) == Vals(0xfff62809, 0x7c7e974c, 0x8cb5221c, 0xe37209ac)
    ensures Rounds(48, q, x) == Vals(0x54c9eb3a, 0x79c0710a, 0x2ec86f72, 0xd4d9c6ac)
  {
    hide Vals, Rounds;
    Op(44, 0xfff62809, 0x7c7e974c, 0x8cb5221c, 0xe37209ac, 4, 0xed84b53e, 0x54c9eb3a, q, x);
    Op(45, 0xe37209ac, 0x54c9eb3a, 0x7c7e974c, 0x8cb5221c, 11, 0x6e5001fb, 0xd4d9c6ac, q, x);
    Op(46, 0x8cb5221c, 0xd4d9c6ac, 0x54c9eb3a, 0x7c7e974c, 16, 0xa8c659ee, 0x2ec86f72, q, x);
    Op(47, 0x7c7e974c, 0x2ec86f72, 0xd4d9c6ac, 0x54c9eb3a, 23, 0xf0033095, 0x79c0710a, q, x);
  }

  lemma Second48(q: Regs, x: seq<Word>)
    requires SecondBlock(x) && Rounds(48, q, x) == Vals(0x54c9eb3a, 0x79c0710a, 0x2ec86f72, 0xd4d9c6ac)
    ensures Rounds(52, q, x) == Vals(0x02095af1, 0x2ba98e3f, 0xa8dcfe26, 0x13d245fd)
  {
    hide Vals, Rounds;
    Op(48, 0x54c9eb3a, 0x79c0710a, 0x2ec86f72, 0xd4d9c6ac, 6, 0x9e2123a7, 0x02095af1, q, x);
    Op(49, 0xd4d9c6ac, 0x02095af1, 0x79c0710a, 0x2ec86f72, 10, 0xc304723a, 0x13d245fd, q, x);
    Op(50, 0x2ec86f72, 0x13d245fd, 0x02095af1, 0x79c0710a, 15, 0x70532a15, 0xa8dcfe26, q, x);
    Op(51, 0x79c0710a, 0xa8dcfe26, 0x13d245fd, 0x02095af1, 21, 0x6480cc16, 0x2ba98e3f, q, x);
  }

  lemma Second52(q: Regs, x: seq<Word>)
    requires SecondBlock(x) && Rounds(52, q, x) == Vals(0x02095af1, 0x2ba98e3f, 0xa8dcfe26, 0x13d245fd)
    ensures Rounds(56, q, x) == Vals(0xe126c1aa, 0xfb7bcee0, 0x6f287ff5, 0x96b00fa7)
  {
    hide Vals, Rounds;
    Op(52, 0x02095af1, 0x2ba98e3f, 0xa8dcfe26, 0x13d245fd, 6, 0xaed5f4cd, 0xe126c1aa, q, x);
    Op(53, 0x13d245fd, 0xe126c1aa, 0x2ba98e3f, 0xa8dcfe26, 10, 0x7f6d6253, 0x96b00fa7, q, x);
    Op(54, 0xa8dcfe26, 0x96b00fa7, 0xe126c1aa, 0x2ba98e3f, 15, 0xe09db0f0, 0x6f287ff5, q, x);
    Op(55, 0x2ba98e3f, 0x6f287ff5, 0x96b00fa7, 0xe126c1aa, 21, 0x9a775c62, 0xfb7bcee0, q, x);
  }

  lemma Second56(q: Regs, x: seq<Word>)
    requires SecondBlock(x) && Rounds(56, q, x) == Vals(0xe126c1aa, 0xfb7bcee0, 0x6f287ff5, 0x96b00fa7)
    ensures Rounds(60, q, x) == Vals(0x452c1099, 0x5ac74608, 0xc197ea8e, 0xca801ba6)
  {
    hide Vals, Rounds;
    Op(56, 0xe126c1aa, 0xfb7bcee0, 0x6f287ff5, 0x96b00fa7, 6, 0xe526c106, 0x452c1099, q, x);
    Op(57, 0x96b00fa7, 0x452c1099, 0xfb7bcee0, 0x6f287ff5, 10, 0xc3615502, 0xca801ba6, q, x);
    Op(58, 0x6f287ff5, 0xca801ba6, 0x452c1099, 0xfb7bcee0, 15, 0x9dd1ee2f, 0xc197ea8e, q, x);
    Op(59, 0xfb7bcee0, 0xc197ea8e, 0xca801ba6, 0x452c1099, 21, 0x7adbd4c9, 0x5ac74608, q, x);
  }

  lemma Second60(q: Regs, x: seq<Word>)
    requires SecondBlock(x) && Rounds(60, q, x) == Vals(0x452c1099, 0x5ac74608, 0xc197ea8e, 0xca801ba6)
    ensures Rounds(64, q, x) == Vals(0x14ae42c6, 0x16dd9203, 0x826afd76, 0xa52dae75)
  {
    hide Vals, Rounds;
    Op(60, 0x452c1099, 0x5ac74608, 0xc197ea8e, 0xca801ba6, 6, 0xfae79bf2, 0x14ae42c6, q, x);
    Op(61, 0xca801ba6, 0x14ae42c6, 0x5ac74608, 0xc197ea8e, 10, 0xebe41fda, 0xa52dae75, q, x);
    Op(62, 0xc197ea8e, 0xa52dae75, 0x14ae42c6, 0x5ac74608, 15, 0x9e03ba7a, 0x826afd76, q, x);
    Op(63, 0x5ac74608, 0x826afd76, 0xa52dae75, 0x14ae42c6, 21, 0x94a46ca3, 0x16dd9203, q, x);
  }

  lemma SecondCompressed(x: seq<Word>)
    requires SecondBlock(x)
    ensures Compress(Regs(0x83fd320b, 0xdefbe5cf, 0xa9b1642f, 0xfa6f932a), x)
      == Regs(0x98ab74d1, 0xf5d977d2, 0x2c1c61a5, 0x9f9d419f)
  {
    var q := Regs(0x83fd320b, 0xdefbe5cf, 0xa9b1642f, 0xfa6f932a);
    RoundsNone(q, x);
    hide Rounds, Plus, SecondBlock;
    Second0(q, x);
    Second4(q, x);
    Second8(q, x);
    Second12(q, x);
    Second16(q, x);
    Second20(q, x);
    Second24(q, x);
    Second28(q, x);
    Second32(q, x);
    Second36(q, x);
    Second40(q, x);
    Second44(q, x);
    Second48(q, x);
    Second52(q, x);
    Second56(q, x);
    Second60(q, x);
    PlusIsMod(0x83fd320b, 0x14ae42c6);
    PlusIsMod(0xdefbe5cf, 0x16dd9203);
    PlusIsMod(0xa9b1642f, 0x826afd76);
    PlusIsMod(0xfa6f932a, 0xa52dae75);
  }

  // ---------------------------------------------------------------- the digest

  /** The 26 capital letters, the 26 small letters and the 10 digits. */
  function Letters(): (m: seq<Byte>)
    ensures |m| == 62
  {
    seq(62, i requires 0 <= i < 62 =>
      if i < 26 then 'A' as int + i else if i < 52 then 'a' as int + (i - 26) else '0' as int + (i - 52))
  }

  lemma PaddedLetters(p: seq<Byte>)
    requires p == Padded(Letters())
    ensures |p| == 128 && p[..62] == Letters() && p[62] == 0x80 && p[120] == 0xf0 && p[121] == 1
    ensures forall i :: 63 <= i < 128 && i != 120 && i != 121 ==> p[i] == 0
  {
    PaddedShape(Letters());
    hide Padded, Letters;
  }

  lemma LettersBlocks(p: seq<Byte>)
    requires p == Padded(Letters())
    ensures |p| == 128 && FirstBlock(Words(p[..64])) && SecondBlock(Words(p[64..]))
  {
    PaddedLetters(p);
    hide Padded, Letters, Words, FirstBlock, SecondBlock;
    assert p[..64][..62] == p[..62];
    FirstWords(p[..64]);
    SecondWords(p[64..]);
  }

  lemma FirstWords(b: seq<Byte>)
    requires |b| == 64 && b[..62] == Letters() && b[62] == 0x80 && b[63] == 0
    ensures FirstBlock(Words(b))
  {
    assert forall i :: 0 <= i < 62 ==> b[i] == b[..62][i] == Letters()[i];
  }

  lemma SecondWords(b: seq<Byte>)
    requires |b| == 64 && b[56] == 0xf0 && b[57] == 0x01
    requires forall i :: 0 <= i < 64 && i != 56 && i != 57 ==> b[i] == 0
    ensures SecondBlock(Words(b))
  {
    hide Words;
    forall i | 0 <= i < 16
      ensures Words(b)[i] == if i == 14 then 0x1f0 else 0
    {
      WordFrom(b, i);
    }
  }

  lemma ProcessTwo(q: Regs, p: seq<Byte>)
    requires |p| == 128
    ensures Process(q, p) == Compress(Compress(q, Words(p[..64])), Words(p[64..]))
  {
    hide Compress, Words, Process;
    var a, b, none: seq<Byte> := p[..64], p[64..], [];
    assert none + a == a && a + b == p;
    ProcessBlock(q, none, a);
    ProcessBlock(q, a, b);
    ProcessNone(q);
  }

  lemma ProcessNone(q: Regs)
    ensures Process(q, []) == q
  {
  }

  /** The digest that RFC 1321 prints for this message, d174ab98d277d9f5a5611c2c9f419d9f. */
  lemma LettersDigest()
    ensures Digest(Letters())
      == [0xd1, 0x74, 0xab, 0x98, 0xd2, 0x77, 0xd9, 0xf5, 0xa5, 0x61, 0x1c, 0x2c, 0x9f, 0x41, 0x9d, 0x9f]
  {
    var p := Padded(Letters());
    LettersBlocks(p);
    hide Letters, Padded, Words, Process, Compress, Encode, FirstBlock, SecondBlock;
    FirstCompressed(Words(p[..64]));
    SecondCompressed(Words(p[64..]));
    ProcessTwo(IV, p);
    EncodedLetters();
  }

  lemma EncodedLetters()
    ensures Encode(Regs(0x98ab74d1, 0xf5d977d2, 0x2c1c61a5, 0x9f9d419f))
      == [0xd1, 0x74, 0xab, 0x98, 0xd2, 0x77, 0xd9, 0xf5, 0xa5, 0x61, 0x1c, 0x2c, 0x9f, 0x41, 0x9d, 0x9f]
  {
  }
}
