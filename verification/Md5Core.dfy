/** The bitwise functions of MD5 on 32-bit words: as section 3.4 of RFC 1321 gives them, and
    the two selections as lib/md5.c computes them. */
module Md5Bits {
  function BitsF(x: bv32, y: bv32, z: bv32): bv32 { (x & y) | (!x & z) }
  function BitsG(x: bv32, y: bv32, z: bv32): bv32 { (x & z) | (y & !z) }
  function BitsH(x: bv32, y: bv32, z: bv32): bv32 { x ^ y ^ z }
  function BitsI(x: bv32, y: bv32, z: bv32): bv32 { y ^ (x | !z) }

  function BitsF1(x: bv32, y: bv32, z: bv32): bv32 { z ^ (x & (y ^ z)) }
  function BitsF2(x: bv32, y: bv32, z: bv32): bv32 { BitsF1(z, x, y) }

  /** The auxiliary function of step i. */
  function BitsAux(i: nat, x: bv32, y: bv32, z: bv32): bv32 {
    match i / 16
    case 0 => BitsF(x, y, z)
    case 1 => BitsG(x, y, z)
    case 2 => BitsH(x, y, z)
    case _ => BitsI(x, y, z)
  }

  function BitsRotl(w: bv32, s: bv32): bv32
    requires s <= 32
  {
    (w << s) | (w >> (32 - s))
  }

  lemma SelectF(x: bv32, y: bv32, z: bv32)
    ensures z ^ (x & (y ^ z)) == (x & y) | (!x & z)
  {
  }

  lemma SelectG(x: bv32, y: bv32, z: bv32)
    ensures y ^ (z & (x ^ y)) == (x & z) | (y & !z)
  {
  }

  /** The two optimised selections compute what the RFC asks for. */
  lemma OptimisedSelections(x: bv32, y: bv32, z: bv32)
    ensures BitsF1(x, y, z) == BitsF(x, y, z)
    ensures BitsF2(x, y, z) == BitsG(x, y, z)
  {
    SelectF(x, y, z);
    SelectG(x, y, z);
  }
}

/** The MD5 compression function of lib/md5.c, written as its 64 unrolled steps, against the
    indexed definition of section 3.4 of RFC 1321. */
module Md5Core {
  import opened Common
  import opened Md5Bits

  /** uint32_t addition. */
  function Plus(x: Word, y: Word): Word { (x + y) % TWO32 }

  /** The four registers, also used for a chaining value. */
  datatype Regs = Regs(a: Word, b: Word, c: Word, d: Word)

  function Rotl(w: Word, s: bv32): Word
    requires s <= 32
  {
    BitsRotl(w as bv32, s) as Word
  }

  // ---------------------------------------------------------------- RFC 1321, section 3.4

  function Aux(i: nat, x: Word, y: Word, z: Word): Word {
    BitsAux(i, x as bv32, y as bv32, z as bv32) as Word
  }

  /** Which message word step i uses. */
  function Index(i: nat): (k: nat)
    ensures k < 16
  {
    match i / 16
    case 0 => i % 16
    case 1 => (5 * i + 1) % 16
    case 2 => (3 * i + 5) % 16
    case _ => (7 * i) % 16
  }

  function Shift(i: nat): (s: bv32)
    ensures s <= 32
  {
    match (i / 16, i % 4)
    case (0, 0) => 7
    case (0, 1) => 12
    case (0, 2) => 17
    case (0, _) => 22
    case (1, 0) => 5
    case (1, 1) => 9
    case (1, 2) => 14
    case (1, _) => 20
    case (2, 0) => 4
    case (2, 1) => 11
    case (2, 2) => 16
    case (2, _) => 23
    case (_, 0) => 6
    case (_, 1) => 10
    case (_, 2) => 15
    case (_, _) => 21
  }

  /** The additive constants: 2^32 times |sin(i + 1)|, rounded down. */
  function T(i: nat): Word {
    match i / 16
    case 0 => (
      match i % 16
      case 0 => 0xd76aa478
      case 1 => 0xe8c7b756
      case 2 => 0x242070db
      case 3 => 0xc1bdceee
      case 4 => 0xf57c0faf
      case 5 => 0x4787c62a
      case 6 => 0xa8304613
      case 7 => 0xfd469501
      case 8 => 0x698098d8
      case 9 => 0x8b44f7af
      case 10 => 0xffff5bb1
      case 11 => 0x895cd7be
      case 12 => 0x6b901122
      case 13 => 0xfd987193
      case 14 => 0xa679438e
      case _ => 0x49b40821
    )
    case 1 => (
      match i % 16
      case 0 => 0xf61e2562
      case 1 => 0xc040b340
      case 2 => 0x265e5a51
      case 3 => 0xe9b6c7aa
      case 4 => 0xd62f105d
      case 5 => 0x02441453
      case 6 => 0xd8a1e681
      case 7 => 0xe7d3fbc8
      case 8 => 0x21e1cde6
      case 9 => 0xc33707d6
      case 10 => 0xf4d50d87
      case 11 => 0x455a14ed
      case 12 => 0xa9e3e905
      case 13 => 0xfcefa3f8
      case 14 => 0x676f02d9
      case _ => 0x8d2a4c8a
    )
    case 2 => (
      match i % 16
      case 0 => 0xfffa3942
      case 1 => 0x8771f681
      case 2 => 0x6d9d6122
      case 3 => 0xfde5380c
      case 4 => 0xa4beea44
      case 5 => 0x4bdecfa9
      case 6 => 0xf6bb4b60
      case 7 => 0xbebfbc70
      case 8 => 0x289b7ec6
      case 9 => 0xeaa127fa
      case 10 => 0xd4ef3085
      case 11 => 0x04881d05
      case 12 => 0xd9d4d039
      case 13 => 0xe6db99e5
      case 14 => 0x1fa27cf8
      case _ => 0xc4ac5665
    )
    case _ => (
      match i % 16
      case 0 => 0xf4292244
      case 1 => 0x432aff97
      case 2 => 0xab9423a7
      case 3 => 0xfc93a039
      case 4 => 0x655b59c3
      case 5 => 0x8f0ccc92
      case 6 => 0xffeff47d
      case 7 => 0x85845dd1
      case 8 => 0x6fa87e4f
      case 9 => 0xfe2ce6e0
      case 10 => 0xa3014314
      case 11 => 0x4e0811a1
      case 12 => 0xf7537e82
      case 13 => 0xbd3af235
      case 14 => 0x2ad7d2bb
      case _ => 0xeb86d391
    )
  }

  /** One operation [abcd k s i]; the result is listed so that the next operation again reads
      its registers as a, b, c, d. */
  function RfcStep(i: nat, q: Regs, x: seq<Word>): Regs
    requires |x| == 16
  {
    Regs(q.d, Plus(q.b, Rotl(Plus(Plus(Plus(q.a, Aux(i, q.b, q.c, q.d)), x[Index(i)]), T(i)), Shift(i))), q.b, q.c)
  }

  /** The first n of the 64 operations. */
  function Rounds(n: nat, q: Regs, x: seq<Word>): Regs
    requires |x| == 16
  {
    if n == 0 then q else RfcStep(n - 1, Rounds(n - 1, q, x), x)
  }

  function AddRegs(p: Regs, q: Regs): Regs {
    Regs(Plus(p.a, q.a), Plus(p.b, q.b), Plus(p.c, q.c), Plus(p.d, q.d))
  }

  /** All operations, four for each word of the block, and the final additions. */
  function Compress(q: Regs, x: seq<Word>): Regs
    requires |x| == 16
  {
    AddRegs(q, Rounds(4 * |x|, q, x))
  }

  // ---------------------------------------------------------------- lib/md5.c

  function F1(x: Word, y: Word, z: Word): Word { BitsF1(x as bv32, y as bv32, z as bv32) as Word }
  function F2(x: Word, y: Word, z: Word): Word { BitsF2(x as bv32, y as bv32, z as bv32) as Word }
  function F3(x: Word, y: Word, z: Word): Word { BitsH(x as bv32, y as bv32, z as bv32) as Word }
  function F4(x: Word, y: Word, z: Word): Word { BitsI(x as bv32, y as bv32, z as bv32) as Word }

  /** MD5STEP, given the value of f(x, y, z). */
  function Md5Step(f: Word, w: Word, x: Word, data: Word, s: bv32): Word
    requires s <= 32
  {
    Plus(Rotl(Plus(w, Plus(f, data)), s), x)
  }

  function Opt(i: nat, x: Word, y: Word, z: Word): Word {
    match i / 16
    case 0 => F1(x, y, z)
    case 1 => F2(x, y, z)
    case 2 => F3(x, y, z)
    case _ => F4(x, y, z)
  }

  lemma OptIsAux(i: nat, x: Word, y: Word, z: Word)
    ensures Opt(i, x, y, z) == Aux(i, x, y, z)
  {
    hide BitsF, BitsG, BitsH, BitsI, BitsF1, BitsF2;
    OptimisedSelections(x as bv32, y as bv32, z as bv32);
  }

  lemma PlusAssoc(x: Word, y: Word, z: Word)
    ensures Plus(x, Plus(y, z)) == Plus(Plus(x, y), z)
  {
  }

  lemma PlusOrder(a: Word, f: Word, x: Word, t: Word)
    ensures Plus(a, Plus(f, Plus(x, t))) == Plus(Plus(Plus(a, f), x), t)
  {
    hide Plus;
    PlusAssoc(f, x, t);
    PlusAssoc(a, Plus(f, x), t);
    PlusAssoc(a, f, x);
  }

  lemma PlusSwap(x: Word, y: Word)
    ensures Plus(x, y) == Plus(y, x)
  {
  }

  /** Four steps with the registers in the places where four lines of the source have them. */
  function Quad(n: nat, q: Regs, x: seq<Word>): Regs
    requires |x| == 16
  {
    var a := Md5Step(Opt(n, q.b, q.c, q.d), q.a, q.b, Plus(x[Index(n)], T(n)), Shift(n));
    var d := Md5Step(Opt(n + 1, a, q.b, q.c), q.d, a, Plus(x[Index(n + 1)], T(n + 1)), Shift(n + 1));
    var c := Md5Step(Opt(n + 2, d, a, q.b), q.c, d, Plus(x[Index(n + 2)], T(n + 2)), Shift(n + 2));
    var b := Md5Step(Opt(n + 3, c, d, a), q.b, c, Plus(x[Index(n + 3)], T(n + 3)), Shift(n + 3));
    Regs(a, b, c, d)
  }

  lemma StepIsRfcStep(i: nat, q: Regs, x: seq<Word>)
    requires |x| == 16
    ensures RfcStep(i, q, x)
      == Regs(q.d, Md5Step(Opt(i, q.b, q.c, q.d), q.a, q.b, Plus(x[Index(i)], T(i)), Shift(i)), q.b, q.c)
  {
    hide Plus, Rotl, Opt, Aux, Index, T, Shift;
    OptIsAux(i, q.b, q.c, q.d);
    var f := Aux(i, q.b, q.c, q.d);
    PlusOrder(q.a, f, x[Index(i)], T(i));
    PlusSwap(q.b, Rotl(Plus(Plus(Plus(q.a, f), x[Index(i)]), T(i)), Shift(i)));
  }

  lemma QuadIsRounds(n: nat, q: Regs, x: seq<Word>)
    requires |x| == 16
    ensures Rounds(n + 4, q, x) == Quad(n, Rounds(n, q, x), x)
  {
    hide RfcStep, Plus, Md5Step, Opt, Index, T, Shift;
    var r0 := Rounds(n, q, x);
    var r1, r2, r3 := Rounds(n + 1, q, x), Rounds(n + 2, q, x), Rounds(n + 3, q, x);
    StepIsRfcStep(n, r0, x);
    StepIsRfcStep(n + 1, r1, x);
    StepIsRfcStep(n + 2, r2, x);
    StepIsRfcStep(n + 3, r3, x);
  }

  method RoundOne(a0: Word, b0: Word, c0: Word, d0: Word, input: seq<Word>, ghost q: Regs)
    returns (a: Word, b: Word, c: Word, d: Word)
    requires |input| == 16 && Regs(a0, b0, c0, d0) == Rounds(0, q, input)
    ensures Regs(a, b, c, d) == Rounds(16, q, input)
  {
    hide Rounds, Plus, Md5Step, F1, F2, F3, F4;
    a, b, c, d := a0, b0, c0, d0;
    a := Md5Step(F1(b, c, d), a, b, Plus(input[0], 0xd76aa478), 7);
    d := Md5Step(F1(a, b, c), d, a, Plus(input[1], 0xe8c7b756), 12);
    c := Md5Step(F1(d, a, b), c, d, Plus(input[2], 0x242070db), 17);
    b := Md5Step(F1(c, d, a), b, c, Plus(input[3], 0xc1bdceee), 22);
    QuadIsRounds(0, q, input);
    a := Md5Step(F1(b, c, d), a, b, Plus(input[4], 0xf57c0faf), 7);
    d := Md5Step(F1(a, b, c), d, a, Plus(input[5], 0x4787c62a), 12);
    c := Md5Step(F1(d, a, b), c, d, Plus(input[6], 0xa8304613), 17);
    b := Md5Step(F1(c, d, a), b, c, Plus(input[7], 0xfd469501), 22);
    QuadIsRounds(4, q, input);
    a := Md5Step(F1(b, c, d), a, b, Plus(input[8], 0x698098d8), 7);
    d := Md5Step(F1(a, b, c), d, a, Plus(input[9], 0x8b44f7af), 12);
    c := Md5Step(F1(d, a, b), c, d, Plus(input[10], 0xffff5bb1), 17);
    b := Md5Step(F1(c, d, a), b, c, Plus(input[11], 0x895cd7be), 22);
    QuadIsRounds(8, q, input);
    a := Md5Step(F1(b, c, d), a, b, Plus(input[12], 0x6b901122), 7);
    d := Md5Step(F1(a, b, c), d, a, Plus(input[13], 0xfd987193), 12);
    c := Md5Step(F1(d, a, b), c, d, Plus(input[14], 0xa679438e), 17);
    b := Md5Step(F1(c, d, a), b, c, Plus(input[15], 0x49b40821), 22);
    QuadIsRounds(12, q, input);
  }

  method RoundTwo(a0: Word, b0: Word, c0: Word, d0: Word, input: seq<Word>, ghost q: Regs)
    returns (a: Word, b: Word, c: Word, d: Word)
    requires |input| == 16 && Regs(a0, b0, c0, d0) == Rounds(16, q, input)
    ensures Regs(a, b, c, d) == Rounds(32, q, input)
  {
    hide Rounds, Plus, Md5Step, F1, F2, F3, F4;
    a, b, c, d := a0, b0, c0, d0;
    a := Md5Step(F2(b, c, d), a, b, Plus(input[1], 0xf61e2562), 5);
    d := Md5Step(F2(a, b, c), d, a, Plus(input[6], 0xc040b340), 9);
    c := Md5Step(F2(d, a, b), c, d, Plus(input[11], 0x265e5a51), 14);
    b := Md5Step(F2(c, d, a), b, c, Plus(input[0], 0xe9b6c7aa), 20);
    QuadIsRounds(16, q, input);
    a := Md5Step(F2(b, c, d), a, b, Plus(input[5], 0xd62f105d), 5);
    d := Md5Step(F2(a, b, c), d, a, Plus(input[10], 0x02441453), 9);
    c := Md5Step(F2(d, a, b), c, d, Plus(input[15], 0xd8a1e681), 14);
    b := Md5Step(F2(c, d, a), b, c, Plus(input[4], 0xe7d3fbc8), 20);
    QuadIsRounds(20, q, input);
    a := Md5Step(F2(b, c, d), a, b, Plus(input[9], 0x21e1cde6), 5);
    d := Md5Step(F2(a, b, c), d, a, Plus(input[14], 0xc33707d6), 9);
    c := Md5Step(F2(d, a, b), c, d, Plus(input[3], 0xf4d50d87), 14);
    b := Md5Step(F2(c, d, a), b, c, Plus(input[8], 0x455a14ed), 20);
    QuadIsRounds(24, q, input);
    a := Md5Step(F2(b, c, d), a, b, Plus(input[13], 0xa9e3e905), 5);
    d := Md5Step(F2(a, b, c), d, a, Plus(input[2], 0xfcefa3f8), 9);
    c := Md5Step(F2(d, a, b), c, d, Plus(input[7], 0x676f02d9), 14);
    b := Md5Step(F2(c, d, a), b, c, Plus(input[12], 0x8d2a4c8a), 20);
    QuadIsRounds(28, q, input);
  }

  method RoundThree(a0: Word, b0: Word, c0: Word, d0: Word, input: seq<Word>, ghost q: Regs)
    returns (a: Word, b: Word, c: Word, d: Word)
    requires |input| == 16 && Regs(a0, b0, c0, d0) == Rounds(32, q, input)
    ensures Regs(a, b, c, d) == Rounds(48, q, input)
  {
    hide Rounds, Plus, Md5Step, F1, F2, F3, F4;
    a, b, c, d := a0, b0, c0, d0;
    a := Md5Step(F3(b, c, d), a, b, Plus(input[5], 0xfffa3942), 4);
    d := Md5Step(F3(a, b, c), d, a, Plus(input[8], 0x8771f681), 11);
    c := Md5Step(F3(d, a, b), c, d, Plus(input[11], 0x6d9d6122), 16);
    b := Md5Step(F3(c, d, a), b, c, Plus(input[14], 0xfde5380c), 23);
    QuadIsRounds(32, q, input);
    a := Md5Step(F3(b, c, d), a, b, Plus(input[1], 0xa4beea44), 4);
    d := Md5Step(F3(a, b, c), d, a, Plus(input[4], 0x4bdecfa9), 11);
    c := Md5Step(F3(d, a, b), c, d, Plus(input[7], 0xf6bb4b60), 16);
    b := Md5Step(F3(c, d, a), b, c, Plus(input[10], 0xbebfbc70), 23);
    QuadIsRounds(36, q, input);
    a := Md5Step(F3(b, c, d), a, b, Plus(input[13], 0x289b7ec6), 4);
    d := Md5Step(F3(a, b, c), d, a, Plus(input[0], 0xeaa127fa), 11);
    c := Md5Step(F3(d, a, b), c, d, Plus(input[3], 0xd4ef3085), 16);
    b := Md5Step(F3(c, d, a), b, c, Plus(input[6], 0x04881d05), 23);
    QuadIsRounds(40, q, input);
    a := Md5Step(F3(b, c, d), a, b, Plus(input[9], 0xd9d4d039), 4);
    d := Md5Step(F3(a, b, c), d, a, Plus(input[12], 0xe6db99e5), 11);
    c := Md5Step(F3(d, a, b), c, d, Plus(input[15], 0x1fa27cf8), 16);
    b := Md5Step(F3(c, d, a), b, c, Plus(input[2], 0xc4ac5665), 23);
    QuadIsRounds(44, q, input);
  }

  method RoundFour(a0: Word, b0: Word, c0: Word, d0: Word, input: seq<Word>, ghost q: Regs)
    returns (a: Word, b: Word, c: Word, d: Word)
    requires |input| == 16 && Regs(a0, b0, c0, d0) == Rounds(48, q, input)
    ensures Regs(a, b, c, d) == Rounds(64, q, input)
  {
    hide Rounds, Plus, Md5Step, F1, F2, F3, F4;
    a, b, c, d := a0, b0, c0, d0;
    a := Md5Step(F4(b, c, d), a, b, Plus(input[0], 0xf4292244), 6);
    d := Md5Step(F4(a, b, c), d, a, Plus(input[7], 0x432aff97), 10);
    c := Md5Step(F4(d, a, b), c, d, Plus(input[14], 0xab9423a7), 15);
    b := Md5Step(F4(c, d, a), b, c, Plus(input[5], 0xfc93a039), 21);
    QuadIsRounds(48, q, input);
    a := Md5Step(F4(b, c, d), a, b, Plus(input[12], 0x655b59c3), 6);
    d := Md5Step(F4(a, b, c), d, a, Plus(input[3], 0x8f0ccc92), 10);
    c := Md5Step(F4(d, a, b), c, d, Plus(input[10], 0xffeff47d), 15);
    b := Md5Step(F4(c, d, a), b, c, Plus(input[1], 0x85845dd1), 21);
    QuadIsRounds(52, q, input);
    a := Md5Step(F4(b, c, d), a, b, Plus(input[8], 0x6fa87e4f), 6);
    d := Md5Step(F4(a, b, c), d, a, Plus(input[15], 0xfe2ce6e0), 10);
    c := Md5Step(F4(d, a, b), c, d, Plus(input[6], 0xa3014314), 15);
    b := Md5Step(F4(c, d, a), b, c, Plus(input[13], 0x4e0811a1), 21);
    QuadIsRounds(56, q, input);
    a := Md5Step(F4(b, c, d), a, b, Plus(input[4], 0xf7537e82), 6);
    d := Md5Step(F4(a, b, c), d, a, Plus(input[11], 0xbd3af235), 10);
    c := Md5Step(F4(d, a, b), c, d, Plus(input[2], 0x2ad7d2bb), 15);
    b := Md5Step(F4(c, d, a), b, c, Plus(input[9], 0xeb86d391), 21);
    QuadIsRounds(60, q, input);
  }

  /** MD5Transform: folds one block of sixteen words into the chaining value. */
  method MD5Transform(buf: array<Word>, input: seq<Word>)
    requires buf.Length == 4 && |input| == 16
    modifies buf
    ensures Regs(buf[0], buf[1], buf[2], buf[3])
      == Compress(Regs(old(buf[0]), old(buf[1]), old(buf[2]), old(buf[3])), input)
  {
    hide Rounds, Plus;
    ghost var q := Regs(buf[0], buf[1], buf[2], buf[3]);
    RoundsNone(q, input);
    var a, b, c, d := RoundOne(buf[0], buf[1], buf[2], buf[3], input, q);
    a, b, c, d := RoundTwo(a, b, c, d, input, q);
    a, b, c, d := RoundThree(a, b, c, d, input, q);
    a, b, c, d := RoundFour(a, b, c, d, input, q);
    buf[0] := Plus(buf[0], a);
    buf[1] := Plus(buf[1], b);
    buf[2] := Plus(buf[2], c);
    buf[3] := Plus(buf[3], d);
  }

  lemma RoundsNone(q: Regs, x: seq<Word>)
    requires |x| == 16
    ensures Rounds(0, q, x) == q
  {
  }
}
