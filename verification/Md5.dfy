/** The streaming MD5 of lib/md5.c and its users in lib/util_misc.c, against sections 3.1 to
    3.5 of RFC 1321 and section 2 of RFC 2104.  Words are stored as on a little-endian host,
    where the source's byteReverse does nothing. */
module Md5 {
  import opened Common
  import opened Md5Core

  // ---------------------------------------------------------------- RFC 1321

  const IV: Regs := Regs(0x67452301, 0xefcdab89, 0x98badcfe, 0x10325476)

  function Word4(b0: int, b1: int, b2: int, b3: int): Word
    requires 0 <= b0 < 0x100 && 0 <= b1 < 0x100 && 0 <= b2 < 0x100 && 0 <= b3 < 0x100
  {
    b0 + 0x100 * b1 + 0x1_0000 * b2 + 0x100_0000 * b3
  }

  /** The sixteen words of a 64-byte block, low-order byte first. */
  function Words(b: seq<Byte>): (w: seq<Word>)
    requires |b| == 64
    ensures |w| == 16
  {
    seq(16, i requires 0 <= i < 16 => Word4(b[4 * i], b[4 * i + 1], b[4 * i + 2], b[4 * i + 3]))
  }

  function Bytes(w: Word): (b: seq<Byte>)
    ensures |b| == 4
  {
    [w % 0x100, w / 0x100 % 0x100, w / 0x1_0000 % 0x100, w / 0x100_0000]
  }

  lemma WordFrom(b: seq<Byte>, i: nat)
    requires |b| == 64 && i < 16
    ensures Words(b)[i] == Word4(b[4 * i], b[4 * i + 1], b[4 * i + 2], b[4 * i + 3])
  {
  }

  lemma FourBytes(b0: int, b1: int, b2: int, b3: int)
    requires 0 <= b0 < 0x100 && 0 <= b1 < 0x100 && 0 <= b2 < 0x100 && 0 <= b3 < 0x100
    ensures var w := Word4(b0, b1, b2, b3);
      w % 0x100 == b0 && w / 0x100 % 0x100 == b1 && w / 0x1_0000 % 0x100 == b2 && w / 0x100_0000 == b3
  {
    var w := Word4(b0, b1, b2, b3) as int;
    var w2 := b2 + 0x100 * b3;
    var w1 := b1 + 0x100 * w2;
    assert w == b0 + 0x100 * w1;
    Lowest(b0, w1);
    Lowest(b1, w2);
    Lowest(b2, b3);
    assert w / 0x1_0000 == w / 0x100 / 0x100 && w / 0x100_0000 == w / 0x100 / 0x100 / 0x100;
  }

  lemma Lowest(b: int, k: int)
    requires 0 <= b < 0x100
    ensures (b + 0x100 * k) % 0x100 == b && (b + 0x100 * k) / 0x100 == k
  {
  }

  /** Byte 4 * i of a block is the lowest byte of word i, and byte 4 * i + 3 its highest. */
  lemma LowByteFirst(b: seq<Byte>, i: nat)
    requires |b| == 64 && i < 16
    ensures var w := Words(b)[i];
      && w % 0x100 == b[4 * i] && w / 0x100 % 0x100 == b[4 * i + 1]
      && w / 0x1_0000 % 0x100 == b[4 * i + 2] && w / 0x100_0000 == b[4 * i + 3]
  {
    hide Words, Word4;
    WordFrom(b, i);
    FourBytes(b[4 * i], b[4 * i + 1], b[4 * i + 2], b[4 * i + 3]);
  }

  /** Folds the blocks of m, in order, into the chaining value q. */
  function Process(q: Regs, m: seq<Byte>): Regs
    requires |m| % 64 == 0
  {
    if |m| < 64 then q
    else
      var n := |m| - 64;
      Compress(Process(q, m[..n]), Words(m[n..]))
  }

  function Zeros(n: nat): (z: seq<Byte>)
    ensures |z| == n
  {
    seq(n, _ => 0)
  }

  /** How many zero bytes bring n bytes and the 0x80 byte to 56 modulo 64. */
  function PadCount(n: nat): (k: nat)
    ensures k < 64 && (n + 1 + k) % 64 == 56 && (n + 9 + k) % 64 == 0
  {
    (55 - n) % 64
  }

  function LowWord(x: nat): Word { x % TWO32 }
  function HighWord(x: nat): Word { x / TWO32 % TWO32 }

  /** Sections 3.1 and 3.2, for a message of n bytes: a 1 bit, zeros up to 56 modulo 64 bytes,
      then the low 64 bits of the length in bits, low-order word first. */
  function Padding(n: nat): (p: seq<Byte>)
    ensures |p| == 9 + PadCount(n)
  {
    [0x80] + Zeros(PadCount(n)) + Bytes(LowWord(8 * n)) + Bytes(HighWord(8 * n))
  }

  function Padded(m: seq<Byte>): (p: seq<Byte>)
    ensures |p| % 64 == 0
  {
    m + Padding(|m|)
  }

  function Encode(q: Regs): (d: seq<Byte>)
    ensures |d| == 16
  {
    Bytes(q.a) + Bytes(q.b) + Bytes(q.c) + Bytes(q.d)
  }

  function Digest(m: seq<Byte>): (d: seq<Byte>)
    ensures |d| == 16
  {
    Encode(Process(IV, Padded(m)))
  }

  /** Byte 4 * k of the digest is the lowest byte of register k, and byte 4 * k + 3 its highest. */
  lemma DigestBytes(q: Regs, k: nat)
    requires k < 4
    ensures var d, w := Encode(q), [q.a, q.b, q.c, q.d][k];
      && d[4 * k] == w % 0x100 && d[4 * k + 1] == w / 0x100 % 0x100
      && d[4 * k + 2] == w / 0x1_0000 % 0x100 && d[4 * k + 3] == w / 0x100_0000
  {
    var w := [q.a, q.b, q.c, q.d][k];
    assert Encode(q)[4 * k..4 * k + 4] == Bytes(w) by {
      hide Bytes;
    }
  }

  /** The last eight bytes of the padded message are the length in bits modulo 2^64, lowest byte
      first; before them the 0x80 byte and the fewest zeros that fill up a block. */
  lemma PaddedShape(m: seq<Byte>)
    ensures var p, k, bits := Padded(m), |Padded(m)| - 8, 8 * |m| % 0x1_0000_0000_0000_0000;
      && |p| % 64 == 0 && |m| + 9 <= |p| < |m| + 9 + 64
      && p[..|m|] == m && p[|m|] == 0x80 && (forall i :: |m| < i < k ==> p[i] == 0)
      && p[k] == bits % 0x100 && p[k + 1] == bits / 0x100 % 0x100
      && p[k + 2] == bits / 0x1_0000 % 0x100 && p[k + 3] == bits / 0x100_0000 % 0x100
      && p[k + 4] == bits / 0x1_0000_0000 % 0x100 && p[k + 5] == bits / 0x100_0000_0000 % 0x100
      && p[k + 6] == bits / 0x1_0000_0000_0000 % 0x100 && p[k + 7] == bits / 0x100_0000_0000_0000
  {
    var n, p := |m|, Padded(m);
    var k, x := |p| - 8, 8 * n;
    PadLayout(m);
    assert p[k..k + 4] == Bytes(LowWord(x)) && p[k + 4..] == Bytes(HighWord(x));
    assert p[k] == p[k..k + 4][0] && p[k + 1] == p[k..k + 4][1] && p[k + 2] == p[k..k + 4][2];
    assert p[k + 3] == p[k..k + 4][3] && p[k + 4] == p[k + 4..][0] && p[k + 5] == p[k + 4..][1];
    assert p[k + 6] == p[k + 4..][2] && p[k + 7] == p[k + 4..][3];
    EightBytes(x);
    hide *;
  }

  lemma EightBytes(x: nat)
    ensures var lo, hi, bits := LowWord(x), HighWord(x), x % 0x1_0000_0000_0000_0000;
      && Bytes(lo) == [bits % 0x100, bits / 0x100 % 0x100, bits / 0x1_0000 % 0x100, bits / 0x100_0000 % 0x100]
      && Bytes(hi) == [bits / 0x1_0000_0000 % 0x100, bits / 0x100_0000_0000 % 0x100,
                       bits / 0x1_0000_0000_0000 % 0x100, bits / 0x100_0000_0000_0000]
  {
    var lo, hi := LowWord(x) as int, HighWord(x) as int;
    assert x % 0x1_0000_0000_0000_0000 == 0x1_0000_0000 * hi + lo;
    LowBytes(lo, hi);
    HighBytes(lo, hi);
    hide LowWord, HighWord;
  }

  lemma LowBytes(lo: int, hi: int)
    requires 0 <= lo < TWO32
    ensures var bits := 0x1_0000_0000 * hi + lo;
      && lo % 0x100 == bits % 0x100 && lo / 0x100 % 0x100 == bits / 0x100 % 0x100
      && lo / 0x1_0000 % 0x100 == bits / 0x1_0000 % 0x100 && lo / 0x100_0000 == bits / 0x100_0000 % 0x100
  {
    var bits := 0x1_0000_0000 * hi + lo;
    assert bits / 0x100 == 0x100 * (0x1_0000 * hi) + lo / 0x100;
    assert bits / 0x1_0000 == 0x100 * (0x100 * hi) + lo / 0x1_0000;
    assert bits / 0x100_0000 == 0x100 * hi + lo / 0x100_0000;
    AddedMultiple(0x100_0000 * hi, lo);
    AddedMultiple(0x1_0000 * hi, lo / 0x100);
    AddedMultiple(0x100 * hi, lo / 0x1_0000);
    AddedMultiple(hi, lo / 0x100_0000);
  }

  lemma AddedMultiple(k: int, y: int)
    ensures (0x100 * k + y) % 0x100 == y % 0x100
  {
  }

  lemma HighBytes(lo: int, hi: int)
    requires 0 <= lo < TWO32
    ensures var bits := 0x1_0000_0000 * hi + lo;
      && hi == bits / 0x1_0000_0000 && hi / 0x100 == bits / 0x100_0000_0000
      && hi / 0x1_0000 == bits / 0x1_0000_0000_0000 && hi / 0x100_0000 == bits / 0x100_0000_0000_0000
  {
  }

  lemma ProcessBlock(q: Regs, a: seq<Byte>, b: seq<Byte>)
    requires |a| % 64 == 0 && |b| == 64
    ensures Process(q, a + b) == Compress(Process(q, a), Words(b))
  {
    hide Compress, Words;
    assert (a + b)[..|a|] == a && (a + b)[|a|..] == b;
  }

  lemma Split32(x: nat, q: nat, r: nat)
    requires x == TWO32 * q + r && r < TWO32
    ensures x / TWO32 == q && x % TWO32 == r
  {
  }

  lemma LowSmall(x: Word)
    ensures LowWord(x) == x
  {
  }

  lemma LowShift(x: nat, k: nat)
    ensures LowWord(x + TWO32 * k) == LowWord(x)
  {
    Split32(x + TWO32 * k, x / TWO32 + k, x % TWO32);
  }

  /** The carry test of the source: a wrapped sum is smaller than its first summand. */
  lemma Carry(q: nat, t: Word, lh: nat, ll: Word)
    ensures var lo := LowWord(t + ll); var c := if lo < t then 1 else 0;
      (TWO32 * q + t) + (TWO32 * lh + ll) == TWO32 * (q + lh + c) + lo
  {
    if t + ll >= TWO32 {
      Split32(t + ll, 1, t + ll - TWO32);
    } else {
      Split32(t + ll, 0, t + ll);
    }
  }

  /** The two-word bit counter after len more bytes. */
  lemma CountBits(n: nat, len: nat, t: Word, hi: Word)
    requires t == LowWord(8 * n) && hi == HighWord(8 * n)
    ensures var lo := LowWord(t + LowWord(8 * len));
      && lo == LowWord(8 * (n + len))
      && LowWord(LowWord(hi + (if lo < t then 1 else 0)) + len / 0x2000_0000) == HighWord(8 * (n + len))
  {
    var q, lh, ll := 8 * n / TWO32, len / 0x2000_0000, LowWord(8 * len);
    assert 8 * n == TWO32 * q + t;
    assert 8 * len == TWO32 * lh + ll by { Split32(8 * len, lh, 8 * (len % 0x2000_0000)); }
    Carry(q, t, lh, ll);
    var lo := LowWord(t + ll);
    var c := if lo < t then 1 else 0;
    Split32(8 * (n + len), q + lh + c, lo);
    LowShift(LowWord(hi + c) + lh, (hi + c) / TWO32);
    assert TWO32 * ((hi + c) / TWO32) + LowWord(hi + c) == hi + c;
    LowShift(hi + c + lh, q / TWO32);
    assert TWO32 * (q / TWO32) + hi == q;
  }

  lemma BufferedBytes(n: nat, t: Word)
    requires t == LowWord(8 * n)
    ensures t / 8 % 64 == n % 64
  {
    var k := 8 * n / TWO32;
    assert 8 * n == TWO32 * k + t;
    var u := n - 0x2000_0000 * k;
    assert t == 8 * u;
    Remainder64(n, u / 64 + 0x80_0000 * k, u % 64);
  }

  lemma Remainder64(n: nat, q: int, r: nat)
    requires n == 64 * q + r && r < 64
    ensures n % 64 == r
  {
  }

  lemma PadLayout(m: seq<Byte>)
    ensures var n, k, p := |m|, PadCount(|m|), Padded(m);
      && |p| == n + k + 9 && p[..n] == m && p[n] == 0x80 && (forall i :: n + 1 <= i < n + 1 + k ==> p[i] == 0)
      && p[n + 1 + k..n + 5 + k] == Bytes(LowWord(8 * n))
      && p[n + 5 + k..] == Bytes(HighWord(8 * n))
  {
    hide PadCount, LowWord, HighWord, Bytes;
  }

  /** The padding either fits behind the buffered bytes or takes one block more. */
  lemma PadIs(n: nat)
    ensures PadCount(n) == if n - Whole(n) < 56 then 55 - (n - Whole(n)) else 119 - (n - Whole(n))
  {
    var w, k := Whole(n), if n - Whole(n) < 56 then 55 - (n - Whole(n)) else 119 - (n - Whole(n));
    assert (55 - n) == 64 * (-(w / 64) - if n - w < 56 then 0 else 1) + k;
  }

  /** How many of n bytes lie in whole blocks. */
  function Whole(n: nat): (w: nat)
    ensures w % 64 == 0 && w <= n < w + 64 && n % 64 == n - w
  {
    n - n % 64
  }

  lemma WholeIs(n: nat, w: nat)
    requires w % 64 == 0 && w <= n < w + 64
    ensures w == Whole(n)
  {
  }

  // ---------------------------------------------------------------- the context

  class MD5Context {
    const buf: array<Word>
    var bits0: Word
    var bits1: Word
    const inb: array<Byte>
    ghost var fed: seq<Byte>  // everything passed to MD5Update so far

    function Chain(): Regs
      reads buf
      requires buf.Length == 4
    {
      Regs(buf[0], buf[1], buf[2], buf[3])
    }

    ghost predicate Valid()
      reads this, buf, inb
    {
      && buf.Length == 4 && inb.Length == 64 && buf as object != inb
      && bits0 == LowWord(8 * |fed|) && bits1 == HighWord(8 * |fed|)
      && Absorbed(fed, Whole(|fed|))
      && inb[..|fed| - Whole(|fed|)] == fed[Whole(|fed|)..]
    }

    /** MD5Init */
    constructor ()
      ensures Valid() && fed == [] && fresh(buf) && fresh(inb)
    {
      buf := new Word[4];
      inb := new Byte[64];
      bits0, bits1 := 0, 0;
      fed := [];
      new;
      buf[0], buf[1], buf[2], buf[3] := 0x67452301, 0xefcdab89, 0x98badcfe, 0x10325476;
    }

    /** memcpy to position `at` of the block buffer. */
    method CopyIn(at: nat, src: seq<Byte>)
      requires inb.Length == 64 && at + |src| <= 64
      modifies inb
      ensures inb[..] == old(inb[..at]) + src + old(inb[at + |src|..])
    {
      forall i | 0 <= i < |src| {
        inb[at + i] := src[i];
      }
    }

    /** The chaining value stands for the first `done` bytes of m. */
    ghost predicate Absorbed(m: seq<Byte>, done: nat)
      reads buf
    {
      && buf.Length == 4 && done <= |m| && done % 64 == 0
      && Chain() == Process(IV, m[..done])
    }

    /** Folds the full block buffer into the chaining value. */
    method Transform(ghost m: seq<Byte>, ghost done: nat)
      requires inb.Length == 64 && Absorbed(m, done)
      requires done + 64 <= |m| && inb[..] == m[done..done + 64]
      modifies buf
      ensures Absorbed(m, done + 64)
    {
      hide Compress, Words, Process, IV;
      assert m[..done + 64] == m[..done] + m[done..done + 64];
      ProcessBlock(IV, m[..done], inb[..]);
      MD5Transform(buf, Words(inb[..]));
    }

    /** Advances the bit counter; returns the number of bytes that were buffered. */
    method Count(ghost n: nat, len: nat) returns (t: nat)
      requires len < TWO32 && bits0 == LowWord(8 * n) && bits1 == HighWord(8 * n)
      modifies this`bits0, this`bits1
      ensures bits0 == LowWord(8 * (n + len)) && bits1 == HighWord(8 * (n + len))
      ensures t == n % 64
    {
      hide LowWord, HighWord;
      CountBits(n, len, bits0, bits1);
      LowSmall(bits1);
      BufferedBytes(n, bits0);
      t := bits0;
      bits0 := LowWord(t + LowWord(8 * len));
      if bits0 < t {
        bits1 := LowWord(bits1 + 1);
      }
      bits1 := LowWord(bits1 + len / 0x2000_0000);
      t := t / 8 % 64;
    }

    /** Handles a leading part when t bytes are already buffered: either everything fits without
        filling the block buffer, or the buffer is filled up and folded. */
    method Lead(t: nat, data: seq<Byte>, ghost m: seq<Byte>, ghost done: nat) returns (pos: nat, fits: bool)
      requires 0 < t < 64 && inb.Length == 64 && buf as object != inb
      requires Absorbed(m, done) && |m| - done == t + |data|
      requires inb[..t] == m[done..done + t] && data == m[done + t..]
      modifies buf, inb
      ensures fits <==> |data| < 64 - t
      ensures fits ==> Absorbed(m, Whole(|m|)) && inb[..|m| - Whole(|m|)] == m[Whole(|m|)..]
      ensures !fits ==> pos == 64 - t && Absorbed(m, done + 64)
    {
      hide Process, IV, Whole;
      var room := 64 - t;
      if |data| < room {
        CopyIn(t, data);
        assert inb[..t + |data|] == m[done..];
        WholeIs(|m|, done);
        return 0, true;
      }
      CopyIn(t, data[..room]);
      assert inb[..] == m[done..done + 64];
      Transform(m, done);
      return room, false;
    }

    /** Folds the whole blocks of data from pos on and buffers the rest. */
    method Blocks(data: seq<Byte>, from: nat, ghost m: seq<Byte>, ghost n: nat)
      requires from <= |data| && inb.Length == 64 && buf as object != inb
      requires n <= |m| && data == m[n..] && Absorbed(m, n + from)
      modifies buf, inb
      ensures Absorbed(m, Whole(|m|)) && inb[..|m| - Whole(|m|)] == m[Whole(|m|)..]
    {
      hide Process, IV, Whole;
      var pos := from;
      while |data| - pos >= 64
        invariant 0 <= pos <= |data| && Absorbed(m, n + pos)
      {
        CopyIn(0, data[pos..pos + 64]);
        assert inb[..] == data[pos..pos + 64] == m[n + pos..n + pos + 64];
        Transform(m, n + pos);
        pos := pos + 64;
      }
      CopyIn(0, data[pos..]);
      assert inb[..|data| - pos] == m[n + pos..];
      WholeIs(|m|, n + pos);
    }

    method MD5Update(data: seq<Byte>)
      requires Valid() && |data| < TWO32
      modifies this`bits0, this`bits1, this`fed, buf, inb
      ensures Valid() && fed == old(fed) + data
    {
      hide Process, IV, Whole;
      ghost var n := |fed|;
      ghost var done := Whole(n);
      fed := fed + data;
      assert fed[..done] == old(fed)[..done] && fed[done..n] == old(fed)[done..];
      var t := Count(n, |data|);
      var pos, fits := 0, false;
      if t != 0 {
        pos, fits := Lead(t, data, fed, done);
      }
      if !fits {
        Blocks(data, pos, fed, n);
      }
    }

    /** Pads out the block buffer, folds it, and starts the next block with 56 zero bytes. */
    method FillAndFold(count: nat, ghost p: seq<Byte>, ghost done: nat)
      requires Absorbed(p, done) && inb.Length == 64 && buf as object != inb
      requires count < 64 && done + 120 <= |p| && inb[..count + 1] == p[done..done + count + 1]
      requires forall i :: done + count + 1 <= i < done + 120 ==> p[i] == 0
      modifies buf, inb
      ensures Absorbed(p, done + 64) && inb[..56] == p[done + 64..done + 120]
    {
      hide Process, IV;
      CopyIn(count + 1, Zeros(63 - count));
      assert inb[..] == p[done..done + 64];
      Transform(p, done);
      CopyIn(0, Zeros(56));
    }

    /** Appends the bit count to the last block and folds it. */
    method FoldLength(ghost p: seq<Byte>, ghost done: nat)
      requires Absorbed(p, done) && inb.Length == 64 && buf as object != inb
      requires |p| == done + 64 && inb[..56] == p[done..done + 56]
      requires p[done + 56..done + 60] == Bytes(bits0) && p[done + 60..] == Bytes(bits1)
      modifies buf, inb
      ensures Absorbed(p, |p|)
    {
      hide Process, IV, Bytes;
      CopyIn(56, Bytes(bits0));
      assert inb[..60] == inb[..56] + Bytes(bits0);
      assert p[done..done + 60] == p[done..done + 56] + p[done + 56..done + 60];
      CopyIn(60, Bytes(bits1));
      assert inb[..] == inb[..60] + Bytes(bits1);
      assert p[done..] == p[done..done + 60] + p[done + 60..];
      assert inb[..] == p[done..done + 64];
      Transform(p, done);
    }

    /** The final padding and length.  The context is spent afterwards. */
    method MD5Final() returns (digest: seq<Byte>)
      requires Valid()
      modifies buf, inb
      ensures digest == Digest(fed)
    {
      hide Process, IV, Whole, LowWord, HighWord, Bytes, PadCount, Encode, Padded;
      ghost var p, done := Padded(fed), Whole(|fed|);
      BufferedBytes(|fed|, bits0);
      PadIs(|fed|);
      PadLayout(fed);
      assert p[..done] == fed[..done];
      var count := bits0 / 8 % 64;
      CopyIn(count, [0x80]);
      assert inb[..count + 1] == p[done..done + count + 1];
      if 63 - count < 8 {
        FillAndFold(count, p, done);
        done := done + 64;
      } else {
        CopyIn(count + 1, Zeros(63 - count - 8));
      }
      FoldLength(p, done);
      assert p[..|p|] == p;
      digest := Encode(Chain());
    }
  }
}
