/** What lib/md5.c and lib/util_misc.c build on the streaming hash: whole-buffer and file
    digests, and HMAC as defined in section 2 of RFC 2104. */
module Md5Users {
  import opened Common
  import opened Md5Core
  import opened Md5

  function Flatten(parts: seq<seq<Byte>>): seq<Byte> {
    if parts == [] then [] else Flatten(parts[..|parts| - 1]) + parts[|parts| - 1]
  }

  /** However a message is cut into MD5Update calls, the digest is that of the message. */
  method DigestOfParts(parts: seq<seq<Byte>>) returns (md5: seq<Byte>)
    requires forall i :: 0 <= i < |parts| ==> |parts[i]| < TWO32
    ensures md5 == Digest(Flatten(parts))
  {
    hide Digest;
    var ctx := new MD5Context();
    for i := 0 to |parts|
      invariant ctx.Valid() && fresh(ctx) && fresh(ctx.buf) && fresh(ctx.inb)
      invariant ctx.fed == Flatten(parts[..i])
    {
      ctx.MD5Update(parts[i]);
      assert parts[..i + 1][..i] == parts[..i];
    }
    assert parts[..|parts|] == parts;
    md5 := ctx.MD5Final();
  }

  method GetMd5(data: seq<Byte>) returns (md5: seq<Byte>)
    requires |data| < TWO32
    ensures md5 == Digest(data)
  {
    hide Digest;
    var ctx := new MD5Context();
    ctx.MD5Update(data);
    assert [] + data == data;
    md5 := ctx.MD5Final();
  }

  const BUFSIZE: nat := 0x10_0000

  /** getfilemd5 on a file whose first `readable` bytes can be read; after them fread fails when
      that is not the whole file.  The failure is reported only when it meets a read that has
      delivered nothing; a read cut short by it is taken for the end of the file. */
  method GetFileMd5(openable: bool, file: seq<Byte>, readable: nat) returns (ret: int, md5: seq<Byte>)
    requires readable <= |file|
    ensures ret == 0 || ret == -1
    ensures ret == 0 <==> openable && (readable == |file| || readable % 0x10_0000 != 0)
    ensures ret == 0 ==> md5 == Digest(file[..readable])
  {
    hide Digest, MD5Context.Valid;
    if !openable {
      return -1, [];
    }
    var ctx := new MD5Context();
    var pos := 0;
    while true
      invariant pos <= readable && pos % BUFSIZE == 0
      invariant ctx.Valid() && fresh(ctx) && fresh(ctx.buf) && fresh(ctx.inb)
      invariant ctx.fed == file[..pos]
      decreases readable - pos
    {
      var len := if readable - pos < BUFSIZE then readable - pos else BUFSIZE;
      if len > 0 {
        ctx.MD5Update(file[pos..pos + len]);
        assert file[..pos] + file[pos..pos + len] == file[..pos + len];
        pos := pos + len;
        if len < BUFSIZE {
          break;
        }
      } else if readable == |file| {
        break;
      } else {
        return -1, [];
      }
    }
    md5 := ctx.MD5Final();
    return 0, md5;
  }

  /** Of a file of two bytes the second cannot be read: the call succeeds with the digest of the
      first. */
  method CutShort() returns (ret: int, md5: seq<Byte>)
    ensures ret == 0 && md5 == Digest([1])
  {
    hide Digest;
    var file := [1, 2];
    ret, md5 := GetFileMd5(true, file, 1);
    assert file[..1] == [1];
  }

  // ---------------------------------------------------------------- RFC 2104

  function Bits(x: Byte): bv8 { x as bv8 }
  function OfBits(x: bv8): Byte { x as Byte }
  function Xor(x: bv8, y: bv8): bv8 { x ^ y }
  function XorByte(x: Byte, y: Byte): Byte { OfBits(Xor(Bits(x), Bits(y))) }

  lemma BitsOf(x: bv8)
    ensures Bits(OfBits(x)) == x
  {
  }

  lemma XorLaws(x: bv8, y: bv8)
    ensures Xor(Xor(x, y), y) == x && Xor(x, y) == Xor(y, x) && Xor(0, x) == x && Xor(x, x) == 0
  {
  }

  /** Combining with the same byte twice gives the byte back; OfBits(x) is any byte. */
  lemma XorByteLaws(x: bv8, y: bv8)
    ensures var a, b := OfBits(x), OfBits(y);
      && XorByte(XorByte(a, b), b) == a && XorByte(a, b) == XorByte(b, a)
      && XorByte(0, a) == a && XorByte(a, a) == 0
    ensures XorByte(0xa5, 0x36) == 0x93 && XorByte(0xa5, 0x5c) == 0xf9
  {
    XorByteValues();
    hide Bits, OfBits, Xor;
    BitsOf(x);
    BitsOf(y);
    BitsOf(Xor(x, y));
    BitsOf(0);
    XorLaws(x, y);
  }

  lemma XorByteValues()
    ensures XorByte(0xa5, 0x36) == 0x93 && XorByte(0xa5, 0x5c) == 0xf9
    ensures XorByte(0, 0x36) == 0x36 && XorByte(0, 0x5c) == 0x5c && OfBits(0) == 0
  {
  }

  function XorAll(k: seq<Byte>, c: Byte): (r: seq<Byte>)
    ensures |r| == |k|
  {
    seq(|k|, i requires 0 <= i < |k| => XorByte(k[i], c))
  }

  /** The key, hashed first when it is longer than a block, filled up with zeros to a block. */
  function BlockKey(key: seq<Byte>): (k: seq<Byte>)
    ensures |k| == 64
  {
    var k0 := if |key| > 64 then Digest(key) else key;
    k0 + Zeros(64 - |k0|)
  }

  function Hmac(key: seq<Byte>, text: seq<Byte>): seq<Byte> {
    Digest(XorAll(BlockKey(key), 0x5c) + Digest(XorAll(BlockKey(key), 0x36) + text))
  }

  /** A key of at most a block: each of its bytes combined with 0x36 and 0x5c, and those two bytes
      themselves in the places behind it. */
  lemma HmacOfShortKey(key: seq<Byte>, text: seq<Byte>, ipad: seq<Byte>, opad: seq<Byte>)
    requires |key| <= 64 && |ipad| == 64 && |opad| == 64
    requires forall i :: 0 <= i < |key| ==> ipad[i] == XorByte(key[i], 0x36) && opad[i] == XorByte(key[i], 0x5c)
    requires forall i :: |key| <= i < 64 ==> ipad[i] == 0x36 && opad[i] == 0x5c
    ensures Hmac(key, text) == Digest(opad + Digest(ipad + text))
  {
    XorByteValues();
    hide Digest, XorByte;
    assert ipad == XorAll(BlockKey(key), 0x36);
    assert opad == XorAll(BlockKey(key), 0x5c);
  }

  /** A key longer than a block counts as its digest. */
  lemma HmacOfLongKey(key: seq<Byte>, text: seq<Byte>)
    requires |key| > 64
    ensures Hmac(key, text) == Hmac(Digest(key), text)
  {
    hide Digest, XorAll;
  }

  // ---------------------------------------------------------------- lib/md5.c

  /** The two pads of a password. */
  method Pads(password: seq<Byte>) returns (ipad: array<Byte>, opad: array<Byte>)
    requires |password| < TWO32
    ensures ipad[..] == XorAll(BlockKey(password), 0x36)
    ensures opad[..] == XorAll(BlockKey(password), 0x5c)
  {
    hide Digest, XorByte;
    var key := password;
    if |key| > 64 {
      key := GetMd5(password);
    }
    ghost var k := BlockKey(password);
    ipad := new Byte[64](i => if 0 <= i < |key| then key[i] else 0);
    opad := new Byte[64](i => if 0 <= i < |key| then key[i] else 0);
    for i := 0 to 64
      invariant forall j :: 0 <= j < i ==> ipad[j] == XorByte(k[j], 0x36) && opad[j] == XorByte(k[j], 0x5c)
      invariant forall j :: i <= j < 64 ==> ipad[j] == k[j] && opad[j] == k[j]
    {
      ipad[i] := XorByte(ipad[i], 0x36);
      opad[i] := XorByte(opad[i], 0x5c);
    }
  }

  /** The outer hash. */
  method Outer(opad: seq<Byte>, inner: seq<Byte>) returns (response: seq<Byte>)
    requires |opad| == 64 && |inner| == 16
    ensures response == Digest(opad + inner)
  {
    hide Digest, Flatten;
    response := DigestOfParts([opad, inner]);
    FlattenTwo(opad, inner);
  }

  lemma FlattenOne(a: seq<Byte>)
    ensures Flatten([a]) == a
  {
    assert [a][..0] == [] && [] + a == a;
  }

  lemma FlattenTwo(a: seq<Byte>, b: seq<Byte>)
    ensures Flatten([a, b]) == a + b
  {
    assert [a, b][..1] == [a];
    FlattenOne(a);
  }

  lemma FlattenThree(a: seq<Byte>, b: seq<Byte>, c: seq<Byte>)
    ensures Flatten([a, b, c]) == a + (b + c)
  {
    assert [a, b, c][..2] == [a, b];
    FlattenTwo(a, b);
  }

  method MD5HMAC(password: seq<Byte>, challenge: seq<Byte>) returns (response: seq<Byte>)
    requires |password| < TWO32 && |challenge| < TWO32
    ensures response == Hmac(password, challenge)
  {
    hide Digest, BlockKey, XorAll, Flatten;
    var ipad, opad := Pads(password);
    response := DigestOfParts([ipad[..], challenge]);
    FlattenTwo(ipad[..], challenge);
    response := Outer(opad[..], response);
  }

  /** HMAC of the concatenation of two challenges. */
  method MD5HMAC2(password: seq<Byte>, challenge: seq<Byte>, challenge2: seq<Byte>) returns (response: seq<Byte>)
    requires |password| < TWO32 && |challenge| < TWO32 && |challenge2| < TWO32
    ensures response == Hmac(password, challenge + challenge2)
  {
    hide Digest, BlockKey, XorAll, Flatten;
    var ipad, opad := Pads(password);
    response := DigestOfParts([ipad[..], challenge, challenge2]);
    FlattenThree(ipad[..], challenge, challenge2);
    response := Outer(opad[..], response);
  }
}
