/** base64_encode of lib/common.c, against section 4 of RFC 4648. */
module Base64 {
  import opened Common

  // ---------------------------------------------------------------- RFC 4648

  type Sextet = x: int | 0 <= x < 64

  /** Table 1. */
  function Symbol(v: Sextet): char {
    if v < 26 then 'A' + v as char
    else if v < 52 then 'a' + (v - 26) as char
    else if v < 62 then '0' + (v - 52) as char
    else if v == 62 then '+' else '/'
  }

  function Value(c: char): Sextet {
    if 'A' <= c <= 'Z' then c as int - 'A' as int
    else if 'a' <= c <= 'z' then c as int - 'a' as int + 26
    else if '0' <= c <= '9' then c as int - '0' as int + 52
    else if c == '+' then 62 else 63
  }

  lemma ValueOfSymbol(v: Sextet)
    ensures Value(Symbol(v)) == v && Symbol(v) != '='
  {
  }

  /** The letters, the digits and two more characters, each for its own value. */
  lemma SymbolOfValue(c: char)
    requires 'A' <= c <= 'Z' || 'a' <= c <= 'z' || '0' <= c <= '9' || c == '+' || c == '/'
    ensures Symbol(Value(c)) == c
  {
  }

  /** The four symbols of a group of three bytes, the most significant bits first. */
  function Group(b0: Byte, b1: Byte, b2: Byte): (r: seq<char>)
    ensures |r| == 4
  {
    var n := b0 * 0x1_0000 + b1 * 0x100 + b2;
    var n1 := n / 64;
    var n2 := n1 / 64;
    [Symbol(n2 / 64), Symbol(n2 % 64), Symbol(n1 % 64), Symbol(n % 64)]
  }

  /** Whole groups of 24 bits; a last group of 8 or 16 bits is filled up with zero bits to
      whole symbols and, when padding is asked for, with '=' to four characters. */
  function Encode(d: seq<Byte>, pad: bool): seq<char> {
    if |d| >= 3 then Group(d[0], d[1], d[2]) + Encode(d[3..], pad)
    else if |d| == 2 then Group(d[0], d[1], 0)[..3] + if pad then "=" else ""
    else if |d| == 1 then Group(d[0], 0, 0)[..2] + if pad then "==" else ""
    else ""
  }

  function Bits(s: seq<char>): int
    requires |s| == 4
  {
    Value(s[0]) * 0x4_0000 + Value(s[1]) * 0x1000 + Value(s[2]) * 64 + Value(s[3])
  }

  function Decode(s: seq<char>): seq<Byte> {
    if |s| < 2 then []
    else if |s| == 2 || s[2] == '=' then [Bits([s[0], s[1], 'A', 'A']) / 0x1_0000]
    else if |s| == 3 || s[3] == '=' then
      var n := Bits([s[0], s[1], s[2], 'A']);
      [n / 0x1_0000, n / 0x100 % 0x100]
    else
      var n := Bits(s[..4]);
      [n / 0x1_0000, n / 0x100 % 0x100, n % 0x100] + Decode(s[4..])
  }

  lemma GroupBits(b0: Byte, b1: Byte, b2: Byte)
    ensures Bits(Group(b0, b1, b2)) == b0 * 0x1_0000 + b1 * 0x100 + b2
    ensures forall k :: 0 <= k < 4 ==> Group(b0, b1, b2)[k] != '='
  {
    hide Symbol, Value;
    var n := b0 * 0x1_0000 + b1 * 0x100 + b2;
    var n1 := n / 64;
    var n2 := n1 / 64;
    ValueOfSymbol(n2 / 64);
    ValueOfSymbol(n2 % 64);
    ValueOfSymbol(n1 % 64);
    ValueOfSymbol(n % 64);
  }

  /** Bits that are not there become the symbol of zero. */
  lemma GroupZeros(b0: Byte, b1: Byte)
    ensures Group(b0, b1, 0)[3] == 'A'
    ensures Group(b0, 0, 0)[2] == 'A'
  {
    assert Symbol(0) == 'A';
    hide Symbol;
    LowZeros(b0 * 0x400 + b1 * 4);
    LowZeros(b0 * 0x400);
    LowZeros(b0 * 16);
  }

  lemma LowZeros(k: nat)
    ensures 64 * k % 64 == 0 && 64 * k / 64 == k
  {
  }

  lemma Unpack(b0: Byte, b1: Byte, b2: Byte)
    ensures var n := b0 * 0x1_0000 + b1 * 0x100 + b2;
      n / 0x1_0000 == b0 && n / 0x100 % 0x100 == b1 && n % 0x100 == b2
  {
    var n := b0 * 0x1_0000 + b1 * 0x100 + b2;
    assert n / 0x100 == b0 * 0x100 + b1;
  }

  lemma {:induction false} DecodeEncode(d: seq<Byte>, pad: bool)
    ensures Decode(Encode(d, pad)) == d
  {
    hide Group, Bits;
    var e := Encode(d, pad);
    if |d| >= 3 {
      var g := Group(d[0], d[1], d[2]);
      GroupBits(d[0], d[1], d[2]);
      Unpack(d[0], d[1], d[2]);
      DecodeEncode(d[3..], pad);
      assert e[..4] == g && e[4..] == Encode(d[3..], pad);
      assert e[2] == g[2] && e[3] == g[3];
    } else if |d| == 2 {
      var g := Group(d[0], d[1], 0);
      GroupBits(d[0], d[1], 0);
      GroupZeros(d[0], d[1]);
      Unpack(d[0], d[1], 0);
      assert [e[0], e[1], e[2], 'A'] == g;
    } else if |d| == 1 {
      var g := Group(d[0], 0, 0);
      GroupBits(d[0], 0, 0);
      GroupZeros(d[0], 0);
      Unpack(d[0], 0, 0);
      assert [e[0], e[1], 'A', 'A'] == g;
    }
  }

  /** What fills n symbols up to a multiple of four. */
  lemma EncodeOneMore(b0: Byte, b1: Byte, b2: Byte, b3: Byte, pad: bool)
    ensures Encode([b0, b1, b2, b3], pad) == Group(b0, b1, b2) + Group(b3, 0, 0)[..2] + if pad then "==" else ""
  {
    hide Group;
    assert [b0, b1, b2, b3][3..] == [b3];
  }

  lemma EncodeTwoMore(b0: Byte, b1: Byte, b2: Byte, b3: Byte, b4: Byte)
    ensures Encode([b0, b1, b2, b3, b4], true) == Group(b0, b1, b2) + Group(b3, b4, 0)[..3] + "="
  {
    hide Group;
    assert [b0, b1, b2, b3, b4][3..] == [b3, b4];
  }

  lemma EncodeTwice(b0: Byte, b1: Byte, b2: Byte, b3: Byte, b4: Byte, b5: Byte)
    ensures Encode([b0, b1, b2, b3, b4, b5], true) == Group(b0, b1, b2) + Group(b3, b4, b5)
  {
    hide Group;
    assert [b0, b1, b2, b3, b4, b5][3..] == [b3, b4, b5] && [b3, b4, b5][3..] == [];
    assert Group(b3, b4, b5) + Encode([], true) == Group(b3, b4, b5);
  }

  /** The four values of a group are its bits, six by six. */
  lemma GroupOf(b0: Byte, b1: Byte, b2: Byte, v0: Sextet, v1: Sextet, v2: Sextet, v3: Sextet)
    requires b0 * 0x1_0000 + b1 * 0x100 + b2 == v0 * 0x4_0000 + v1 * 0x1000 + v2 * 64 + v3
    ensures Group(b0, b1, b2) == [Symbol(v0), Symbol(v1), Symbol(v2), Symbol(v3)]
  {
    hide Symbol;
    var n := b0 * 0x1_0000 + b1 * 0x100 + b2;
    Places(v0 * 0x1000 + v1 * 64 + v2, v3);
    Places(v0 * 64 + v1, v2);
    Places(v0, v1);
    assert n == 64 * (v0 * 0x1000 + v1 * 64 + v2) + v3;
  }

  lemma Places(q: nat, r: Sextet)
    ensures (64 * q + r) / 64 == q && (64 * q + r) % 64 == r
  {
  }

  lemma VectorGroups()
    ensures Group(102, 111, 111) == "Zm9v" && Group(98, 0, 0)[..2] == "Yg" && Group(98, 97, 0)[..3] == "YmE"
    ensures Group(98, 97, 114) == "YmFy" && Group(0xfb, 0xef, 0xff) == "++//"
  {
    hide Group;
    GroupOf(102, 111, 111, 25, 38, 61, 47);
    GroupOf(98, 0, 0, 24, 32, 0, 0);
    GroupOf(98, 97, 0, 24, 38, 4, 0);
    GroupOf(98, 97, 114, 24, 38, 5, 50);
    GroupOf(0xfb, 0xef, 0xff, 62, 62, 63, 63);
  }

  /** The test vectors of section 10 of RFC 4648 with four to six bytes ("foob", "fooba", "foobar"), and
      bytes whose symbols are no letters or digits. */
  lemma Vectors()
    ensures Encode([102, 111, 111, 98], true) == "Zm9vYg==" && Encode([102, 111, 111, 98], false) == "Zm9vYg"
    ensures Encode([102, 111, 111, 98, 97], true) == "Zm9vYmE="
    ensures Encode([102, 111, 111, 98, 97, 114], true) == "Zm9vYmFy"
    ensures Encode([0xfb, 0xef, 0xff, 0xfb, 0xef, 0xff], true) == "++//++//"
  {
    VectorGroups();
    hide Encode, Group;
    EncodeOneMore(102, 111, 111, 98, true);
    EncodeOneMore(102, 111, 111, 98, false);
    EncodeTwoMore(102, 111, 111, 98, 97);
    EncodeTwice(102, 111, 111, 98, 97, 114);
    EncodeTwice(0xfb, 0xef, 0xff, 0xfb, 0xef, 0xff);
  }

  function Filler(n: nat): string {
    if n % 4 == 2 then "==" else if n % 4 == 3 then "=" else ""
  }

  lemma {:induction false} EncodedLength(d: seq<Byte>)
    ensures |Encode(d, false)| == (8 * |d| + 5) / 6
    ensures |Encode(d, true)| == (|d| + 2) / 3 * 4
  {
    hide Group;
    if |d| >= 3 {
      EncodedLength(d[3..]);
    }
  }

  lemma FillerPeriod(n: nat)
    ensures Filler(n + 4) == Filler(n)
  {
  }

  lemma {:induction false} PaddedIs(d: seq<Byte>)
    ensures Encode(d, true) == Encode(d, false) + Filler(|Encode(d, false)|)
  {
    hide Group;
    if |d| >= 3 {
      PaddedIs(d[3..]);
      FillerPeriod(|Encode(d[3..], false)|);
      hide Filler;
      assert |Encode(d, false)| == |Encode(d[3..], false)| + 4;
    }
  }

  // ---------------------------------------------------------------- lib/common.c

  const B64: string :=
    "ABCDEFGHIJKLM" + "NOPQRSTUVWXYZ" + "abcdefghijklm" + "nopqrstuvwxyz" + "0123456789+/"

  lemma TableHolds(v: Sextet)
    ensures v < |B64| && B64[v] == Symbol(v)
  {
    match v
    case 0 => case 1 => case 2 => case 3 => case 4 => case 5 => case 6 => case 7 => case 8 => case 9 =>
    case 10 => case 11 => case 12 => case 13 => case 14 => case 15 => case 16 => case 17 => case 18 => case 19 =>
    case 20 => case 21 => case 22 => case 23 => case 24 => case 25 => case 26 => case 27 => case 28 => case 29 =>
    case 30 => case 31 => case 32 => case 33 => case 34 => case 35 => case 36 => case 37 => case 38 => case 39 =>
    case 40 => case 41 => case 42 => case 43 => case 44 => case 45 => case 46 => case 47 => case 48 => case 49 =>
    case 50 => case 51 => case 52 => case 53 => case 54 => case 55 => case 56 => case 57 => case 58 => case 59 =>
    case 60 => case 61 => case 62 => case _ =>
  }

  function Pow2(k: nat): (p: nat)
    ensures p > 0
  {
    if k == 0 then 1 else 2 * Pow2(k - 1)
  }

  /** The C operators << and >> on numbers that are not negative. */
  function Shl(x: nat, k: nat): nat
    decreases k
  {
    if k == 0 then x else Shl(2 * x, k - 1)
  }

  function Shr(x: nat, k: nat): nat {
    if k == 0 then x else Shr(x / 2, k - 1)
  }

  /** The C operator | on numbers that are not negative. */
  function Or(x: nat, y: nat): nat {
    if x == 0 && y == 0 then 0 else 2 * Or(x / 2, y / 2) + if x % 2 == 1 || y % 2 == 1 then 1 else 0
  }

  lemma {:induction false} OrDisjoint(x: nat, y: nat, k: nat)
    requires y < Pow2(k)
    ensures Or(x * Pow2(k), y) == x * Pow2(k) + y
    decreases k, x
  {
    if k > 0 {
      assert x * Pow2(k) == 2 * (x * Pow2(k - 1));
      OrDisjoint(x, y / 2, k - 1);
    } else if x > 0 {
      OrDisjoint(x / 2, 0, 0);
    }
  }

  /** The index that the loop computes for character i: bit_offset tells which bits of which
      one or two bytes it takes. */
  function Idx(d: seq<Byte>, i: nat): nat
    requires i * 6 / 8 < |d|
  {
    var byteOffset, bitOffset := i * 6 / 8, i * 6 % 8;
    if bitOffset < 3 then Shr(d[byteOffset], 2 - bitOffset) % 64
    else
      var high := Shl(d[byteOffset], bitOffset - 2) % 64;
      if byteOffset + 1 < |d| then Or(high, Shr(d[byteOffset + 1], 8 - (bitOffset - 2))) else high
  }

  /** The four symbols of a group, byte by byte. */
  lemma GroupByBytes(b0: Byte, b1: Byte, b2: Byte)
    ensures Group(b0, b1, b2)
      == [Symbol(b0 / 4), Symbol(b0 % 4 * 16 + b1 / 16), Symbol(b1 % 16 * 4 + b2 / 64), Symbol(b2 % 64)]
  {
    hide Symbol;
    var n := b0 * 0x1_0000 + b1 * 0x100 + b2;
    assert n == 64 * (b0 * 0x400 + b1 * 4 + b2 / 64) + b2 % 64;
    assert n / 64 == 64 * (b0 * 16 + b1 / 16) + (b1 % 16 * 4 + b2 / 64);
    assert n / 64 / 64 == 64 * (b0 / 4) + (b0 % 4 * 16 + b1 / 16);
  }

  /** The index computed by the source, character by character of a group; byte positions past
      the end count as zero. */
  lemma FirstIdx(d: seq<Byte>, i: nat)
    requires i < 4 && i * 6 / 8 < |d|
    ensures var b1, b2 := if |d| > 1 then d[1] else 0, if |d| > 2 then d[2] else 0;
      Idx(d, i) == [d[0] / 4, d[0] % 4 * 16 + b1 / 16, b1 % 16 * 4 + b2 / 64, b2 % 64][i]
  {
    hide Or, Shl, Shr;
    assert Pow2(2) == 4 && Pow2(4) == 16;
    match i
    case 0 => Shifts(d[0]);
    case 1 =>
      Shifts(d[0]);
      if |d| > 1 { Shifts(d[1]); OrDisjoint(d[0] % 4, d[1] / 16, 4); }
    case 2 =>
      Shifts(d[1]);
      if |d| > 2 { Shifts(d[2]); OrDisjoint(d[1] % 16, d[2] / 64, 2); }
    case _ => Shifts(d[2]);
  }

  lemma TwoPlaces(x: nat, k: nat)
    requires k >= 2
    ensures Shr(x, k) == Shr(x / 4, k - 2) && Shl(x, k) == Shl(4 * x, k - 2)
  {
    assert x / 2 / 2 == x / 4;
  }

  lemma NoPlaces(x: nat)
    ensures Shr(x, 0) == x && Shl(x, 0) == x
  {
  }

  lemma Shifts(b: Byte)
    ensures Shr(b, 0) == b && Shr(b, 2) == b / 4 && Shr(b, 4) == b / 16 && Shr(b, 6) == b / 64
    ensures Shl(b, 2) % 64 == b % 16 * 4 && Shl(b, 4) % 64 == b % 4 * 16
  {
    hide Shl, Shr;
    var b1 := b / 4;
    var b2 := b1 / 4;
    NoPlaces(b); NoPlaces(b1); NoPlaces(b2); NoPlaces(b2 / 4); NoPlaces(4 * b); NoPlaces(4 * (4 * b));
    TwoPlaces(b, 2); TwoPlaces(b, 4); TwoPlaces(b, 6);
    TwoPlaces(b1, 2); TwoPlaces(b1, 4); TwoPlaces(b2, 2);
    TwoPlaces(4 * b, 2);
    Quarters(b);
    Mod64(b / 16, b % 16 * 4);
    Mod64(b / 4, b % 4 * 16);
  }

  lemma Quarters(b: Byte)
    ensures b / 4 / 4 == b / 16 && b / 4 / 4 / 4 == b / 64
    ensures 64 * (b / 16) + b % 16 * 4 == 4 * b && 64 * (b / 4) + b % 4 * 16 == 16 * b
  {
  }

  lemma Mod64(k: nat, r: nat)
    requires r < 64
    ensures (64 * k + r) % 64 == r
  {
  }

  lemma IdxShift(d: seq<Byte>, i: nat)
    requires 4 <= i && i * 6 / 8 < |d|
    ensures (i - 4) * 6 / 8 < |d[3..]| && Idx(d, i) == Idx(d[3..], i - 4)
  {
    assert i * 6 / 8 == (i - 4) * 6 / 8 + 3 && i * 6 % 8 == (i - 4) * 6 % 8;
  }

  lemma {:induction false} IdxIsSymbol(d: seq<Byte>, i: nat)
    requires i < |Encode(d, false)|
    ensures i * 6 / 8 < |d| && Idx(d, i) < 64 && Symbol(Idx(d, i)) == Encode(d, false)[i]
    decreases |d|
  {
    hide Symbol, Group, Idx;
    EncodedLength(d);
    if i >= 4 {
      EncodedLength(d[3..]);
      IdxIsSymbol(d[3..], i - 4);
      IdxShift(d, i);
    } else {
      var b1, b2 := if |d| > 1 then d[1] else 0, if |d| > 2 then d[2] else 0;
      GroupByBytes(d[0], b1, b2);
      FirstIdx(d, i);
    }
  }

  /** The first loop: the symbols without padding. */
  method EncodeSymbols(buf: seq<Byte>, out: array<char>) returns (i: nat)
    requires |Encode(buf, false)| < out.Length
    modifies out
    ensures i == |Encode(buf, false)| && out[..i] == Encode(buf, false)
    ensures forall k :: i <= k < out.Length ==> out[k] == old(out[k])
  {
    hide Symbol, Encode, Idx, B64, Filler;
    var bytes := (|buf| * 8 + 5) / 6;
    ghost var e := Encode(buf, false);
    EncodedLength(buf);
    i := 0;
    while i < bytes
      invariant 0 <= i <= bytes && out[..i] == e[..i]
      invariant forall k :: i <= k < out.Length ==> out[k] == old(out[k])
    {
      IdxIsSymbol(buf, i);
      var idx := Idx(buf, i);
      TableHolds(idx);
      out[i] := B64[idx];
      i := i + 1;
    }
  }

  /** Fills out with the encoding and a NUL. */
  method Base64Encode(buf: seq<Byte>, out: array<char>, pad: bool)
    requires |Encode(buf, pad)| < out.Length
    modifies out
    ensures out[..|Encode(buf, pad)|] == Encode(buf, pad) && out[|Encode(buf, pad)|] == '\0'
    ensures forall k :: |Encode(buf, pad)| < k < out.Length ==> out[k] == old(out[k])
  {
    hide Encode;
    ghost var e := Encode(buf, pad);
    PaddedIs(buf);
    EncodedLength(buf);
    var i := EncodeSymbols(buf, out);
    ghost var m := i;
    while pad && i % 4 != 0
      invariant m <= i <= |e| && out[..i] == e[..i]
      invariant !pad ==> i == |e|
      invariant forall k :: i <= k < out.Length ==> out[k] == old(out[k])
      decreases |e| - i
    {
      out[i] := '=';
      i := i + 1;
    }
    out[i] := '\0';
  }
}
