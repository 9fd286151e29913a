/** Addresses as text, lib/util_ip.c, on a little-endian host: an address is the 32-bit word
    whose low-order byte is the first octet. */
module IpText {
  import opened Common

  const INADDR_NONE: int := 0xffff_ffff

  // ---------------------------------------------------------------- numbers as text

  /** The value of a digit in any base up to 16, or 16. */
  function DigitOf(c: char): (d: nat)
    ensures d <= 16
  {
    if '0' <= c <= '9' then c as int - '0' as int
    else if 'a' <= c <= 'f' then c as int - 'a' as int + 10
    else if 'A' <= c <= 'F' then c as int - 'A' as int + 10
    else 16
  }

  predicate IsDigit(c: char) { '0' <= c <= '9' }

  function ValueOf(ds: string, base: nat): nat {
    if ds == [] then 0 else ValueOf(ds[..|ds| - 1], base) * base + DigitOf(ds[|ds| - 1])
  }

  /** Where the digits that begin at p end. */
  function DigitsEnd(s: string, p: nat, base: nat): (e: nat)
    requires p <= |s|
    ensures p <= e <= |s|
    decreases |s| - p
  {
    if p < |s| && DigitOf(s[p]) < base then DigitsEnd(s, p + 1, base) else p
  }

  /** strtoul with base 0 at a digit, converted to 32 bits: hexadecimal after 0x, octal after 0,
      decimal otherwise.  A value over 64 bits is the largest one. */
  function Strtoul(s: string, p: nat): (r: (Word, nat))
    requires p < |s| && IsDigit(s[p])
    ensures p < r.1 <= |s|
  {
    var hex := s[p] == '0' && p + 2 < |s| && (s[p + 1] == 'x' || s[p + 1] == 'X') && DigitOf(s[p + 2]) < 16;
    var base := if hex then 16 else if s[p] == '0' then 8 else 10;
    var start := if hex then p + 2 else p;
    var e := DigitsEnd(s, start, base);
    var v := ValueOf(s[start..e], base);
    ((if v < TWO32 * TWO32 then v else TWO32 * TWO32 - 1) % TWO32, e)
  }

  function Decimal(n: nat): (d: string)
    ensures d != []
  {
    if n < 10 then ['0' + n as char] else Decimal(n / 10) + ['0' + (n % 10) as char]
  }

  lemma {:induction false} DecimalDigits(n: nat)
    ensures ValueOf(Decimal(n), 10) == n
    ensures forall k :: 0 <= k < |Decimal(n)| ==> IsDigit(Decimal(n)[k])
    ensures n > 0 ==> Decimal(n)[0] != '0'
    ensures n == 0 ==> Decimal(n) == "0"
  {
    if n < 10 {
      assert Decimal(n)[..0] == [];
    } else {
      DecimalDigits(n / 10);
      var d := Decimal(n / 10);
      assert Decimal(n)[..|d|] == d;
    }
  }

  lemma {:induction false} DigitsEndIs(s: string, p: nat, e: nat, base: nat)
    requires p <= e <= |s| && forall k :: p <= k < e ==> DigitOf(s[k]) < base
    requires e < |s| ==> DigitOf(s[e]) >= base
    ensures DigitsEnd(s, p, base) == e
    decreases e - p
  {
    if p < e {
      DigitsEndIs(s, p + 1, e, base);
    }
  }

  /** Where c follows it, a number ends and is no hexadecimal prefix. */
  predicate Ends(c: char) { !('0' <= c <= '9') && c != 'x' && c != 'X' }

  /** A decimal number that ends there is read as itself modulo 2^32, and from 2^64 on as the number
      before that. */
  lemma StrtoulDecimal(s: string, p: nat, n: nat)
    requires p + |Decimal(n)| <= |s| && s[p..p + |Decimal(n)|] == Decimal(n)
    requires p + |Decimal(n)| < |s| ==> Ends(s[p + |Decimal(n)|])
    ensures IsDigit(s[p]) && Strtoul(s, p).1 == p + |Decimal(n)|
    ensures Strtoul(s, p).0 == if n >= 0x1_0000_0000_0000_0000 then 0xffff_ffff else n % 0x1_0000_0000
    ensures n < 0x1_0000_0000 ==> Strtoul(s, p).0 == n
  {
    hide ValueOf, Decimal, DigitsEnd;
    var d := Decimal(n);
    var e := p + |d|;
    DecimalDigits(n);
    assert forall k :: p <= k < e ==> s[k] == d[k - p];
    assert s[p] == d[0];
    if n == 0 {
      DigitsEndIs(s, p, e, 8);
      ValueOfZero();
    } else {
      DigitsEndIs(s, p, e, 10);
    }
  }

  lemma ValueOfZero()
    ensures ValueOf("0", 8) == 0
  {
    assert "0"[..0] == [];
  }

  // ---------------------------------------------------------------- dotted numbers

  /** The up to four numbers of a dotted address, or a failure where a digit is missing. */
  function Numbers(s: string, p: nat, k: nat): (bool, seq<Word>)
    requires 1 <= k <= 4
    decreases 4 - k
  {
    if p >= |s| || !IsDigit(s[p]) then (false, [])
    else
      var (v, e) := Strtoul(s, p);
      if k < 4 && e < |s| && s[e] == '.' then
        var (ok, rest) := Numbers(s, e + 1, k + 1);
        (ok, [v] + rest)
      else (true, [v])
  }

  /** The address with the given octets, first octet first. */
  function Octets(a: int, b: int, c: int, d: int): int { a + 0x100 * b + 0x1_0000 * c + 0x100_0000 * d }

  /** htonl */
  function Htonl(x: Word): Word {
    Octets(x / 0x100_0000, x / 0x1_0000 % 0x100, x / 0x100 % 0x100, x % 0x100)
  }

  /** What the numbers stand for.  The last one fills all remaining octets; the third of four
      is not checked and may run over into the fourth. */
  function Combine(ns: seq<Word>): Word
    requires 1 <= |ns| <= 4
  {
    if |ns| == 1 then
      if 1 <= ns[0] / 0x100_0000 < 224 then Htonl(ns[0]) else INADDR_NONE
    else if ns[0] == 0 || ns[0] >= 224 then INADDR_NONE
    else if |ns| == 2 then
      if ns[1] < 0x100_0000 then ns[0] + Htonl(ns[1]) else INADDR_NONE
    else if ns[1] >= 0x100 then INADDR_NONE
    else if |ns| == 3 then
      if ns[2] < 0x1_0000 then ns[0] + 0x100 * ns[1] + Htonl(ns[2]) else INADDR_NONE
    else if ns[3] >= 0x100 then INADDR_NONE
    else Octets(ns[0], ns[1], ns[2], ns[3]) % TWO32
  }

  function Parse(s: string): Word {
    var (ok, ns) := Numbers(s, 0, 1);
    if ok then Combine(ns) else INADDR_NONE
  }

  function Dotted(ns: seq<Word>): string {
    if ns == [] then [] else if |ns| == 1 then Decimal(ns[0]) else Decimal(ns[0]) + "." + Dotted(ns[1..])
  }

  lemma NumbersHead(s: string, p: nat, n: Word, k: nat)
    requires 1 <= k <= 4 && p + |Decimal(n)| <= |s| && s[p..p + |Decimal(n)|] == Decimal(n)
    requires p + |Decimal(n)| < |s| ==> Ends(s[p + |Decimal(n)|])
    ensures var e := p + |Decimal(n)|;
      Numbers(s, p, k) == if k < 4 && e < |s| && s[e] == '.'
                          then (Numbers(s, e + 1, k + 1).0, [n] + Numbers(s, e + 1, k + 1).1)
                          else (true, [n])
  {
    StrtoulDecimal(s, p, n);
    hide Strtoul, Decimal;
  }

  /** Dotted numbers are read up to what follows them, which is looked at only if it begins with a
      dot and there may be more numbers. */
  lemma {:induction false} NumbersOfDotted(pre: string, ns: seq<Word>, rest: string, k: nat)
    requires 1 <= |ns| && 1 <= k && |ns| + k <= 5
    requires rest != "" ==> Ends(rest[0])
    ensures var s, r := pre + Dotted(ns) + rest, Numbers(pre + Dotted(ns) + rest, |pre|, k);
      if rest != "" && rest[0] == '.' && |ns| + k <= 4 then r.0 == Numbers(s, |s| - |rest| + 1, k + |ns|).0
      else r == (true, ns)
    decreases |ns|
  {
    hide Strtoul, Decimal, Numbers;
    var s, p, d := pre + Dotted(ns) + rest, |pre|, Decimal(ns[0]);
    if |ns| == 1 {
      LastGroup(pre, d, rest);
      NumbersHead(s, p, ns[0], k);
      assert [ns[0]] == ns;
    } else {
      Regroup(pre, d, Dotted(ns[1..]), rest);
      NumbersHead(s, p, ns[0], k);
      NumbersOfDotted(pre + d + ".", ns[1..], rest, k + 1);
      assert [ns[0]] + ns[1..] == ns;
    }
  }

  lemma Regroup(pre: string, d: string, x: string, rest: string)
    ensures var s := pre + (d + "." + x) + rest;
      && s == (pre + d + ".") + x + rest
      && s[|pre|..|pre| + |d|] == d && s[|pre| + |d|] == '.' && |pre + d + "."| == |pre| + |d| + 1
  {
  }

  lemma LastGroup(pre: string, d: string, rest: string)
    ensures var s := pre + d + rest;
      s[|pre|..|pre| + |d|] == d && (rest != "" ==> s[|pre| + |d|] == rest[0])
  {
  }

  /** Dotted numbers stand for what Combine says, whatever follows them that no number or dot could
      begin with; behind four of them also a dot. */
  lemma ParseDotted(ns: seq<Word>, rest: string)
    requires 1 <= |ns| <= 4
    requires rest != "" ==> Ends(rest[0]) && (|ns| < 4 ==> rest[0] != '.')
    ensures Parse(Dotted(ns) + rest) == Combine(ns) && Dotted(ns) + "" == Dotted(ns)
  {
    hide Numbers, Dotted, Combine;
    NumbersOfDotted("", ns, rest, 1);
    assert "" + Dotted(ns) + rest == Dotted(ns) + rest;
  }

  /** A text that does not begin with a digit is refused. */
  lemma NoDigitRefused(s: string)
    requires s == "" || !('0' <= s[0] <= '9')
    ensures Parse(s) == INADDR_NONE
  {
  }

  /** So is one where up to three numbers are followed by a dot and no digit. */
  lemma DotRefused(ns: seq<Word>, rest: string)
    requires 1 <= |ns| <= 3 && (rest == "" || !('0' <= rest[0] <= '9'))
    ensures Parse(Dotted(ns) + "." + rest) == INADDR_NONE
  {
    hide Strtoul, Decimal, Dotted;
    var s := Dotted(ns) + ("." + rest);
    NumbersOfDotted("", ns, "." + rest, 1);
    assert "" + Dotted(ns) + ("." + rest) == s == Dotted(ns) + "." + rest;
    assert rest != "" ==> s[|s| - |rest|] == rest[0];
  }

  // ---------------------------------------------------------------- what holds of addresses

  /** The four octets of an address. */
  function OctetsOf(ip: Word): (o: seq<Word>)
    ensures |o| == 4
  {
    var ip1 := ip / 0x100;
    var ip2 := ip1 / 0x100;
    [ip % 0x100, ip1 % 0x100, ip2 % 0x100, ip2 / 0x100]
  }

  lemma OctetsBack(ip: Word)
    ensures var o := OctetsOf(ip);
      o[0] == ip % 0x100 && Octets(o[0], o[1], o[2], o[3]) == ip && forall k :: 0 <= k < 4 ==> o[k] < 0x100
  {
  }

  /** The text of an address is read back as the address when its first octet is that of a
      unicast address, and otherwise as INADDR_NONE. */
  lemma RoundTrip(ip: Word)
    ensures Parse(Dotted(OctetsOf(ip))) == (if 1 <= ip % 0x100 < 224 then ip else INADDR_NONE)
  {
    hide Parse, Dotted, Htonl, OctetsOf;
    var o := OctetsOf(ip);
    ParseDotted(o, "");
    OctetsBack(ip);
  }

  lemma HighOctet(r: nat, b: nat)
    requires r < 0x100
    ensures (r + 0x100 * b) / 0x100 == b && (r + 0x100 * b) % 0x100 == r
  {
  }

  lemma HtonlOctets(a: nat, b: nat, c: nat, d: nat)
    requires a < 0x100 && b < 0x100 && c < 0x100 && d < 0x100
    ensures Octets(d, c, b, a) < TWO32 && Htonl(Octets(d, c, b, a)) == Octets(a, b, c, d)
    ensures Octets(d, c, b, a) / 0x100_0000 == a
  {
    var x := Octets(d, c, b, a);
    HighOctet(d, c + 0x100 * b + 0x1_0000 * a);
    HighOctet(c, b + 0x100 * a);
    HighOctet(b, a);
    assert x / 0x1_0000 == x / 0x100 / 0x100 && x / 0x100_0000 == x / 0x100 / 0x100 / 0x100;
  }

  /** The spellings of one address with fewer and fewer dots. */
  lemma SpellingsAgree(a: nat, b: nat, c: nat, d: nat)
    requires 1 <= a < 224 && b < 0x100 && c < 0x100 && d < 0x100
    ensures Octets(d, c, b, a) < TWO32
    ensures Parse(Dotted([a, b, c, d])) == Octets(a, b, c, d)
    ensures Parse(Dotted([a, b, Octets(d, c, 0, 0)])) == Octets(a, b, c, d)
    ensures Parse(Dotted([a, Octets(d, c, b, 0)])) == Octets(a, b, c, d)
    ensures Parse(Dotted([Octets(d, c, b, a)])) == Octets(a, b, c, d)
  {
    hide Parse, Dotted, Htonl;
    HtonlOctets(a, b, c, d);
    HtonlOctets(0, b, c, d);
    HtonlOctets(0, 0, c, d);
    ParseDotted([a, b, c, d], "");
    ParseDotted([a, b, Octets(d, c, 0, 0)], "");
    ParseDotted([a, Octets(d, c, b, 0)], "");
    ParseDotted([Octets(d, c, b, a)], "");
  }

  /** Exactly when numbers are refused: the first octet must be that of a unicast address and the
      others must fit in theirs, but of four numbers the third is not checked. */
  lemma NumbersRefused(ns: seq<Word>)
    requires 1 <= |ns| <= 4
    ensures Parse(Dotted(ns)) == INADDR_NONE <==>
              if |ns| == 1 then ns[0] < 0x100_0000 || ns[0] >= 0xe000_0000
              else
                || ns[0] == 0 || ns[0] >= 224
                || (|ns| == 2 && ns[1] >= 0x100_0000)
                || (|ns| == 3 && (ns[1] >= 0x100 || ns[2] >= 0x1_0000))
                || (|ns| == 4 && (ns[1] >= 0x100 || ns[3] >= 0x100))
  {
    ParseDotted(ns, "");
    CombineRefuses(ns);
    hide *;
  }

  lemma CombineRefuses(ns: seq<Word>)
    requires 1 <= |ns| <= 4
    ensures Combine(ns) == INADDR_NONE <==>
              if |ns| == 1 then ns[0] < 0x100_0000 || ns[0] >= 0xe000_0000
              else
                || ns[0] == 0 || ns[0] >= 224
                || (|ns| == 2 && ns[1] >= 0x100_0000)
                || (|ns| == 3 && (ns[1] >= 0x100 || ns[2] >= 0x1_0000))
                || (|ns| == 4 && (ns[1] >= 0x100 || ns[3] >= 0x100))
  {
    if 0 < ns[0] < 224 {
      match |ns|
      case 1 =>
      case 2 => HtonlShort(ns[1]);
      case 3 => HtonlShort(ns[2]);
      case _ => assert Octets(ns[0], ns[1], ns[2], ns[3]) % 0x100 == ns[0];
    }
    if |ns| == 1 { HtonlLow(ns[0]); }
    hide Htonl;
  }

  lemma HtonlLow(x: Word)
    ensures Htonl(x) % 0x100 == x / 0x100_0000
  {
    var a, b := x / 0x100_0000, x / 0x1_0000 % 0x100 + 0x100 * (x / 0x100 % 0x100) + 0x1_0000 * (x % 0x100);
    assert Htonl(x) == a + 0x100 * b;
    HighOctet(a, b);
    hide Htonl;
  }

  lemma ValueSnoc(ds: string, d: char, base: nat)
    ensures ValueOf(ds + [d], base) == ValueOf(ds, base) * base + DigitOf(d) && ValueOf("", base) == 0
  {
    assert (ds + [d])[..|ds|] == ds;
  }

  lemma Values127()
    ensures ValueOf("127", 10) == 127 && ValueOf("0177", 8) == 127
    ensures ValueOf("7f", 16) == 127 && ValueOf("7F", 16) == 127
  {
    hide ValueOf;
    assert "" + "1" == "1" && "1" + "2" == "12" && "12" + "7" == "127";
    assert "" + "0" == "0" && "0" + "1" == "01" && "01" + "7" == "017" && "017" + "7" == "0177";
    assert "" + "7" == "7" && "7" + "f" == "7f" && "7" + "F" == "7F";
    ValueSnoc("", '1', 10);
    ValueSnoc("1", '2', 10);
    ValueSnoc("12", '7', 10);
    ValueSnoc("", '0', 8);
    ValueSnoc("0", '1', 8);
    ValueSnoc("01", '7', 8);
    ValueSnoc("017", '7', 8);
    ValueSnoc("", '7', 16);
    ValueSnoc("7", 'f', 16);
    ValueSnoc("7", 'F', 16);
  }

  /** A text that begins with a number 127, in digits from `start` to `e`, and then says ".1". */
  lemma LoopBack(s: string, base: nat, start: nat, e: nat)
    requires start < e && |s| == e + 2 && s[e] == '.' && s[e + 1] == '1' && IsDigit(s[0])
    requires if base == 16 then start == 2 && s[0] == '0' && (s[1] == 'x' || s[1] == 'X')
             else start == 0 && s[1] != 'x' && s[1] != 'X' && base == if s[0] == '0' then 8 else 10
    requires forall k :: start <= k < e ==> DigitOf(s[k]) < base
    requires ValueOf(s[start..e], base) == 127
    ensures Parse(s) == Octets(127, 0, 0, 1)
  {
    hide ValueOf, Decimal, Combine;
    DigitsEndIs(s, start, e, base);
    assert Strtoul(s, 0) == (127, e);
    SmallDecimals();
    assert s[e + 1..e + 2] == "1";
    StrtoulDecimal(s, e + 1, 1);
    hide Strtoul, Octets;
    NumbersHere(s, 0, 1);
    NumbersHere(s, e + 1, 2);
    assert [127] + [1] == [127, 1];
    CombineLoopBack();
  }

  lemma CombineLoopBack()
    ensures Combine([127, 1]) == Octets(127, 0, 0, 1)
  {
  }

  /** One address with its first octet in base 10, 8 and 16. */
  lemma BasesAgree()
    ensures Parse("127.1") == Parse("0177.1") == Parse("0x7f.1") == Parse("0X7F.1") == Octets(127, 0, 0, 1)
  {
    Values127();
    hide Parse, Octets, ValueOf;
    assert "127.1"[0..3] == "127" && "0177.1"[0..4] == "0177" && "0x7f.1"[2..4] == "7f" && "0X7F.1"[2..4] == "7F";
    LoopBack("127.1", 10, 0, 3);
    LoopBack("0177.1", 8, 0, 4);
    LoopBack("0x7f.1", 16, 2, 4);
    LoopBack("0X7F.1", 16, 2, 4);
  }

  /** A third number that is no octet runs over into the fourth. */
  lemma ThirdNumberUnchecked()
    ensures Parse("1.2.300.4") == Parse("1.2.44.5") == Octets(1, 2, 44, 5)
  {
    SpelledOut();
    ParseDotted([1, 2, 300, 4], "");
    ParseDotted([1, 2, 44, 5], "");
    CarriedOver();
    hide *;
  }

  lemma CarriedOver()
    ensures Combine([1, 2, 300, 4]) == Combine([1, 2, 44, 5]) == Octets(1, 2, 44, 5)
  {
    assert Octets(1, 2, 300, 4) == Octets(1, 2, 44, 5) < TWO32;
  }

  lemma SpelledOut()
    ensures Dotted([1, 2, 300, 4]) == "1.2.300.4" && Dotted([1, 2, 44, 5]) == "1.2.44.5"
  {
    hide Decimal, Dotted;
    SmallDecimals();
    LargerDecimals();
    DottedFour(1, 2, 300, 4);
    DottedFour(1, 2, 44, 5);
  }

  lemma SmallDecimals()
    ensures Decimal(1) == "1" && Decimal(2) == "2" && Decimal(4) == "4" && Decimal(5) == "5"
  {
  }

  lemma LargerDecimals()
    ensures Decimal(44) == "44" && Decimal(300) == "300"
  {
    assert Decimal(30) == "30";
  }

  // ---------------------------------------------------------------- lib/util_ip.c

  function Add32(x: Word, y: Word): Word { (x + y) % TWO32 }

  lemma NoWrap(x: Word, y: Word)
    requires x + y < TWO32
    ensures Add32(x, y) == x + y
  {
  }

  lemma HtonlShort(x: Word)
    ensures x < 0x100_0000 ==> Htonl(x) <= TWO32 - 0x100
    ensures x < 0x1_0000 ==> Htonl(x) <= TWO32 - 0x1_0000
  {
  }

  lemma DropMultiple(x: nat, q: nat)
    ensures (x + TWO32 * q) % TWO32 == x % TWO32
  {
  }

  lemma ModAdd(x: nat, y: nat)
    ensures (x % TWO32 + y) % TWO32 == (x + y) % TWO32 == (y % TWO32 + x) % TWO32
  {
    assert x == TWO32 * (x / TWO32) + x % TWO32 && y == TWO32 * (y / TWO32) + y % TWO32;
    DropMultiple(x % TWO32 + y, x / TWO32);
    DropMultiple(y % TWO32 + x, y / TWO32);
  }

  lemma Accumulate(a: Word, b: Word, c: Word, d: Word)
    requires a < 0x100 && b < 0x100 && d < 0x100
    ensures Add32(Add32(a + 0x100 * b, 0x1_0000 * c % TWO32), 0x100_0000 * d) == Octets(a, b, c, d) % TWO32
  {
    var x, y, z := a + 0x100 * b, 0x1_0000 * c, 0x100_0000 * d;
    ModAdd(x, y);
    ModAdd(x + y, z);
    assert Add32(x, y % TWO32) == (y % TWO32 + x) % TWO32;
  }

  /** A dot, at p, that the source goes on behind. */
  predicate DotAt(s: string, p: nat) { p < |s| && s[p] == '.' }

  predicate DigitAt(s: string, p: nat) { p < |s| && IsDigit(s[p]) }

  lemma FirstDigit(s: string)
    ensures DigitAt(s, 0) <==> s != "" && '0' <= s[0] <= '9'
  {
  }

  lemma NumbersHere(s: string, p: nat, k: nat)
    requires 1 <= k <= 4
    ensures !DigitAt(s, p) ==> Numbers(s, p, k) == (false, [])
    ensures DigitAt(s, p) ==>
              var (v, e) := Strtoul(s, p);
              Numbers(s, p, k) == if k < 4 && DotAt(s, e)
                                  then (Numbers(s, e + 1, k + 1).0, [v] + Numbers(s, e + 1, k + 1).1)
                                  else (true, [v])
  {
    hide Strtoul;
  }

  /** str2ip: adds up the numbers as it goes along the text. */
  method Str2Ip(str: string) returns (addr: Word)
    ensures addr == Parse(str)
    ensures str == "" || !('0' <= str[0] <= '9') ==> addr == INADDR_NONE
  {
    hide Strtoul, Htonl, Octets, Add32, Numbers, DigitAt, DotAt;
    NumbersHere(str, 0, 1);
    FirstDigit(str);
    if !DigitAt(str, 0) {
      return INADDR_NONE;
    }
    var (first, p) := NextNumber(str, 0);
    addr := first;
    if !DotAt(str, p) {
      var temp := addr / 0x100_0000;
      if temp == 0 || temp >= 224 {
        return INADDR_NONE;
      }
      return Htonl(addr);
    }
    NumbersHere(str, p + 1, 2);
    if !DigitAt(str, p + 1) || addr == 0 || addr >= 224 {
      return INADDR_NONE;
    }
    var (second, p2) := NextNumber(str, p + 1);
    HtonlShort(second);
    if !DotAt(str, p2) {
      if second < 0x100_0000 { NoWrap(addr, Htonl(second)); }
      return if second >= 0x100_0000 then INADDR_NONE else Add32(addr, Htonl(second));
    }
    NumbersHere(str, p2 + 1, 3);
    if !DigitAt(str, p2 + 1) || second >= 0x100 {
      return INADDR_NONE;
    }
    NoWrap(addr, 0x100 * second);
    addr := Add32(addr, 0x100 * second);
    var (third, p3) := NextNumber(str, p2 + 1);
    HtonlShort(third);
    if !DotAt(str, p3) {
      if third < 0x1_0000 { NoWrap(addr, Htonl(third)); }
      return if third >= 0x1_0000 then INADDR_NONE else Add32(addr, Htonl(third));
    }
    NumbersHere(str, p3 + 1, 4);
    if !DigitAt(str, p3 + 1) {
      return INADDR_NONE;
    }
    addr := Add32(addr, 0x1_0000 * third % TWO32);
    var (fourth, _) := NextNumber(str, p3 + 1);
    if fourth >= 0x100 {
      return INADDR_NONE;
    }
    Accumulate(first, second, third, fourth);
    addr := Add32(addr, 0x100_0000 * fourth);
  }

  /** strtoul, called where there is a digit. */
  function NextNumber(s: string, p: nat): (r: (Word, nat))
    requires DigitAt(s, p)
    ensures p < r.1 <= |s|
  {
    Strtoul(s, p)
  }

  lemma DecimalOctet(c: Byte)
    ensures Decimal(c) ==
      if c >= 100 then ['0' + (c / 100) as char, '0' + (c / 10 % 10) as char, '0' + (c % 10) as char]
      else if c >= 10 then ['0' + (c / 10) as char, '0' + (c % 10) as char]
      else ['0' + c as char]
  {
    if c >= 100 {
      assert c / 10 / 10 == c / 100;
      assert Decimal(c / 10) == ['0' + (c / 100) as char] + ['0' + (c / 10 % 10) as char];
    }
  }

  /** Writes one octet at p. */
  method PutOctet(str: array<char>, p: nat, c: Byte) returns (e: nat)
    requires p + 3 <= str.Length
    modifies str
    ensures p < e <= p + 3 && str[p..e] == Decimal(c)
    ensures forall k :: 0 <= k < p || e <= k < str.Length ==> str[k] == old(str[k])
  {
    DecimalOctet(c);
    hide Decimal;
    if c >= 100 {
      str[p] := '0' + (c / 100) as char;
      str[p + 1] := '0' + (c / 10 % 10) as char;
      str[p + 2] := '0' + (c % 10) as char;
      return p + 3;
    } else if c >= 10 {
      str[p] := '0' + (c / 10) as char;
      str[p + 1] := '0' + (c % 10) as char;
      return p + 2;
    } else {
      str[p] := '0' + c as char;
      return p + 1;
    }
  }

  lemma DottedStep(n: Word, ns: seq<Word>)
    ensures Dotted([n]) == Decimal(n)
    ensures ns != [] ==> Dotted([n] + ns) == Decimal(n) + "." + Dotted(ns)
  {
    hide Decimal;
    assert ([n] + ns)[1..] == ns;
  }

  lemma Join3(a: string, b: string, c: string)
    ensures a + "." + (b + "." + c) == (a + "." + b) + "." + c
  {
  }

  lemma DottedFour(a: Word, b: Word, c: Word, d: Word)
    ensures Dotted([a, b, c, d]) == Decimal(a) + "." + Decimal(b) + "." + Decimal(c) + "." + Decimal(d)
  {
    hide Decimal, Dotted;
    assert [a, b, c, d] == [a] + [b, c, d] && [b, c, d] == [b] + [c, d] && [c, d] == [c] + [d];
    DottedStep(a, [b, c, d]);
    DottedStep(b, [c, d]);
    DottedStep(c, [d]);
    DottedStep(d, []);
    Join3(Decimal(b), Decimal(c), Decimal(d));
    Join3(Decimal(a), Decimal(b) + "." + Decimal(c), Decimal(d));
    Join3(Decimal(a), Decimal(b), Decimal(c));
  }

  /** Appends one octet to a text that ends at p. */
  method Append(str: array<char>, p: nat, c: Byte, ghost t: string) returns (e: nat)
    requires p + 3 <= str.Length && str[..p] == t
    modifies str
    ensures p < e <= p + 3 && str[..e] == t + Decimal(c)
    ensures forall k :: e <= k < str.Length ==> str[k] == old(str[k])
  {
    hide Decimal;
    e := PutOctet(str, p, c);
    assert str[..e] == str[..p] + str[p..e];
  }

  /** Appends a dot and one octet. */
  method AppendNext(str: array<char>, p: nat, c: Byte, ghost t: string) returns (e: nat)
    requires p + 4 <= str.Length && str[..p] == t
    modifies str
    ensures p + 1 < e <= p + 4 && str[..e] == t + "." + Decimal(c)
    ensures forall k :: e <= k < str.Length ==> str[k] == old(str[k])
  {
    hide Decimal;
    str[p] := '.';
    e := Append(str, p + 1, c, t + ".");
  }

  /** ip2str: writes the text without a NUL and returns where it ends. */
  method Ip2Str(str: array<char>, ip: Word) returns (e: nat)
    requires str.Length >= 15
    modifies str
    ensures e <= 15 && str[..e] == Dotted(OctetsOf(ip))
    ensures forall k :: e <= k < str.Length ==> str[k] == old(str[k])
  {
    hide Decimal, Dotted;
    var c := OctetsOf(ip);
    OctetsBack(ip);
    DottedFour(c[0], c[1], c[2], c[3]);
    assert c == [c[0], c[1], c[2], c[3]];
    e := Append(str, 0, c[0], "");
    e := AppendNext(str, e, c[1], str[..e]);
    e := AppendNext(str, e, c[2], str[..e]);
    e := AppendNext(str, e, c[3], str[..e]);
    assert "" + Decimal(c[0]) == Decimal(c[0]);
  }
}
