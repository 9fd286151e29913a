/** The time stamp files of network/vfs_time_stamp.c: one time_t for each pair of directories in
    the first, one for each pair and each domain in the second, as flat byte files. */
module TimeStamp {
  import opened Common

  const TWO64: int := 0x1_0000_0000_0000_0000

  /** A 64-bit time_t. */
  type Time = x: int | -0x8000_0000_0000_0000 <= x < 0x8000_0000_0000_0000

  // ---------------------------------------------------------------- one time_t in memory

  function Little(x: nat, n: nat): (b: seq<Byte>)
    ensures |b| == n
  {
    if n == 0 then [] else [x % 0x100] + Little(x / 0x100, n - 1)
  }

  function Number(b: seq<Byte>): nat {
    if b == [] then 0 else b[0] + 0x100 * Number(b[1..])
  }

  function Pow256(n: nat): nat {
    if n == 0 then 1 else 0x100 * Pow256(n - 1)
  }

  lemma {:induction false} NumberOfLittle(x: nat, n: nat)
    requires x < Pow256(n)
    ensures Number(Little(x, n)) == x
  {
    if n > 0 {
      NumberOfLittle(x / 0x100, n - 1);
      assert Little(x, n)[1..] == Little(x / 0x100, n - 1);
    }
  }

  /** The eight bytes of a time_t, two's complement, low-order byte first. */
  function Store(v: Time): (b: seq<Byte>)
    ensures |b| == 8
  {
    Little(if v < 0 then v + TWO64 else v, 8)
  }

  function Load(b: seq<Byte>): int {
    var u := Number(b);
    if u < TWO64 / 2 then u else u - TWO64
  }

  lemma LoadOfStore(v: Time)
    ensures Load(Store(v)) == v
  {
    assert Pow256(8) == TWO64 by {
      assert Pow256(2) == 0x1_0000 && Pow256(4) == 0x1_0000_0000 && Pow256(6) == 0x1_0000_0000_0000;
    }
    NumberOfLittle(if v < 0 then v + TWO64 else v, 8);
  }

  /** The lowest byte comes first. */
  lemma LowestFirst(v: Time)
    ensures Store(v)[0] == v % 0x100
  {
    if v < 0 {
      assert (v + 0x100 * 0x100_0000_0000_0000) % 0x100 == v % 0x100;
    }
  }

  // ---------------------------------------------------------------- a file of them

  function TimeAt(file: seq<Byte>, k: nat): int
    requires 8 * k + 8 <= |file|
  {
    Load(file[8 * k..8 * k + 8])
  }

  /** What the slots of a file hold. */
  function Times(file: seq<Byte>): (ts: seq<int>)
    ensures |ts| == |file| / 8
  {
    seq(|file| / 8, k requires 0 <= k < |file| / 8 => TimeAt(file, k))
  }

  function Overwritten(file: seq<Byte>, pos: nat, b: seq<Byte>): (r: seq<Byte>)
    requires pos + |b| <= |file|
    ensures |r| == |file|
  {
    file[..pos] + b + file[pos + |b|..]
  }

  /** Slots do not overlap: writing one changes what it holds and nothing else. */
  lemma WriteSlot(file: seq<Byte>, k: nat, v: Time)
    requires 8 * k + 8 <= |file|
    ensures Times(Overwritten(file, 8 * k, Store(v))) == Times(file)[k := v]
  {
    var f := Overwritten(file, 8 * k, Store(v));
    LoadOfStore(v);
    forall j | 0 <= j < |file| / 8
      ensures TimeAt(f, j) == if j == k then v else TimeAt(file, j)
    {
      assert f[8 * j..8 * j + 8] == if j == k then Store(v) else file[8 * j..8 * j + 8];
    }
  }

  // ---------------------------------------------------------------- slots

  /** Row-major position. */
  function Slot(i: nat, j: nat, width: nat): nat { i * width + j }

  lemma SlotInRange(i: nat, j: nat, height: nat, width: nat)
    requires i < height && j < width
    ensures Slot(i, j, width) < height * width
  {
    assert (i + 1) * width <= height * width;
  }

  lemma RowsApart(i: nat, j: nat, i': nat, width: nat)
    requires i < i' && j < width
    ensures Slot(i, j, width) < Slot(i', 0, width)
  {
    assert (i + 1) * width <= i' * width;
  }

  lemma SlotOnce(i: nat, j: nat, i': nat, j': nat, width: nat)
    requires j < width && j' < width && Slot(i, j, width) == Slot(i', j', width)
    ensures i == i' && j == j'
  {
    if i < i' {
      RowsApart(i, j, i', width);
    } else if i' < i {
      RowsApart(i', j', i, width);
    }
  }

  // ---------------------------------------------------------------- guarded updates

  /** A guarded set of slot k, which only takes effect when it is `live`. */
  datatype Update = Update(k: nat, v: Time, live: bool)

  function Apply(ts: seq<int>, u: Update): (r: seq<int>)
    ensures |r| == |ts|
  {
    if u.live && u.k < |ts| && ts[u.k] < u.v then ts[u.k := u.v] else ts
  }

  function ApplyAll(ts: seq<int>, us: seq<Update>): (r: seq<int>)
    ensures |r| == |ts|
  {
    if us == [] then ts else Apply(ApplyAll(ts, us[..|us| - 1]), us[|us| - 1])
  }

  function Max(x: int, y: int): int { if x < y then y else x }

  /** The largest of x and the times set in slot k while sets were live. */
  function Latest(x: int, us: seq<Update>, k: nat): int {
    if us == [] then x
    else
      var u := us[|us| - 1];
      var before := Latest(x, us[..|us| - 1], k);
      if u.live && u.k == k then Max(before, u.v) else before
  }

  /** A time set for slot k while sets were live. */
  predicate SetLive(us: seq<Update>, k: nat, v: int) {
    exists i :: 0 <= i < |us| && us[i].live && us[i].k == k && us[i].v == v
  }

  lemma {:induction false} LatestIsOne(x: int, us: seq<Update>, k: nat)
    ensures Latest(x, us, k) == x || SetLive(us, k, Latest(x, us, k))
    ensures Latest(x, us, k) >= x
    ensures forall i :: 0 <= i < |us| && us[i].live && us[i].k == k ==> us[i].v <= Latest(x, us, k)
  {
    if us != [] {
      var n := |us| - 1;
      LatestIsOne(x, us[..n], k);
      var v := Latest(x, us[..n], k);
      if v != x {
        var i :| 0 <= i < n && us[..n][i].live && us[..n][i].k == k && us[..n][i].v == v;
        assert us[i].live && us[i].k == k && us[i].v == v;
      }
      assert forall i :: 0 <= i < n ==> us[..n][i] == us[i];
    }
  }

  /** After any sequence of guarded sets each slot holds the latest time set for it. */
  lemma {:induction false} KeepsLatest(ts: seq<int>, us: seq<Update>, k: nat)
    requires k < |ts|
    ensures ApplyAll(ts, us)[k] == Latest(ts[k], us, k)
  {
    if us != [] {
      KeepsLatest(ts, us[..|us| - 1], k);
    }
  }

  // ---------------------------------------------------------------- the files

  class TimeStampFiles {
    const dir1: nat
    const dir2: nat
    const maxfcs: nat
    const fcs: array<Byte>
    const cs: array<Byte>
    var online: bool  // self_stat == ON_LINE

    ghost predicate Valid()
      reads this
    {
      && 0 < dir1 && 0 < dir2 && 0 < maxfcs && fcs != cs
      && fcs.Length == 8 * (dir1 * dir2)
      && cs.Length == 8 * (dir1 * dir2 * maxfcs)
    }

    /** Empty files of the right size. */
    constructor (d1: nat, d2: nat, m: nat)
      requires 0 < d1 && 0 < d2 && 0 < m
      ensures Valid() && dir1 == d1 && dir2 == d2 && maxfcs == m && fresh(fcs) && fresh(cs)
    {
      dir1, dir2, maxfcs, online := d1, d2, m, false;
      fcs := new Byte[8 * (d1 * d2)](_ => 0);
      cs := new Byte[8 * (d1 * d2 * m)](_ => 0);
    }

    function FcsSlot(d1: nat, d2: nat): (k: nat)
      reads this
      requires Valid() && d1 < dir1 && d2 < dir2
      ensures k == d1 * dir2 + d2 && k < dir1 * dir2 && 8 * k + 8 <= fcs.Length
    {
      SlotInRange(d1, d2, dir1, dir2);
      Slot(d1, d2, dir2)
    }

    function CsSlot(d1: nat, d2: nat, domain: nat): (k: nat)
      reads this
      requires Valid() && d1 < dir1 && d2 < dir2
      ensures k == (d1 * dir2 + d2) * maxfcs + domain % maxfcs
      ensures k < dir1 * dir2 * maxfcs && 8 * k + 8 <= cs.Length
    {
      SlotInRange(FcsSlot(d1, d2), domain % maxfcs, dir1 * dir2, maxfcs);
      Slot(FcsSlot(d1, d2), domain % maxfcs, maxfcs)
    }

    /** Different directories, or different domains modulo maxfcs, have different slots. */
    lemma CsSlotOnce(a1: nat, a2: nat, a: nat, b1: nat, b2: nat, b: nat)
      requires Valid() && a1 < dir1 && a2 < dir2 && b1 < dir1 && b2 < dir2
      ensures CsSlot(a1, a2, a) == CsSlot(b1, b2, b) <==> a1 == b1 && a2 == b2 && a % maxfcs == b % maxfcs
    {
      if CsSlot(a1, a2, a) == CsSlot(b1, b2, b) {
        SlotOnce(FcsSlot(a1, a2), a % maxfcs, FcsSlot(b1, b2), b % maxfcs, maxfcs);
        SlotOnce(a1, a2, b1, b2, dir2);
      }
    }

    /** lseek and read. */
    static method ReadAt(file: array<Byte>, pos: nat) returns (v: int)
      requires pos + 8 <= file.Length
      ensures v == Load(file[pos..pos + 8])
    {
      v := Load(file[pos..pos + 8]);
    }

    /** lseek and write. */
    static method WriteAt(file: array<Byte>, pos: nat, v: Time)
      requires pos + 8 <= file.Length
      modifies file
      ensures file[..] == Overwritten(old(file[..]), pos, Store(v))
    {
      var b := Store(v);
      forall i | 0 <= i < 8 {
        file[pos + i] := b[i];
      }
    }

    /** set_fcs_time_stamp; `parsed` tells whether the file name names directories. */
    method SetFcsTimeStamp(parsed: bool, d1: nat, d2: nat, val: Time) returns (ret: int)
      requires Valid() && (parsed ==> d1 < dir1 && d2 < dir2)
      modifies fcs
      ensures parsed ==> ret == 0 && Times(fcs[..]) == Apply(old(Times(fcs[..])), Update(FcsSlot(d1, d2), val, true))
      ensures parsed ==>
                var k, before := d1 * dir2 + d2, old(Times(fcs[..]));
                Times(fcs[..]) == before[k := if before[k] < val then val else before[k]]
      ensures !parsed ==> ret == (if val <= -1 then 0 else -1) && fcs[..] == old(fcs[..])
    {
      var oldval := -1;
      if parsed {
        oldval := ReadAt(fcs, 8 * FcsSlot(d1, d2));
      }
      if oldval >= val {
        return 0;
      }
      if !parsed {
        return -1;
      }
      WriteSlot(fcs[..], FcsSlot(d1, d2), val);
      WriteAt(fcs, 8 * FcsSlot(d1, d2), val);
      return 0;
    }

    /** set_cs_time_stamp; a negative domain is one whose name could not be read. */
    method SetCsTimeStamp(parsed: bool, d1: nat, d2: nat, domain: int, val: Time) returns (ret: int)
      requires Valid() && (parsed ==> d1 < dir1 && d2 < dir2)
      modifies cs
      ensures parsed && domain >= 0 ==>
                ret == 0 && Times(cs[..]) == Apply(old(Times(cs[..])), Update(CsSlot(d1, d2, domain), val, online))
      ensures parsed && domain >= 0 ==>
                var k, before := CsSlot(d1, d2, domain), old(Times(cs[..]));
                Times(cs[..]) == before[k := if online && before[k] < val then val else before[k]]
      ensures !parsed || domain < 0 ==> ret == (if val <= -1 then 0 else -1) && cs[..] == old(cs[..])
    {
      var oldval := -1;
      if parsed && domain >= 0 {
        oldval := ReadAt(cs, 8 * CsSlot(d1, d2, domain));
      }
      if oldval >= val {
        return 0;
      }
      if !parsed || domain < 0 {
        return -1;
      }
      if !online {
        return 0;
      }
      WriteSlot(cs[..], CsSlot(d1, d2, domain), val);
      WriteAt(cs, 8 * CsSlot(d1, d2, domain), val);
      return 0;
    }
  }
}
