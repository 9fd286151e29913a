/** The connection buffer of network/mybuff.c: a growing byte queue, followed by a region of a
    local file whose descriptor the buffer owns. */
module MyBuff {
  import opened Common

  class Buff {
    const initSize: nat  // init_buff_size
    var data: array?<Byte>
    var size: nat
    var len: nat
    var fd: int
    var foffset: nat
    var flen: nat
    ghost var given: seq<int>   // the descriptors passed to SetFile, in order
    ghost var closed: seq<int>  // the descriptors this buffer has closed, in order

    ghost predicate Valid()
      reads this, data
    {
      && 0 < initSize
      && (data == null ==> size == 0 && len == 0)
      && (data != null ==> data.Length == size && len <= size)
      && Owned()
    }

    /** Every descriptor taken over is still held or has been closed, once for each time given. */
    ghost predicate Owned()
      reads this
    {
      multiset(given) == multiset(closed) + if fd >= 0 then multiset{fd} else multiset{}
    }

    ghost function Contents(): (c: seq<Byte>)
      reads this, data
      requires Valid()
      ensures |c| == len
    {
      if data == null then [] else data[..len]
    }

    /** mybuff_init */
    constructor (n: nat)
      requires 0 < n
      ensures Valid() && initSize == n && Contents() == [] && fd == -1 && given == closed == []
      ensures data == null
    {
      initSize := n;
      data, size, len, fd, foffset, flen := null, 0, 0, -1, 0, 0;
      given, closed := [], [];
    }

    /** Makes room for n more bytes, growing the allocation when there is not a byte to spare. */
    method Reserve(n: nat)
      requires Valid()
      modifies this`data, this`size
      ensures Valid() && Contents() == old(Contents())
      ensures data == old(data) || fresh(data)
      ensures data != null && len + n < size
    {
      if data == null {
        data := new Byte[initSize];
        size := initSize;
      }
      if size - len <= n {
        var tmp := new Byte[len + n + 1];
        forall i | 0 <= i < len {
          tmp[i] := data[i];
        }
        data := tmp;
        size := len + n + 1;
      }
    }

    /** Appends. */
    method SetData(d: seq<Byte>)
      requires Valid()
      modifies this`data, this`size, this`len, data
      ensures Valid() && Contents() == old(Contents()) + d
      ensures data != null && (data == old(data) || fresh(data))
    {
      Reserve(|d|);
      ghost var c := Contents();
      forall i | 0 <= i < |d| {
        data[len + i] := d[i];
      }
      len := len + |d|;
      assert data[..len] == c + d;
    }

    /** Hands out what is queued; fails when nothing is. */
    method GetData() returns (ret: int, d: seq<Byte>)
      requires Valid()
      ensures ret == (if Contents() == [] then -1 else 0)
      ensures ret == 0 ==> d == Contents()
    {
      if data != null && len > 0 {
        return 0, data[..len];
      }
      return -1, [];
    }

    /** Drops n bytes from the front, moving the rest down in place. */
    method SkipData(n: nat)
      requires Valid()
      modifies this`len, data
      ensures Valid()
      ensures Contents() == if n >= |old(Contents())| then [] else old(Contents())[n..]
    {
      if data != null {
        if n >= len {
          len := 0;
        } else {
          ghost var c := Contents();
          forall i | 0 <= i < len - n {
            data[i] := data[n + i];
          }
          len := len - n;
          assert data[..len] == c[n..];
        }
      }
    }

    /** Takes over a descriptor, closing the one held before. */
    method SetFile(newfd: int, offset: nat, n: nat)
      requires Valid()
      modifies this`fd, this`foffset, this`flen, this`given, this`closed
      ensures Valid() && Contents() == old(Contents())
      ensures fd == newfd && foffset == offset && flen == n
      ensures given == if newfd >= 0 then old(given) + [newfd] else old(given)
      ensures closed == if old(fd) >= 0 then old(closed) + [old(fd)] else old(closed)
    {
      if fd >= 0 {
        closed := closed + [fd];
      }
      fd, foffset, flen := newfd, offset, n;
      if newfd >= 0 {
        given := given + [newfd];
      }
    }

    method GetFile() returns (ret: int, localfd: int, offset: nat, n: nat)
      requires Valid()
      ensures ret == if fd >= 0 && flen > 0 then 0 else -1
      ensures ret == 0 ==> localfd == fd && offset == foffset && n == flen
    {
      if fd >= 0 && flen > 0 {
        return 0, fd, foffset, flen;
      }
      return -1, -1, 0, 0;
    }

    /** Drops n bytes of the region; a used-up region is closed. */
    method SkipFile(n: nat)
      requires Valid()
      modifies this`fd, this`foffset, this`flen, this`closed
      ensures Valid() && Contents() == old(Contents())
      ensures if old(fd) >= 0 && n >= old(flen) then fd == -1 && closed == old(closed) + [old(fd)]
              else fd == old(fd) && closed == old(closed)
      ensures old(fd) >= 0 && n < old(flen) ==> foffset == old(foffset) + n && flen == old(flen) - n
      ensures old(fd) < 0 ==> foffset == old(foffset) && flen == old(flen)
    {
      if fd >= 0 {
        if flen <= n {
          closed := closed + [fd];
          fd, foffset, flen := -1, 0, 0;
        } else {
          foffset, flen := foffset + n, flen - n;
        }
      }
    }

    /** Makes the buffer empty for a new connection, giving back a large allocation. */
    method Reinit()
      requires Valid()
      modifies this`data, this`size, this`len, this`fd, this`foffset, this`flen, this`closed
      ensures Valid() && Contents() == [] && fd < 0
      ensures data == old(data) || fresh(data)
      ensures closed == if old(fd) >= 0 then old(closed) + [old(fd)] else old(closed)
    {
      if fd >= 0 {
        closed := closed + [fd];
        fd, foffset, flen := -1, 0, 0;
      }
      if size > 2 * initSize {
        data := new Byte[initSize];
        size := initSize;
      }
      len := 0;
    }
  }

  /** Of a descriptor given once, exactly one of two things holds: it is still held, or it was
      closed, once.  In general it was closed as often as it was given, but for the one held. */
  lemma ClosedOnce(b: Buff, f: nat)
    requires b.Valid()
    ensures multiset(b.given)[f] == multiset(b.closed)[f] + if b.fd == f then 1 else 0
    ensures multiset(b.given)[f] == 1 ==> (f in b.closed <==> b.fd != f) && multiset(b.closed)[f] <= 1
  {
    assert f in b.closed <==> f in multiset(b.closed);
  }
}
