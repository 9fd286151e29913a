/** One connection slot of network/vfs_so.c: sending what its buffer holds through a kernel that
    may take any part of it, receiving, and opening and closing the slot. */
module VfsSo {
  import opened Common
  import opened MyBuff
  import opened SlotModel

  // ---------------------------------------------------------------- the kernel

  /** What a call that is retried while it is interrupted ends with. */
  function Outcome(script: seq<Ret>): (r: Ret)
    ensures !r.Intr?
  {
    if script == [] then Again else if script[0].Intr? then Outcome(script[1..]) else script[0]
  }

  /** The results still to come behind that. */
  function Later(script: seq<Ret>): seq<Ret> {
    if script == [] then [] else if script[0].Intr? then Later(script[1..]) else script[1..]
  }

  /** A call is made again for as long as it is interrupted, and its answer used up. */
  lemma {:induction false} CallRetried(script: seq<Ret>, n: nat)
    requires n <= |script| && forall i :: 0 <= i < n ==> script[i].Intr?
    ensures n == |script| ==> Outcome(script) == Again && Later(script) == []
    ensures n < |script| && !script[n].Intr? ==> Outcome(script) == script[n] && Later(script) == script[n + 1..]
  {
    if n > 0 {
      CallRetried(script[1..], n - 1);
      assert n < |script| ==> script[1..][n..] == script[n + 1..];
    }
  }

  /** The kernel's answers to a do_send. */
  predicate Asked(x: Sending, script: seq<Ret>) {
    x.SentWith? ==> x.o == Outcome(script) && x.f == Outcome(Later(script))
  }

  /** The results still to come behind a do_send that finds the buffers s: it makes no call when
      nothing is pending, and two when all of the queue goes out in front of a file. */
  function BehindSend(s: Bufs, script: seq<Ret>): seq<Ret> {
    if !s.Pends() then script
    else if s.queue != [] && s.held && Took(Outcome(script), |s.queue|) == |s.queue| then Later(Later(script))
    else Later(script)
  }

  /** The results still to come.  When they run out a call would block. */
  class Kernel {
    var script: seq<Ret>

    method Next() returns (r: Ret)
      modifies this
      ensures if old(script) == [] then r == Again && script == []
              else r == old(script)[0] && script == old(script)[1..]
    {
      if script == [] {
        return Again;
      }
      r := script[0];
      script := script[1..];
    }

    /** The source's retry loop: a call that was interrupted is made again. */
    method Retried() returns (r: Ret)
      modifies this
      ensures r == Outcome(old(script)) && script == Later(old(script))
    {
      r := Next();
      while r.Intr?
        invariant if r.Intr? then Outcome(script) == Outcome(old(script)) && Later(script) == Later(old(script))
                  else r == Outcome(old(script)) && script == Later(old(script))
        decreases r.Intr?, |script|
      {
        r := Next();
      }
    }
  }

  lemma Shift(w: seq<Byte>, d: seq<Byte>, n: nat, rest: seq<Byte>)
    requires n <= |d|
    ensures w + (d + rest) == (w + d[..n]) + (d[n..] + rest)
  {
  }

  lemma Behind(w: seq<Byte>, f: seq<Byte>, n: nat)
    requires n <= |f|
    ensures w + ([] + f) == (w + f[..n]) + ([] + f[n..])
  {
  }

  /** What is observed of a slot: besides its history what was sent and the buffers, and whether
      EPOLLOUT is registered. */
  datatype View = View(life: seq<Event>, acts: seq<Act>, mark: nat, bufs: Bufs, want: bool)

  class Conn {
    const slot: nat
    const files: map<int, seq<Byte>>
    const sendBuff: Buff
    const recvBuff: Buff
    var fd: int
    var sendLen: nat
    var wantOut: bool         // EPOLLOUT is in the registered interest
    ghost var wire: seq<Byte> // everything sent since the slot was last opened
    ghost var life: seq<Event>
    ghost var acts: seq<Act>  // everything the plugin did to the buffers
    ghost var mark: nat       // how many of these it did before the slot was last opened
    ghost var dropped: seq<Byte>  // what its acts since then dropped, and whether all were in turn
    ghost var inTurn: bool
    ghost var astray: bool    // whether one strayed while all before it were in turn

    ghost predicate Buffers()
      reads sendBuff, sendBuff.data, recvBuff, recvBuff.data
    {
      && sendBuff != recvBuff && sendBuff.Valid() && recvBuff.Valid()
      && (sendBuff.data != null ==> sendBuff.data != recvBuff.data)
    }

    /** A slot is all zero until it is first opened; from then on its fd tells whether it is
        open. */
    ghost predicate Status()
      reads `life, `fd, `wire, `sendLen
    {
      && Lived(life) && PhaseOf(life) != Ending
      && fd == (if PhaseOf(life) == Up then slot else if life == [] then 0 else -1)
      && sendLen == |wire|
    }

    /** What was handed over since the slot was opened is on the wire or pending, in order as
        long as every act was in turn, as it is when no files are handed over. */
    ghost predicate Ledger()
      requires sendBuff.Valid()
      reads `acts, `mark, `wire, `dropped, `inTurn, `astray, sendBuff, sendBuff.data
    {
      Booked(files, Out(), FileRest(), acts, mark, sendBuff.given, dropped, inTurn, astray)
    }

    ghost predicate Valid()
      reads this, sendBuff, sendBuff.data, recvBuff, recvBuff.data
    {
      Buffers() && Status() && Ledger()
    }

    lemma ReadLedger()
      requires Valid()
      ensures mark <= |acts| && sendBuff.given == GivenBy(acts)
      ensures Balanced(Out(), HandedBy(files, acts[mark..]), dropped, inTurn || Plain(acts[mark..]))
      ensures astray ==> Out() != HandedBy(files, acts[mark..])
    {
      hide Balanced, Plain, HandedBy, GivenBy;
    }

    /** What has been queued and not sent: the byte queue, then the file region. */
    ghost function Pending(): seq<Byte>
      requires sendBuff.Valid()
      reads sendBuff, sendBuff.data
    {
      sendBuff.Contents() + FileRest()
    }

    ghost function FileRest(): seq<Byte>
      reads sendBuff`fd, sendBuff`foffset, sendBuff`flen
    {
      if sendBuff.fd >= 0 then Region(files, sendBuff.fd, sendBuff.foffset, sendBuff.flen) else []
    }

    ghost function Out(): seq<Byte>
      requires sendBuff.Valid()
      reads `wire, sendBuff, sendBuff.data
    {
      wire + Pending()
    }

    /** A file region is held, be it one that turns out to lie past the end. */
    ghost predicate Held()
      reads sendBuff`fd, sendBuff`flen
    {
      sendBuff.fd >= 0 && sendBuff.flen > 0
    }

    ghost predicate HasPending()
      requires sendBuff.Valid()
      reads sendBuff, sendBuff.data
    {
      sendBuff.Contents() != [] || Held()
    }

    ghost function Now(): Bufs
      requires sendBuff.Valid() && recvBuff.Valid()
      reads `wire, `dropped, `inTurn, `astray, sendBuff, sendBuff.data, recvBuff, recvBuff.data
    {
      Bufs(wire, sendBuff.Contents(), FileRest(), Held(), recvBuff.Contents(), dropped, inTurn, astray)
    }

    ghost function Seen(): View
      requires sendBuff.Valid() && recvBuff.Valid()
      reads this, sendBuff, sendBuff.data, recvBuff, recvBuff.data
    {
      View(life, acts, mark, Now(), wantOut)
    }

    /** init_fdinfo */
    constructor (n: nat, initSize: nat, fs: map<int, seq<Byte>>)
      requires 0 < initSize
      ensures Valid() && fresh(sendBuff) && fresh(recvBuff) && slot == n && life == [] && files == fs
      ensures sendBuff.data == null && recvBuff.data == null && recvBuff.initSize == initSize
      ensures Seen() == View([], [], 0, FRESH, false)
    {
      slot, files := n, fs;
      sendBuff := new Buff(initSize);
      recvBuff := new Buff(initSize);
      fd, sendLen, wantOut := 0, 0, false;
      wire, life, acts, mark, dropped, inTurn, astray := [], [], [], 0, [], true, false;
      new;
      hide Booked, Buff.Valid, Buff.Contents, PhaseOf;
      NoLife();
      BookedFirst(files);
    }

    /** Moves n bytes from the queue to the wire. */
    method SkipQueued(d: seq<Byte>, n: nat)
      requires Valid() && PhaseOf(life) == Up && d == sendBuff.Contents() && 0 < n <= |d|
      modifies this`wire, this`life, this`sendLen, sendBuff`len, sendBuff.data
      ensures Valid() && PhaseOf(life) == Up && old(life) <= life
      ensures wire == old(wire) + d[..n] && sendBuff.Contents() == d[n..] && Out() == old(Out())
    {
      hide Lived, PhaseOf, Region, Buff.Valid, Buff.Contents, Booked;
      LivedSnoc(life, Sent(n));
      Shift(wire, d, n, FileRest());
      sendBuff.SkipData(n);
      sendLen := sendLen + n;
      wire, life := wire + d[..n], life + [Sent(n)];
    }

    /** Moves n bytes from the file region to the wire. */
    method SkipRegion(n: nat)
      requires Valid() && PhaseOf(life) == Up && sendBuff.Contents() == []
      requires sendBuff.fd >= 0 && 0 < n <= |FileRest()|
      modifies this`wire, this`life, this`sendLen
      modifies sendBuff`fd, sendBuff`foffset, sendBuff`flen, sendBuff`closed
      ensures Valid() && PhaseOf(life) == Up && sendBuff.Contents() == [] && old(life) <= life
      ensures wire == old(wire) + old(FileRest())[..n] && FileRest() == old(FileRest())[n..] && Out() == old(Out())
      ensures if n < old(sendBuff.flen) then sendBuff.fd == old(sendBuff.fd) && sendBuff.flen > 0 else sendBuff.fd < 0
    {
      hide Lived, PhaseOf, Region, Buff.Valid, Buff.Contents, Booked;
      RegionSplit(files, sendBuff.fd, sendBuff.foffset, sendBuff.flen, n);
      RegionNone(files, sendBuff.fd, sendBuff.foffset + n);
      LivedSnoc(life, Sent(n));
      ghost var f := FileRest();
      Behind(wire, f, n);
      BookedSent(files, Out(), f, f[n..], acts, mark, sendBuff.given, dropped, inTurn, astray);
      sendBuff.SkipFile(n);
      sendLen := sendLen + n;
      wire, life := wire + f[..n], life + [Sent(n)];
    }

    /** The first part of do_send: passes queued bytes to the kernel. */
    method SendQueued(k: Kernel) returns (ret: SendRet, n: int)
      requires Valid() && PhaseOf(life) == Up && sendBuff.Contents() != []
      modifies this`wire, this`life, this`sendLen, sendBuff`len, sendBuff.data, k
      ensures Valid() && PhaseOf(life) == Up && old(life) <= life
      ensures Out() == old(Out()) && FileRest() == old(FileRest()) && k.script == Later(old(k.script))
      ensures var d, r := old(sendBuff.Contents()), Outcome(old(k.script));
        && wire == old(wire) + d[..Took(r, |d|)] && sendBuff.Contents() == d[Took(r, |d|)..]
        && n == (if r.Moved? then Took(r, |d|) else -1)
        && ret == match r {
             case Moved(_) => if n < |d| then SEND_ADD_EPOLLOUT else SEND_ADD_EPOLLIN
             case Again => SEND_ADD_EPOLLOUT
             case _ => SEND_CLOSE }
    {
      hide Lived, PhaseOf, Region, Buff.Valid, Buff.Contents, Ledger;
      ret, n := SEND_ADD_EPOLLIN, -1;
      var ok, d := sendBuff.GetData();
      var r := k.Retried();
      match r {
        case Moved(m) =>
          n := Took(r, |d|);
          SkipQueued(d, n);
          if n < |d| {
            ret := SEND_ADD_EPOLLOUT;
          }
        case Again =>
          ret := SEND_ADD_EPOLLOUT;
        case _ =>
          ret := SEND_CLOSE;
      }
    }

    /** The second part of do_send, when the queue is empty: passes on a piece of the file
        region. */
    method SendFile(k: Kernel) returns (ret: SendRet, n: int)
      requires Valid() && PhaseOf(life) == Up && sendBuff.Contents() == [] && sendBuff.fd >= 0 && sendBuff.flen > 0
      modifies this`wire, this`life, this`sendLen, k
      modifies sendBuff`fd, sendBuff`foffset, sendBuff`flen, sendBuff`closed
      ensures Valid() && PhaseOf(life) == Up && sendBuff.Contents() == [] && old(life) <= life
      ensures Out() == old(Out()) && k.script == Later(old(k.script))
      ensures var d, r := old(FileRest()), Outcome(old(k.script));
        var m := Took(r, if |d| > 0x4000_0000 then 0x4000_0000 else |d|);
        && wire == old(wire) + d[..m] && FileRest() == d[m..]
        && n == (if m > 0 then m else -1) && (Held() <==> m < old(sendBuff.flen))
        && (Held() || sendBuff.fd < 0)
        && ret == match r {
             case Moved(_) => if m == 0 then SEND_CLOSE else if Held() then SEND_ADD_EPOLLOUT else SEND_ADD_EPOLLIN
             case Again => SEND_ADD_EPOLLOUT
             case _ => SEND_CLOSE }
    {
      hide Lived, PhaseOf, Region, Buff.Valid, Buff.Contents, Ledger;
      ret, n := SEND_ADD_EPOLLIN, -1;
      var ok, localfd, start, len := sendBuff.GetFile();
      var len1 := if len > GSIZE then GSIZE else len;
      var there := |Region(files, localfd, start, len1)|;
      RegionShorter(files, localfd, start, len, len1);
      assert FileRest() == Region(files, localfd, start, len);
      var r := k.Retried();
      match r {
        case Moved(m) =>
          if there == 0 {
            ret := SEND_CLOSE;  // nothing at that offset: sendfile returns 0
          } else {
            n := Took(r, there);
            SkipRegion(n);
            if n < len {
              ret := SEND_ADD_EPOLLOUT;
            }
          }
        case Again =>
          ret := SEND_ADD_EPOLLOUT;
        case _ =>
          ret := SEND_CLOSE;
      }
    }

    method EmptyBuffers()
      requires Buffers()
      modifies sendBuff`data, sendBuff`size, sendBuff`len, sendBuff`fd, sendBuff`foffset, sendBuff`flen
      modifies sendBuff`closed, recvBuff
      ensures Buffers() && sendBuff.Contents() == recvBuff.Contents() == [] && sendBuff.fd < 0
      ensures sendBuff.data == old(sendBuff.data) || fresh(sendBuff.data)
      ensures recvBuff.data == old(recvBuff.data) || fresh(recvBuff.data)
    {
      hide Buff.Valid, Buff.Contents;
      sendBuff.Reinit();
      recvBuff.Reinit();
    }

    /** add_fd_2_efd: sets the slot up for a new connection. */
    method Open()
      requires Valid() && PhaseOf(life) == Shut
      modifies this`fd, this`sendLen, this`wantOut, this`wire, this`life
      modifies this`mark, this`dropped, this`inTurn, this`astray
      modifies sendBuff, recvBuff
      ensures Valid() && PhaseOf(life) == Up && life == old(life) + [Opened] && mark == |acts|
      ensures wire == [] && Now() == FRESH && !wantOut && !HasPending() && dropped == []
      ensures sendBuff.data == old(sendBuff.data) || fresh(sendBuff.data)
      ensures recvBuff.data == old(recvBuff.data) || fresh(recvBuff.data)
    {
      hide Lived, PhaseOf, Region, Buff.Valid, Buff.Contents, Booked;
      BookedAnew(files, Out(), FileRest(), acts, mark, sendBuff.given, dropped, inTurn, astray);
      EmptyBuffers();
      Begin();
    }

    method Begin()
      requires Buffers() && Status() && PhaseOf(life) == Shut && sendBuff.Contents() == [] && sendBuff.fd < 0
      requires Booked(files, [] + ([] + []), [], acts, |acts|, sendBuff.given, [], true, false)
      modifies this`fd, this`sendLen, this`wantOut, this`wire, this`life
      modifies this`mark, this`dropped, this`inTurn, this`astray
      ensures Valid() && PhaseOf(life) == Up && life == old(life) + [Opened] && mark == |acts|
      ensures wire == [] && FileRest() == [] && !wantOut && inTurn && !astray && dropped == []
    {
      hide Lived, PhaseOf, Region, Buff.Valid, Buff.Contents, Booked;
      LivedSnoc(life, Opened);
      wantOut := false;
      fd := slot;
      sendLen := 0;
      wire, life := [], life + [Opened];
      mark, dropped, inTurn, astray := |acts|, [], true, false;
    }

    /** do_close: does nothing on a slot that is already closed.  A slot that was never opened
        passes for open: the plugin is told of the end of a connection there never was, and the
        descriptor is closed. */
    method DoClose()
      requires Valid()
      modifies this`fd, this`life
      ensures Valid() && PhaseOf(life) == Shut && fd == -1
      ensures life == if old(fd) < 0 then old(life) else old(life) + [Finalised] + [Closed]
      ensures Orderly(life) <==> Orderly(old(life)) && old(life) != []
    {
      hide Lived, PhaseOf, Ledger, Orderly, Buff.Valid, Buff.Contents;
      NoLife();
      if fd < 0 {
        return;
      }
      CloseLife(life);
      life := life + [Finalised] + [Closed];
      fd := -1;
    }

    /** The part of do_send that passes on queued bytes, if there are any. */
    method SendFirst(k: Kernel) returns (ret: SendRet, n: int)
      requires Valid() && PhaseOf(life) == Up
      modifies this`wire, this`life, this`sendLen, sendBuff`len, sendBuff.data, k
      ensures Valid() && PhaseOf(life) == Up && old(life) <= life
      ensures Out() == old(Out()) && old(wire) <= wire
      ensures var s, o := old(Now()), Outcome(old(k.script));
        var m := Took(o, |s.queue|);
        && Now() == s.(wire := s.wire + s.queue[..m], queue := s.queue[m..])
        && (if s.queue == [] then ret == SEND_ADD_EPOLLIN && n == 0 && k.script == old(k.script)
            else
              && n == (if o.Moved? then m else -1) && k.script == Later(old(k.script))
              && ret == match o {
                   case Moved(_) => if n < |s.queue| then SEND_ADD_EPOLLOUT else SEND_ADD_EPOLLIN
                   case Again => SEND_ADD_EPOLLOUT
                   case _ => SEND_CLOSE })
    {
      hide Lived, PhaseOf, Region, Buff.Valid, Buff.Contents, Status, Ledger, FileRest, Pending, Out, Held;
      ret, n := SEND_ADD_EPOLLIN, 0;
      Assoc(wire, [], []);
      var queued, _ := sendBuff.GetData();
      if queued == 0 {
        ret, n := SendQueued(k);
      }
    }

    lemma NothingHeld()
      requires sendBuff.Valid()
      ensures Held() || FileRest() == []
    {
      RegionNone(files, sendBuff.fd, sendBuff.foffset);
    }

    /** Both parts of do_send: the file region is tried only when the queue went out whole. */
    method SendBoth(k: Kernel) returns (ret: SendRet, n: int)
      requires Valid() && PhaseOf(life) == Up
      modifies this`wire, this`life, this`sendLen, k
      modifies sendBuff`len, sendBuff`fd, sendBuff`foffset, sendBuff`flen, sendBuff`closed, sendBuff.data
      ensures Valid() && PhaseOf(life) == Up && old(life) <= life
      ensures Out() == old(Out()) && old(wire) <= wire && Unsent(old(Now()), ret, Now())
      ensures Progress(old(Now()), Outcome(old(k.script)), Outcome(Later(old(k.script))), ret, n, Now())
      ensures k.script == BehindSend(old(Now()), old(k.script))
    {
      hide Lived, PhaseOf, Region, Buff.Valid, Buff.Contents, Status, Ledger, Suffix, Unsent, Progress, FileProgress;
      hide FileRest, Pending, Out;
      ghost var s, o, f := Now(), Outcome(k.script), Outcome(Later(k.script));
      NothingHeld();
      ret, n := SendFirst(k);
      ghost var mid := Now();
      QueuePart(s, o, f, ret, n, mid);
      if ret == SEND_ADD_EPOLLIN && sendBuff.fd >= 0 && sendBuff.flen > 0 {
        ret, n := SendFile(k);
        NothingHeld();
        FilePart(s, o, f, mid, ret, n, Now());
      }
    }

    /** do_send up to the plugin callbacks. */
    method Flush(k: Kernel) returns (ret: SendRet, n: int)
      requires Valid() && PhaseOf(life) == Up
      modifies this`fd, this`wantOut, this`wire, this`life, this`sendLen, k
      modifies sendBuff`len, sendBuff`fd, sendBuff`foffset, sendBuff`flen, sendBuff`closed, sendBuff.data
      ensures Valid() && old(life) <= life
      ensures Out() == old(Out()) && old(wire) <= wire && Unsent(old(Now()), ret, Now())
      ensures fd < 0 <==> ret == SEND_CLOSE
      ensures PhaseOf(life) == if ret == SEND_CLOSE then Shut else Up
      ensures fd >= 0 ==> (wantOut <==> HasPending())
      ensures ret == SEND_ADD_EPOLLIN <==> fd >= 0 && !HasPending()
      ensures Progress(old(Now()), Outcome(old(k.script)), Outcome(Later(old(k.script))), ret, n, Now())
      ensures k.script == BehindSend(old(Now()), old(k.script))
      ensures ret == SEND_ADD_EPOLLIN ==> wire == old(Out())
    {
      hide Lived, PhaseOf, Orderly, Region, Buff.Valid, Buff.Contents, Ledger, FileRest, Held, Unsent, Progress;
      hide BehindSend, Suffix;
      ghost var s := Now();
      ret, n := SendBoth(k);
      UnsentAll(s, ret, Now());
      assert wire + ([] + []) == wire;
      match ret {
        case SEND_CLOSE => DoClose();
        case SEND_ADD_EPOLLIN => wantOut := false;
        case SEND_ADD_EPOLLOUT => wantOut := true;
      }
    }

    // ------------------------------------------------------------ with the plugin

    /** Enters an act in the books, when f was the rest of the file region before it. */
    ghost method Book(f: seq<Byte>, a: Act)
      requires Buffers() && Status()
      requires Booked(files, Out(), FileRest(), acts + [a], mark, sendBuff.given, dropped + Dropped(f, a),
                      inTurn && InTurn(f, a), astray || (Strays(f, a) && (a.QueueFile? || inTurn)))
      modifies this`acts, this`dropped, this`inTurn, this`astray
      ensures Valid() && acts == old(acts) + [a] && dropped == old(dropped) + Dropped(f, a)
      ensures inTurn <==> old(inTurn) && InTurn(f, a)
      ensures astray <==> old(astray) || (Strays(f, a) && (a.QueueFile? || old(inTurn)))
    {
      hide Lived, PhaseOf, Region, Buff.Valid, Buff.Contents, Booked, InTurn, Strays, Dropped;
      astray := astray || (Strays(f, a) && (a.QueueFile? || inTurn));
      acts, dropped, inTurn := acts + [a], dropped + Dropped(f, a), inTurn && InTurn(f, a);
    }

    method SetClientData(d: seq<Byte>)
      requires Valid()
      modifies this`acts, this`dropped, this`inTurn, this`astray
      modifies sendBuff`data, sendBuff`size, sendBuff`len, sendBuff.data
      ensures Valid() && acts == old(acts) + [Queue(d)]
      ensures sendBuff.Contents() == old(sendBuff.Contents()) + d
      ensures dropped == old(dropped) + Dropped(FileRest(), Queue(d))
      ensures inTurn <==> old(inTurn) && InTurn(FileRest(), Queue(d))
      ensures astray <==> old(astray) || (old(inTurn) && Strays(FileRest(), Queue(d)))
      ensures sendBuff.data == old(sendBuff.data) || fresh(sendBuff.data)
    {
      hide Lived, PhaseOf, Region, Buff.Valid, Buff.Contents, Status, Booked, InTurn, Strays, Dropped;
      ghost var f, a := FileRest(), Queue(d);
      BookedAct(files, wire, sendBuff.Contents(), f, acts, mark, sendBuff.given, dropped, inTurn, astray, a);
      sendBuff.SetData(d);
      Book(f, a);
    }

    method SetClientFd(localfd: int, offset: nat, n: nat)
      requires Valid()
      modifies this`acts, this`dropped, this`inTurn, this`astray
      modifies sendBuff`fd, sendBuff`foffset, sendBuff`flen, sendBuff`given, sendBuff`closed
      ensures Valid() && acts == old(acts) + [QueueFile(localfd, offset, n)]
      ensures sendBuff.Contents() == old(sendBuff.Contents())
      ensures FileRest() == Handed(files, QueueFile(localfd, offset, n))
      ensures dropped == old(dropped) + Dropped(old(FileRest()), QueueFile(localfd, offset, n))
      ensures Held() <==> localfd >= 0 && n > 0
      ensures inTurn <==> old(inTurn) && InTurn(old(FileRest()), QueueFile(localfd, offset, n))
      ensures astray <==> old(astray) || Strays(old(FileRest()), QueueFile(localfd, offset, n))
    {
      hide Lived, PhaseOf, Region, Buff.Valid, Buff.Contents, Status, Booked, InTurn, Strays, Dropped;
      ghost var f, a := FileRest(), QueueFile(localfd, offset, n);
      BookedAct(files, wire, sendBuff.Contents(), f, acts, mark, sendBuff.given, dropped, inTurn, astray, a);
      Assoc(sendBuff.Contents(), [], []);
      sendBuff.SetFile(localfd, offset, n);
      Book(f, a);
    }

    method ConsumeClientData(n: nat)
      requires Valid()
      modifies this`acts, this`dropped, this`inTurn, this`astray, recvBuff`len, recvBuff.data
      ensures Valid() && acts == old(acts) + [Consume(n)]
      ensures dropped == old(dropped) && inTurn == old(inTurn) && astray == old(astray)
      ensures recvBuff.Contents() == if n >= |old(recvBuff.Contents())| then [] else old(recvBuff.Contents())[n..]
    {
      hide Lived, PhaseOf, Region, Buff.Valid, Buff.Contents, Status, Booked;
      ghost var f, a := FileRest(), Consume(n);
      BookedAct(files, wire, sendBuff.Contents(), f, acts, mark, sendBuff.given, dropped, inTurn, astray, a);
      Assoc(sendBuff.Contents(), [], []);
      Assoc(dropped, [], []);
      recvBuff.SkipData(n);
      acts := acts + [a];
    }

    method DoAct(a: Act)
      requires Valid()
      modifies this`acts, this`dropped, this`inTurn, this`astray
      modifies sendBuff, sendBuff.data, recvBuff, recvBuff.data
      ensures Valid() && acts == old(acts) + [a] && Now() == old(Now()).Did(files, a)
      ensures sendBuff.data == old(sendBuff.data) || fresh(sendBuff.data)
      ensures recvBuff.data == old(recvBuff.data) || fresh(recvBuff.data)
    {
      hide Lived, PhaseOf, Region, Buff.Valid, Buff.Contents, Status, Ledger, Handed, FileRest, Held;
      Assoc(sendBuff.Contents(), [], []);
      Assoc(dropped, [], []);
      match a {
        case Queue(d) => SetClientData(d);
        case QueueFile(localfd, off, n) => SetClientFd(localfd, off, n);
        case Consume(n) => ConsumeClientData(n);
      }
    }

    /** What the plugin does to the buffers, in a callback or between events. */
    method RunActs(more: seq<Act>)
      requires Valid()
      modifies this`acts, this`dropped, this`inTurn, this`astray
      modifies sendBuff, sendBuff.data, recvBuff, recvBuff.data
      ensures Valid() && acts == old(acts) + more && Now() == old(Now()).DidAll(files, more)
      ensures Advance(files, old(Out()), old(FileRest()), more, Out(), FileRest())
      ensures sendBuff.data == old(sendBuff.data) || fresh(sendBuff.data)
      ensures recvBuff.data == old(recvBuff.data) || fresh(recvBuff.data)
    {
      hide Lived, PhaseOf, Buff.Valid, Buff.Contents, Advance, Ledger, Status, FileRest, Held, Bufs.Did, Bufs.DidAll;
      ghost var s := Now();
      assert more[..|more|] == more && more[..0] == [] && acts + [] == acts;
      DidSnoc(s, files, [], Consume(0));
      for i := 0 to |more|
        invariant Valid() && acts == old(acts) + more[..i] && Now() == s.DidAll(files, more[..i])
        invariant sendBuff.data == old(sendBuff.data) || fresh(sendBuff.data)
        invariant recvBuff.data == old(recvBuff.data) || fresh(recvBuff.data)
      {
        assert more[..i + 1] == more[..i] + [more[i]];
        DidSnoc(s, files, more[..i], more[i]);
        DoAct(more[i]);
      }
      AdvanceActs(files, s, more);
    }

    /** The plugin's writes between events: set_client_data and the like, then
        modify_fd_event. */
    method PluginWrite(more: seq<Act>, out: bool)
      requires Valid()
      modifies this`acts, this`dropped, this`inTurn, this`astray, this`wantOut
      modifies sendBuff, sendBuff.data, recvBuff, recvBuff.data
      ensures Valid() && acts == old(acts) + more && Now() == old(Now()).DidAll(files, more) && wantOut == out
      ensures Advance(files, old(Out()), old(FileRest()), more, Out(), FileRest())
      ensures sendBuff.data == old(sendBuff.data) || fresh(sendBuff.data)
      ensures recvBuff.data == old(recvBuff.data) || fresh(recvBuff.data)
    {
      hide Advance, Ledger, Status, Buff.Valid, Buff.Contents, Bufs.DidAll, FileRest, Held;
      RunActs(more);
      wantOut := out;
    }

    /** do_send; x tells how it went. */
    method DoSend(k: Kernel, p: Plugin) returns (ghost x: Sending)
      requires Valid() && (fd < 0 || PhaseOf(life) == Up)
      modifies this`fd, this`wantOut, this`wire, this`life, this`sendLen, k
      modifies this`acts, this`dropped, this`inTurn, this`astray
      modifies sendBuff, sendBuff.data, recvBuff, recvBuff.data
      ensures Valid() && (fd < 0 || PhaseOf(life) == Up) && old(life) <= life && old(wire) <= wire
      ensures x.NotSent? <==> old(fd) < 0
      ensures x.NotSent? ==> fd < 0 && Seen() == old(Seen())
      ensures x.SentWith? ==> wire <= old(Out()) && (x.ret == SEND_ADD_EPOLLIN ==> wire == old(Out()))
      ensures x.SentWith? ==> (fd < 0 <==> SendCloses(p, x))
      ensures x.SentWith? ==> (fd < 0 <==> x.ret == SEND_CLOSE || (!x.left.Pends() && p.close))
      ensures x.SentWith? ==>
                var s := old(Now());
                var moved := if s.held && x.left.queue == [] then |x.left.rest| < |s.rest|
                             else |x.left.queue| < |s.queue|;
                && wire == x.left.wire && Now() == x.left.DidAll(files, x.did)
                && x.did == if x.ret == SEND_CLOSE then []
                            else (if moved then p.onceActs else []) + (if x.left.Pends() then [] else p.sendActs)
      ensures Asked(x, old(k.script))
      ensures k.script == if x.NotSent? then old(k.script) else BehindSend(old(Now()), old(k.script))
      ensures fd >= 0 ==> (wantOut <==> x.ret == SEND_ADD_EPOLLOUT) && ((wantOut <==> HasPending()) <==> SendMatches(x))
      ensures acts == old(acts) + DidOf(x) && SendStep(files, p, old(Now()), x, Now())
      ensures Advance(files, old(Out()), old(FileRest()), DidOf(x), Out(), FileRest())
      ensures sendBuff.data == old(sendBuff.data) || fresh(sendBuff.data)
      ensures recvBuff.data == old(recvBuff.data) || fresh(recvBuff.data)
    {
      hide Lived, PhaseOf, Orderly, Region, Buff.Valid, Buff.Contents, Ledger, Advance, FileRest, Held, Pending;
      hide Bufs.DidAll, Unsent, Progress, SendMatches;
      x := NotSent;
      AdvanceNone(files, Out(), FileRest(), FileRest());
      if fd < 0 {
        return;
      }
      ghost var out, s, o, f := Out(), Now(), Outcome(k.script), Outcome(Later(k.script));
      var ret, n := Flush(k);
      ghost var out1, left := Out(), Now();
      UnsentRest(s, ret, left);
      UnsentAll(s, ret, left);
      ToldByLast(s, o, f, ret, n, left);
      AdvanceNone(files, out, s.rest, left.rest);
      ghost var did := CallBack(p, ret, n);
      AdvanceChain(files, out, s.rest, [], out1, left.rest, did, Out(), FileRest());
      assert [] + did == did;
      x := SentWith(o, f, ret, n, left, did);
      if ret != SEND_CLOSE { SendMatchesExactly(files, p, s, x, Now()); }
    }

    /** The end of do_send: the plugin's callbacks, unless the slot was closed. */
    method CallBack(p: Plugin, ret: SendRet, n: int) returns (ghost did: seq<Act>)
      requires Valid() && PhaseOf(life) == if ret == SEND_CLOSE then Shut else Up
      requires ret == SEND_CLOSE ==> fd < 0
      modifies this`fd, this`life, this`acts, this`dropped, this`inTurn, this`astray
      modifies sendBuff, sendBuff.data, recvBuff, recvBuff.data
      ensures Valid() && (fd < 0 || PhaseOf(life) == Up) && old(life) <= life
      ensures fd < 0 <==> ret == SEND_CLOSE || (ret == SEND_ADD_EPOLLIN && p.close)
      ensures did == Callbacks(p, ret, n) && acts == old(acts) + did && Now() == old(Now()).DidAll(files, did)
      ensures Advance(files, old(Out()), old(FileRest()), did, Out(), FileRest())
      ensures sendBuff.data == old(sendBuff.data) || fresh(sendBuff.data)
      ensures recvBuff.data == old(recvBuff.data) || fresh(recvBuff.data)
    {
      hide Lived, PhaseOf, Orderly, Region, Buff.Valid, Buff.Contents, Ledger, Advance, FileRest, Held, Pending, Out;
      hide Bufs.DidAll;
      if ret == SEND_CLOSE {
        did := [];
        DidSnoc(Now(), files, [], Consume(0));
        AdvanceNone(files, Out(), FileRest(), FileRest());
        return;
      }
      var once := if n > 0 then p.onceActs else [];
      var last := if ret == SEND_ADD_EPOLLIN then p.sendActs else [];
      did := once + last;
      RunTwo(once, last);
      if ret == SEND_ADD_EPOLLIN && p.close {
        DoClose();
      }
    }

    /** Two callbacks in a row. */
    method RunTwo(once: seq<Act>, last: seq<Act>)
      requires Valid()
      modifies this`acts, this`dropped, this`inTurn, this`astray
      modifies sendBuff, sendBuff.data, recvBuff, recvBuff.data
      ensures Valid() && acts == old(acts) + (once + last) && Now() == old(Now()).DidAll(files, once + last)
      ensures Advance(files, old(Out()), old(FileRest()), once + last, Out(), FileRest())
      ensures sendBuff.data == old(sendBuff.data) || fresh(sendBuff.data)
      ensures recvBuff.data == old(recvBuff.data) || fresh(recvBuff.data)
    {
      hide Buff.Valid, Buff.Contents, Ledger, Advance, Status, FileRest, Held, Pending, Out, Now, Bufs.DidAll;
      ghost var out, rest, s := Out(), FileRest(), Now();
      DidJoin(s, files, once, last);
      RunActs(once);
      ghost var out1, rest1 := Out(), FileRest();
      RunActs(last);
      AdvanceChain(files, out, rest, once, out1, rest1, last, Out(), FileRest());
    }

    /** do_recv up to the plugin callback: false when the connection was closed.  A recv that
        finds nothing takes the write interest away, so that from then on it no longer goes with
        pending output when there is some. */
    method Receive(ins: seq<In>) returns (up: bool)
      requires Valid() && PhaseOf(life) == Up
      modifies this`fd, this`wantOut, this`life, recvBuff, recvBuff.data
      ensures Valid() && PhaseOf(life) == (if up then Up else Shut) && (up <==> fd >= 0) && old(life) <= life
      ensures recvBuff.data == old(recvBuff.data) || fresh(recvBuff.data)
      ensures up <==> Lasts(Incoming(ins), recvBuff.initSize)
      ensures Now() == old(Now()).(recv := old(recvBuff.Contents()) + Bytes(Incoming(ins)))
      ensures up && Incoming(ins).Arrived? ==> life == old(life) + [Got(|Incoming(ins).d|)]
      ensures match Incoming(ins) {
                case Arrived(d) =>
                  && recvBuff.Contents() == old(recvBuff.Contents()) + d && wantOut == old(wantOut)
                  && (up <==> 0 < |d| && |d| != recvBuff.initSize)
                case InAgain => up && !wantOut && recvBuff.Contents() == old(recvBuff.Contents())
                case _ => !up && recvBuff.Contents() == old(recvBuff.Contents()) }
      ensures up && old(wantOut <==> HasPending()) ==>
                ((wantOut <==> HasPending()) <==> !(Incoming(ins).InAgain? && HasPending()))
    {
      hide Lived, PhaseOf, Orderly, Region, Buff.Valid, Buff.Contents, Ledger;
      Assoc(recvBuff.Contents(), [], []);
      up := true;
      var r := NextIn(ins);
      match r {
        case Arrived(d) =>
          if d == [] {
            assert recvBuff.Contents() + d == recvBuff.Contents();
            up := false;
          } else {
            LivedSnoc(life, Got(|d|));
            life := life + [Got(|d|)];
            recvBuff.SetData(d);
            up := |d| != recvBuff.initSize;
          }
        case InAgain =>
          wantOut := false;
        case _ =>
          up := false;
      }
      if !up {
        DoClose();
      }
    }

    /** The retry loop around recv. */
    static method NextIn(ins: seq<In>) returns (r: In)
      ensures r == Incoming(ins)
    {
      var rest := ins;
      while rest != [] && rest[0].InIntr?
        invariant Incoming(rest) == Incoming(ins)
      {
        rest := rest[1..];
      }
      return if rest == [] then InAgain else rest[0];
    }

    /** What do_recv does with the code that svc_recv returned. */
    method Dispatch(k: Kernel, p: Plugin) returns (ghost x: Sending)
      requires Valid() && PhaseOf(life) == Up
      modifies this`fd, this`wantOut, this`wire, this`life, this`sendLen, k
      modifies this`acts, this`dropped, this`inTurn, this`astray
      modifies sendBuff, sendBuff.data, recvBuff, recvBuff.data
      ensures Valid() && (fd < 0 || PhaseOf(life) == Up) && old(life) <= life && old(wire) <= wire
      ensures x.NotSent? <==> p.recvRet != RECV_SEND
      ensures x.NotSent? ==> (fd < 0 <==> p.recvRet == RECV_CLOSE) && wire == old(wire)
      ensures Asked(x, old(k.script))
      ensures k.script == if x.NotSent? then old(k.script) else BehindSend(old(Now()), old(k.script))
      ensures x.SentWith? ==> (fd < 0 <==> SendCloses(p, x))
      ensures fd >= 0 ==> wantOut == RecvWant(p.recvRet, false, old(wantOut), x)
      ensures fd >= 0 && x.SentWith? ==> ((wantOut <==> HasPending()) <==> SendMatches(x))
      ensures acts == old(acts) + DidOf(x) && SendStep(files, p, old(Now()), x, Now())
      ensures Advance(files, old(Out()), old(FileRest()), DidOf(x), Out(), FileRest())
      ensures sendBuff.data == old(sendBuff.data) || fresh(sendBuff.data)
      ensures recvBuff.data == old(recvBuff.data) || fresh(recvBuff.data)
    {
      hide Lived, PhaseOf, Orderly, Region, Buff.Valid, Buff.Contents, Ledger, Advance, FileRest, Held, Pending, Out;
      hide Unsent, Progress, SendMatches, SendCloses;
      x := NotSent;
      AdvanceNone(files, Out(), FileRest(), FileRest());
      match p.recvRet {
        case RECV_SEND => x := DoSend(k, p);
        case RECV_ADD_EPOLLIN => wantOut := false;
        case RECV_ADD_EPOLLOUT => wantOut := true;
        case RECV_ADD_EPOLLALL => wantOut := true;
        case RECV_CLOSE => DoClose();
        case RECV_OTHER =>
      }
    }

    /** The end of do_recv: what svc_recv does, and what its answer leads to. */
    method Answer(k: Kernel, p: Plugin) returns (ghost x: Sending)
      requires Valid() && PhaseOf(life) == Up
      modifies this`fd, this`wantOut, this`wire, this`life, this`sendLen, k
      modifies this`acts, this`dropped, this`inTurn, this`astray
      modifies sendBuff, sendBuff.data, recvBuff, recvBuff.data
      ensures Valid() && (fd < 0 || PhaseOf(life) == Up) && old(life) <= life && old(wire) <= wire
      ensures x.NotSent? <==> p.recvRet != RECV_SEND
      ensures x.NotSent? ==> (fd < 0 <==> p.recvRet == RECV_CLOSE) && wire == old(wire)
      ensures x.NotSent? ==> HasPending() == old(Now()).DidAll(files, p.recvActs).Pends()
      ensures Asked(x, old(k.script))
      ensures k.script == if x.NotSent? then old(k.script)
                          else BehindSend(old(Now()).DidAll(files, p.recvActs), old(k.script))
      ensures x.SentWith? ==> (fd < 0 <==> SendCloses(p, x))
      ensures fd >= 0 ==> wantOut == RecvWant(p.recvRet, false, old(wantOut), x)
      ensures fd >= 0 && x.SentWith? ==> ((wantOut <==> HasPending()) <==> SendMatches(x))
      ensures acts == old(acts) + (p.recvActs + DidOf(x))
      ensures SendStep(files, p, old(Now()).DidAll(files, p.recvActs), x, Now())
      ensures Advance(files, old(Out()), old(FileRest()), p.recvActs + DidOf(x), Out(), FileRest())
      ensures sendBuff.data == old(sendBuff.data) || fresh(sendBuff.data)
      ensures recvBuff.data == old(recvBuff.data) || fresh(recvBuff.data)
    {
      hide Lived, PhaseOf, Orderly, Region, Buff.Valid, Buff.Contents, Ledger, Advance, FileRest, Held, Pending, Out;
      hide SendMatches, SendStep, SendCloses, RecvWant, Bufs.DidAll;
      ghost var out, rest := Out(), FileRest();
      RunActs(p.recvActs);
      ghost var out1, mid := Out(), Now();
      x := Dispatch(k, p);
      AdvanceChain(files, out, rest, p.recvActs, out1, mid.rest, DidOf(x), Out(), FileRest());
      NoSending(files, p, mid, x, Now());
    }

    /** do_recv on an open slot. */
    method RecvOpen(k: Kernel, ins: seq<In>, p: Plugin) returns (ghost did: seq<Act>, ghost x: Sending)
      requires Valid() && PhaseOf(life) == Up
      modifies this`fd, this`wantOut, this`wire, this`life, this`sendLen, k
      modifies this`acts, this`dropped, this`inTurn, this`astray
      modifies sendBuff, sendBuff.data, recvBuff, recvBuff.data
      ensures Valid() && (fd < 0 || PhaseOf(life) == Up) && old(life) <= life && old(wire) <= wire
      ensures RecvStep(files, recvBuff.initSize, Incoming(ins), p, old(Now()), x, did, Now())
      ensures fd < 0 <==> RecvCloses(recvBuff.initSize, Incoming(ins), p, x)
      ensures x.NotSent? ==> wire == old(wire)
      ensures fd >= 0 ==> (x.NotSent? <==> p.recvRet != RECV_SEND)
      ensures Asked(x, old(k.script))
      ensures k.script == if x.NotSent? then old(k.script)
                          else BehindSend(old(Now()).DidAll(files, p.recvActs), old(k.script))
      ensures fd >= 0 ==> wantOut == RecvWant(p.recvRet, Incoming(ins).InAgain?, old(wantOut), x)
      ensures acts == old(acts) + did
      ensures Advance(files, old(Out()), old(FileRest()), did, Out(), FileRest())
      ensures sendBuff.data == old(sendBuff.data) || fresh(sendBuff.data)
      ensures recvBuff.data == old(recvBuff.data) || fresh(recvBuff.data)
      ensures fd >= 0 ==>
                ((wantOut <==> HasPending()) <==>
                 if x.SentWith? then SendMatches(x)
                 else RecvMatches(p.recvRet, Incoming(ins).InAgain?, old(wantOut),
                                  old(Now()).DidAll(files, p.recvActs).Pends()))
    {
      hide Lived, PhaseOf, Orderly, Region, Buff.Valid, Buff.Contents, Ledger, Advance, FileRest, Held, Pending, Out;
      hide SendMatches, RecvMatches, SendStep, RecvStep, Lasts, Bufs.DidAll, SendCloses, Status;
      did, x := [], NotSent;
      AdvanceNone(files, Out(), FileRest(), FileRest());
      ghost var out, s, r := Out(), Now(), Incoming(ins);
      Assoc(recvBuff.Contents(), [], []);
      NothingSent(files, p, s);
      var up := Receive(ins);
      ghost var got := Now();
      if !up {
        RecvCut(files, recvBuff.initSize, r, p, s);
        return;
      }
      SameButReceived(s, got, files, p.recvActs);
      x := Answer(k, p);
      did := p.recvActs + DidOf(x);
      RecvDone(files, recvBuff.initSize, r, p, s, x, Now());
      if x.NotSent? && fd >= 0 {
        AnswerMatches(p.recvRet, r.InAgain?, old(wantOut), s.DidAll(files, p.recvActs).Pends());
      }
    }

    /** do_recv; `did` is what the callbacks did, and x how a do_send went that svc_recv asked
        for.  The write interest goes with pending output exactly as the last clause says. */
    method DoRecv(k: Kernel, ins: seq<In>, p: Plugin) returns (ghost did: seq<Act>, ghost x: Sending)
      requires Valid() && (fd < 0 || PhaseOf(life) == Up)
      modifies this`fd, this`wantOut, this`wire, this`life, this`sendLen, k
      modifies this`acts, this`dropped, this`inTurn, this`astray
      modifies sendBuff, sendBuff.data, recvBuff, recvBuff.data
      ensures Valid() && (fd < 0 || PhaseOf(life) == Up) && old(life) <= life && old(wire) <= wire
      ensures old(fd) < 0 ==> fd < 0 && did == [] && x == NotSent && Seen() == old(Seen())
      ensures old(fd) >= 0 ==> RecvStep(files, recvBuff.initSize, Incoming(ins), p, old(Now()), x, did, Now())
      ensures old(fd) >= 0 ==> (fd < 0 <==> RecvCloses(recvBuff.initSize, Incoming(ins), p, x))
      ensures x.NotSent? ==> wire == old(wire)
      ensures Asked(x, old(k.script))
      ensures k.script == if x.NotSent? then old(k.script)
                          else BehindSend(old(Now()).DidAll(files, p.recvActs), old(k.script))
      ensures fd >= 0 ==> wantOut == RecvWant(p.recvRet, Incoming(ins).InAgain?, old(wantOut), x)
      ensures fd >= 0 && x.NotSent? && p.recvRet != RECV_OTHER ==>
                (wantOut <==> p.recvRet == RECV_ADD_EPOLLOUT || p.recvRet == RECV_ADD_EPOLLALL)
      ensures var r := Incoming(ins);
        old(fd) >= 0 ==>
          (fd < 0 <==>
           || (r.Arrived? && (r.d == [] || |r.d| == recvBuff.initSize)) || r.InFault?
           || p.recvRet == RECV_CLOSE
           || (x.SentWith? && (x.ret == SEND_CLOSE || (x.ret == SEND_ADD_EPOLLIN && p.close))))
      ensures acts == old(acts) + did
      ensures Advance(files, old(Out()), old(FileRest()), did, Out(), FileRest())
      ensures sendBuff.data == old(sendBuff.data) || fresh(sendBuff.data)
      ensures recvBuff.data == old(recvBuff.data) || fresh(recvBuff.data)
      ensures fd >= 0 ==>
                ((wantOut <==> HasPending()) <==>
                 if x.SentWith? then SendMatches(x)
                 else RecvMatches(p.recvRet, Incoming(ins).InAgain?, old(wantOut),
                                  old(Now()).DidAll(files, p.recvActs).Pends()))
    {
      hide Lived, PhaseOf, Region, Buff.Valid, Buff.Contents, Ledger, Advance, FileRest, Held, Pending, Out, Status;
      hide SendMatches, RecvMatches, SendStep, RecvStep, RecvCloses, RecvWant, Bufs.DidAll, Bufs.Pends, BehindSend;
      did, x := [], NotSent;
      AdvanceNone(files, Out(), FileRest(), FileRest());
      assert acts + [] == acts;
      if fd >= 0 {
        did, x := RecvOpen(k, ins, p);
        RecvClosesWhen(recvBuff.initSize, Incoming(ins), p, x);
        RecvWantWhen(p.recvRet, Incoming(ins).InAgain?, old(wantOut));
      }
    }

    /** The read half of do_process. */
    method ReadHalf(k: Kernel, readable: bool, ins: seq<In>, p: Plugin) returns (ghost did: seq<Act>, ghost x: Sending)
      requires Valid() && (fd < 0 || PhaseOf(life) == Up)
      modifies this`fd, this`wantOut, this`wire, this`life, this`sendLen, k
      modifies this`acts, this`dropped, this`inTurn, this`astray
      modifies sendBuff, sendBuff.data, recvBuff, recvBuff.data
      ensures Valid() && (fd < 0 || PhaseOf(life) == Up) && old(life) <= life && old(wire) <= wire
      ensures !readable || old(fd) < 0 ==>
                did == [] && x == NotSent && Seen() == old(Seen()) && (fd < 0 <==> old(fd) < 0)
                && wantOut == old(wantOut) && HasPending() == old(HasPending())
      ensures readable && old(fd) >= 0 ==>
                && RecvStep(files, recvBuff.initSize, Incoming(ins), p, old(Now()), x, did, Now())
                && (fd < 0 <==> RecvCloses(recvBuff.initSize, Incoming(ins), p, x))
      ensures Asked(x, old(k.script))
      ensures k.script == if x.NotSent? then old(k.script)
                          else BehindSend(old(Now()).DidAll(files, p.recvActs), old(k.script))
      ensures acts == old(acts) + did
      ensures Advance(files, old(Out()), old(FileRest()), did, Out(), FileRest())
      ensures sendBuff.data == old(sendBuff.data) || fresh(sendBuff.data)
      ensures recvBuff.data == old(recvBuff.data) || fresh(recvBuff.data)
      ensures readable && fd >= 0 ==>
                && wantOut == RecvWant(p.recvRet, Incoming(ins).InAgain?, old(wantOut), x)
                && ((wantOut <==> HasPending()) <==>
                    if x.SentWith? then SendMatches(x)
                    else RecvMatches(p.recvRet, Incoming(ins).InAgain?, old(wantOut),
                                     old(Now()).DidAll(files, p.recvActs).Pends()))
    {
      hide Lived, PhaseOf, Region, Buff.Valid, Buff.Contents, Status, Ledger, Advance, FileRest, Held, Pending, Out;
      hide SendMatches, RecvMatches, RecvStep, RecvCloses, RecvWant, BehindSend, Bufs.Pends, Bufs.DidAll;
      did, x := [], NotSent;
      AdvanceNone(files, Out(), FileRest(), FileRest());
      assert acts + [] == acts;
      if readable {
        did, x := DoRecv(k, ins, p);
      }
    }

    /** The write half of do_process. */
    method WriteHalf(k: Kernel, writable: bool, q: Plugin) returns (ghost y: Sending)
      requires Valid() && (fd < 0 || PhaseOf(life) == Up)
      modifies this`fd, this`wantOut, this`wire, this`life, this`sendLen, k
      modifies this`acts, this`dropped, this`inTurn, this`astray
      modifies sendBuff, sendBuff.data, recvBuff, recvBuff.data
      ensures Valid() && (fd < 0 || PhaseOf(life) == Up) && old(life) <= life && old(wire) <= wire
      ensures (y.SentWith? <==> writable && old(fd) >= 0) && Asked(y, old(k.script))
      ensures y.NotSent? ==> Seen() == old(Seen()) && wantOut == old(wantOut) && HasPending() == old(HasPending())
      ensures fd < 0 <==> old(fd) < 0 || SendCloses(q, y)
      ensures y.SentWith? && fd >= 0 ==>
                (wantOut <==> y.ret == SEND_ADD_EPOLLOUT) && ((wantOut <==> HasPending()) <==> SendMatches(y))
      ensures acts == old(acts) + DidOf(y) && SendStep(files, q, old(Now()), y, Now())
      ensures Advance(files, old(Out()), old(FileRest()), DidOf(y), Out(), FileRest())
      ensures sendBuff.data == old(sendBuff.data) || fresh(sendBuff.data)
      ensures recvBuff.data == old(recvBuff.data) || fresh(recvBuff.data)
    {
      hide Lived, PhaseOf, Region, Buff.Valid, Buff.Contents, Status, Ledger, Advance, FileRest, Held, Pending, Out;
      hide SendMatches, SendStep, SendCloses, BehindSend, Bufs.Pends, Bufs.DidAll;
      y := NotSent;
      AdvanceNone(files, Out(), FileRest(), FileRest());
      NothingSent(files, q, Now());
      assert acts + [] == acts;
      if writable {
        y := DoSend(k, q);
      }
    }

    /** The two halves of do_process: a slot that the read half closed is left alone by the write
        half. */
    method ReadAndWrite(k: Kernel, readable: bool, writable: bool, ins: seq<In>, p: Plugin, q: Plugin)
      returns (ghost e: Handling)
      requires readable || writable
      requires Valid() && (fd < 0 || PhaseOf(life) == Up)
      modifies this`fd, this`wantOut, this`wire, this`life, this`sendLen, k
      modifies this`acts, this`dropped, this`inTurn, this`astray
      modifies sendBuff, sendBuff.data, recvBuff, recvBuff.data
      ensures Valid() && (fd < 0 || PhaseOf(life) == Up) && old(life) <= life && old(wire) <= wire
      ensures old(fd) < 0 ==> fd < 0 && Seen() == old(Seen()) && e.Did() == []
      ensures old(fd) >= 0 ==>
                EventStep(files, recvBuff.initSize, readable, writable, Incoming(ins), p, q, old(Now()), e, Now())
      ensures old(fd) >= 0 ==>
                (fd < 0 <==> EventCloses(recvBuff.initSize, readable, writable, Incoming(ins), p, q, e))
      ensures fd >= 0 ==> wantOut == EventWant(p, Incoming(ins).InAgain?, old(wantOut), e)
      ensures Asked(e.x, old(k.script))
      ensures Asked(e.y, if e.x.NotSent? then old(k.script)
                         else BehindSend(old(Now()).DidAll(files, p.recvActs), old(k.script)))
      ensures acts == old(acts) + e.Did()
      ensures Advance(files, old(Out()), old(FileRest()), e.Did(), Out(), FileRest())
      ensures sendBuff.data == old(sendBuff.data) || fresh(sendBuff.data)
      ensures recvBuff.data == old(recvBuff.data) || fresh(recvBuff.data)
      ensures fd >= 0 ==>
                ((wantOut <==> HasPending()) <==>
                 EventMatches(files, Incoming(ins).InAgain?, p, old(Now()), old(wantOut), e))
    {
      hide Lived, PhaseOf, Orderly, Region, Buff.Valid, Buff.Contents, Ledger, Advance, FileRest, Held, Pending, Out;
      hide SendMatches, RecvMatches, SendStep, RecvStep, RecvCloses, RecvWant, Bufs.DidAll, HasPending;
      hide BehindSend, SendCloses, Bufs.Pends, Status, Now, EventStep, EventCloses;
      ghost var out, rest, s, first, x, y: Sending := Out(), FileRest(), Now(), [], NotSent, NotSent;
      first, x := ReadHalf(k, readable, ins, p);
      ghost var out1, rest1, mid := Out(), FileRest(), Now();
      y := WriteHalf(k, writable, q);
      e := Handling(first, x, mid, y);
      if old(fd) >= 0 {
        EventDone(files, recvBuff.initSize, readable, writable, Incoming(ins), p, q, s, e, Now());
      }
      AdvanceChain(files, out, rest, first, out1, rest1, DidOf(y), Out(), FileRest());
    }

    /** do_process: an event that is neither readable nor writable closes the slot. */
    method DoProcess(k: Kernel, readable: bool, writable: bool, ins: seq<In>, p: Plugin, q: Plugin)
      returns (ghost e: Handling)
      requires Valid() && (fd < 0 || PhaseOf(life) == Up)
      modifies this`fd, this`wantOut, this`wire, this`life, this`sendLen, k
      modifies this`acts, this`dropped, this`inTurn, this`astray
      modifies sendBuff, sendBuff.data, recvBuff, recvBuff.data
      ensures Valid() && (fd < 0 || PhaseOf(life) == Up) && old(life) <= life && old(wire) <= wire
      ensures old(fd) < 0 ==> fd < 0 && Seen() == old(Seen()) && e.Did() == []
      ensures old(fd) >= 0 ==>
                EventStep(files, recvBuff.initSize, readable, writable, Incoming(ins), p, q, old(Now()), e, Now())
      ensures old(fd) >= 0 ==>
                (fd < 0 <==> EventCloses(recvBuff.initSize, readable, writable, Incoming(ins), p, q, e))
      ensures !readable && !writable ==> fd < 0
      ensures old(fd) >= 0 ==>
                (e.y.SentWith? <==> writable && !(readable && RecvCloses(recvBuff.initSize, Incoming(ins), p, e.x)))
      ensures fd >= 0 ==> wantOut == EventWant(p, Incoming(ins).InAgain?, old(wantOut), e)
      ensures Asked(e.x, old(k.script))
      ensures Asked(e.y, if e.x.NotSent? then old(k.script)
                         else BehindSend(old(Now()).DidAll(files, p.recvActs), old(k.script)))
      ensures acts == old(acts) + e.Did()
      ensures Advance(files, old(Out()), old(FileRest()), e.Did(), Out(), FileRest())
      ensures sendBuff.data == old(sendBuff.data) || fresh(sendBuff.data)
      ensures recvBuff.data == old(recvBuff.data) || fresh(recvBuff.data)
      ensures fd >= 0 ==>
                ((wantOut <==> HasPending()) <==>
                 EventMatches(files, Incoming(ins).InAgain?, p, old(Now()), old(wantOut), e))
    {
      hide Lived, PhaseOf, Orderly, Region, Buff.Valid, Buff.Contents, Ledger, Advance, FileRest, Held, Pending, Out;
      hide SendMatches, RecvMatches, SendStep, RecvStep, EventMatches, Bufs.DidAll, HasPending;
      if !readable && !writable {
        ghost var s := Now();
        AdvanceNone(files, Out(), s.rest, s.rest);
        NothingSent(files, q, s);
        DoClose();
        e := Handling([], NotSent, s, NotSent);
        return;
      }
      e := ReadAndWrite(k, readable, writable, ins, p, q);
    }
  }

  // ---------------------------------------------------------------- runs

  /** What may happen on a slot.  Accept returns a descriptor only while it is free, and the
      plugin may refuse the connection, which closes the socket without touching the slot.  An
      event is delivered only for a descriptor that was registered.  The plugin may write or
      close at any time. */
  datatype Op =
    | Accept(refused: bool)
    | Ready(readable: bool, writable: bool, ins: seq<In>, p: Plugin, q: Plugin)
    | Write(more: seq<Act>, out: bool)
    | PluginClose

  /** What an event makes of an open slot: what is sent, left and lost, whether the slot stays open,
      and then its write interest, which goes with what is pending exactly when EventMatches says
      so. */
  ghost predicate Handled(files: map<int, seq<Byte>>, initSize: nat, v: View, op: Op, e: Handling, w: View)
    requires op.Ready?
  {
    var r := Incoming(op.ins);
    && EventStep(files, initSize, op.readable, op.writable, r, op.p, op.q, v.bufs, e, w.bufs)
    && w.acts == v.acts + e.Did() && w.mark == v.mark && v.life <= w.life && v.bufs.wire <= w.bufs.wire
    && PhaseOf(w.life) == (if EventCloses(initSize, op.readable, op.writable, r, op.p, op.q, e) then Shut else Up)
    && Advance(files, v.bufs.Out(), v.bufs.rest, e.Did(), w.bufs.Out(), w.bufs.rest)
    && (PhaseOf(w.life) == Up ==>
          && w.want == EventWant(op.p, r.InAgain?, v.want, e)
          && ((w.want <==> w.bufs.Pends()) <==> EventMatches(files, r.InAgain?, op.p, v.bufs, v.want, e)))
  }

  /** What each of them makes of a slot. */
  ghost predicate Follows(files: map<int, seq<Byte>>, initSize: nat, v: View, op: Op, w: View) {
    match op
    case Accept(refused) =>
      if refused || PhaseOf(v.life) == Up then w == v
      else w == View(v.life + [Opened], v.acts, |v.acts|, FRESH, false)
    case Ready(_, _, _, _, _) =>
      if PhaseOf(v.life) != Up then w == v else exists e :: Handled(files, initSize, v, op, e, w)
    case Write(more, out) =>
      w == v.(acts := v.acts + more, bufs := v.bufs.DidAll(files, more), want := out)
    case PluginClose =>
      w == if v.life != [] && PhaseOf(v.life) == Shut then v else v.(life := v.life + [Finalised] + [Closed])
  }

  /** Every step keeps the books: whatever the kernel and the plugin do, all that was handed over
      since the slot was opened is on the wire, pending, or was dropped with a region that another
      replaced; in order if every act was in turn, and out of order once one strayed. */
  lemma StepKeeps(files: map<int, seq<Byte>>, initSize: nat, v: View, op: Op, w: View)
    requires Kept(files, v.bufs, v.acts, v.mark) && Follows(files, initSize, v, op, w)
    ensures Kept(files, w.bufs, w.acts, w.mark)
  {
    hide Kept, EventStep, EventMatches, EventCloses, EventWant, Advance, Bufs.DidAll;
    match op
    case Accept(_) => FreshIsKept(files, v.acts);
    case Ready(readable, writable, ins, p, q) =>
      if PhaseOf(v.life) == Up {
        var e :| Handled(files, initSize, v, op, e, w);
        KeptEvent(files, initSize, readable, writable, Incoming(ins), p, q, v.bufs, e, w.bufs, v.acts, v.mark);
      }
    case Write(more, _) => KeptActs(files, v.bufs, v.acts, v.mark, more);
    case PluginClose =>
  }

  lemma FreshIsKept(files: map<int, seq<Byte>>, acts: seq<Act>)
    ensures Kept(files, FRESH, acts, |acts|)
  {
  }

  lemma {:induction false} RunKeeps(files: map<int, seq<Byte>>, initSize: nat, views: seq<View>, ops: seq<Op>)
    requires |views| == |ops| + 1 && Kept(files, views[0].bufs, views[0].acts, views[0].mark)
    requires forall i :: 0 <= i < |ops| ==> Follows(files, initSize, views[i], ops[i], views[i + 1])
    ensures Kept(files, views[|ops|].bufs, views[|ops|].acts, views[|ops|].mark)
    decreases |ops|
  {
    hide Kept, Follows;
    if ops != [] {
      var n := |ops| - 1;
      RunKeeps(files, initSize, views[..n + 1], ops[..n]);
      assert Follows(files, initSize, views[n], ops[n], views[n + 1]);
      StepKeeps(files, initSize, views[n], ops[n], views[n + 1]);
    }
  }

  /** The plugin does not close the slot before it is first opened. */
  predicate OpenedFirst(ops: seq<Op>) {
    ops == []
    || match ops[0] {
         case Accept(refused) => !refused || OpenedFirst(ops[1..])
         case PluginClose => false
         case _ => OpenedFirst(ops[1..])
       }
  }

  lemma OrderStep(files: map<int, seq<Byte>>, initSize: nat, ops: seq<Op>, i: nat, v: View, w: View)
    requires i < |ops| && Follows(files, initSize, v, ops[i], w) && Lived(v.life) && Lived(w.life) && v.life <= w.life
    requires if v.life != [] then Orderly(v.life) <==> OpenedFirst(ops)
             else OpenedFirst(ops) <==> OpenedFirst(ops[i..])
    ensures w.life == [] <==> v.life == [] && ops[i] != Accept(false) && !ops[i].PluginClose?
    ensures if w.life != [] then Orderly(w.life) <==> OpenedFirst(ops)
            else OpenedFirst(ops) <==> OpenedFirst(ops[i + 1..])
  {
    assert ops[i..][1..] == ops[i + 1..];
    NoLife();
    StrayIsLived();
    if v.life != [] {
      StrayKept(v.life, w.life);
    } else if ops[i] == Accept(false) {
      assert w.life == [Opened];
      OrderlyUnlessStray(w.life);
    } else if ops[i].PluginClose? {
      assert w.life == STRAY;
    }
  }

  /** Serves one of them; `used` tells whether the slot was opened or closed before. */
  method Serve(c: Conn, k: Kernel, op: Op, used: bool)
    requires c.Valid() && (used <==> c.life != [])
    modifies c, k, c.sendBuff, c.sendBuff.data, c.recvBuff, c.recvBuff.data
    ensures c.Valid() && Follows(c.files, c.recvBuff.initSize, old(c.Seen()), op, c.Seen()) && old(c.life) <= c.life
    ensures c.sendBuff.data == old(c.sendBuff.data) || fresh(c.sendBuff.data)
    ensures c.recvBuff.data == old(c.recvBuff.data) || fresh(c.recvBuff.data)
  {
    hide Lived, Orderly, Region, Buff.Valid, Buff.Contents, Conn.Ledger, Advance, EventStep, EventMatches;
    hide EventCloses, EventWant, Bufs.DidAll, Conn.FileRest, Conn.Held;
    match op {
      case Accept(refused) =>
        if !refused && (!used || c.fd < 0) {
          c.Open();
        }
      case Ready(readable, writable, ins, p, q) =>
        if used {
          ghost var v := c.Seen();
          ghost var e := c.DoProcess(k, readable, writable, ins, p, q);
          assert PhaseOf(v.life) == Up ==> Handled(c.files, c.recvBuff.initSize, v, op, e, c.Seen());
        }
      case Write(more, out) =>
        c.PluginWrite(more, out);
      case PluginClose =>
        c.DoClose();
    }
  }

  /** Any run of accepts, events, and writes and closes of the plugin on a slot takes the steps
      that Follows describes.  Its life is orderly exactly when it is opened before it is closed;
      then each opening is finalised and closed at most once, in that order.  What the plugin
      handed over since the last opening is on the wire or pending, but for the regions that others
      replaced; it is in order when every act was in turn, as all are when no files are handed
      over, and never in order again once one strayed. */
  method Drive(c: Conn, k: Kernel, ops: seq<Op>) returns (ghost views: seq<View>)
    requires c.Valid() && c.life == []
    modifies c, k, c.sendBuff, c.sendBuff.data, c.recvBuff, c.recvBuff.data
    ensures c.Valid()
    ensures |views| == |ops| + 1 && views[0] == old(c.Seen()) && views[|ops|] == c.Seen()
    ensures forall i :: 0 <= i < |ops| ==> Follows(c.files, c.recvBuff.initSize, views[i], ops[i], views[i + 1])
    ensures Orderly(c.life) <==> OpenedFirst(ops)
    ensures OpenedFirst(ops) ==>
              && Count(c.life, Opened) == Count(c.life, Closed) + (if PhaseOf(c.life) == Up then 1 else 0)
              && Count(c.life, Finalised) == Count(c.life, Closed)
    ensures c.mark <= |c.acts|
    ensures var handed := HandedBy(c.files, c.acts[c.mark..]);
      && multiset(c.Out()) + multiset(c.Now().dropped) == multiset(handed)
      && (c.inTurn || Plain(c.acts[c.mark..]) ==> c.Out() == handed)
      && (c.astray ==> c.Out() != handed)
    ensures c.sendBuff.given == GivenBy(c.acts) && c.sendBuff.Owned()
  {
    hide Lived, Orderly, Region, Buff.Contents, Conn.Ledger, Follows, PhaseOf;
    var used := false;
    views := [c.Seen()];
    for i := 0 to |ops|
      invariant c.Valid() && (used <==> c.life != [])
      invariant |views| == i + 1 && views[0] == old(c.Seen()) && views[i] == c.Seen()
      invariant forall j :: 0 <= j < i ==> Follows(c.files, c.recvBuff.initSize, views[j], ops[j], views[j + 1])
      invariant if used then Orderly(c.life) <==> OpenedFirst(ops) else OpenedFirst(ops) <==> OpenedFirst(ops[i..])
      invariant c.sendBuff.data == old(c.sendBuff.data) || fresh(c.sendBuff.data)
      invariant c.recvBuff.data == old(c.recvBuff.data) || fresh(c.recvBuff.data)
    {
      ghost var v := c.Seen();
      Serve(c, k, ops[i], used);
      views := views + [c.Seen()];
      OrderStep(c.files, c.recvBuff.initSize, ops, i, v, c.Seen());
      used := used || ops[i] == Accept(false) || ops[i].PluginClose?;
    }
    NoLife();
    if OpenedFirst(ops) { ClosedOncePerOpening(c.life); }
    c.ReadLedger();
  }

  // ---------------------------------------------------------------- cases

  /** Closing a slot that was never opened closes a descriptor that nothing opened. */
  method StrayClose(n: nat) returns (c: Conn)
    ensures c.life == STRAY && !Orderly(c.life)
    ensures Count(c.life, Closed) == 1 && Count(c.life, Opened) == 0
  {
    hide Lived, Orderly, PhaseOf, Conn.Ledger, Count;
    c := new Conn(n, 1, map[]);
    c.DoClose();
    assert c.life == STRAY;
    StrayIsLived();
    StrayCounts();
  }

  lemma StrayCounts()
    ensures Count(STRAY, Closed) == 1 && Count(STRAY, Opened) == 0
  {
    assert STRAY[..1] == [Finalised] && STRAY[..1][..0] == [];
  }

  /** An open slot with a byte to send. */
  method WithOutput(n: nat) returns (c: Conn)
    ensures fresh(c) && fresh(c.sendBuff) && fresh(c.recvBuff) && c.Valid() && PhaseOf(c.life) == Up
    ensures (c.sendBuff.data == null || fresh(c.sendBuff.data)) && (c.recvBuff.data == null || fresh(c.recvBuff.data))
    ensures c.HasPending() && c.recvBuff.initSize == 2
  {
    hide Lived, Conn.Ledger, Buff.Valid, Buff.Contents;
    c := new Conn(n, 2, map[]);
    NoLife();
    c.Open();
    hide Conn.Status, PhaseOf;
    c.SetClientData([1]);
  }

  /** The same, which the kernel would not take. */
  method Blocked(n: nat) returns (c: Conn, k: Kernel)
    ensures fresh(c) && fresh(k) && fresh(c.sendBuff) && fresh(c.recvBuff) && c.Valid() && PhaseOf(c.life) == Up
    ensures (c.sendBuff.data == null || fresh(c.sendBuff.data)) && (c.recvBuff.data == null || fresh(c.recvBuff.data))
    ensures c.HasPending() && c.wantOut && c.recvBuff.initSize == 2
  {
    hide Lived, PhaseOf, Conn.Ledger, Buff.Valid, Buff.Contents, Unsent, Conn.FileRest;
    c := WithOutput(n);
    k := new Kernel;
    k.script := [];
    var ret, m := c.Flush(k);
  }

  /** Output that the kernel would not take is waited for, until a recv finds nothing to read. */
  method Stalled(n: nat) returns (c: Conn)
    ensures c.Valid() && c.fd >= 0 && c.HasPending() && !c.wantOut
  {
    hide Conn.Status, Conn.Ledger, Buff.Valid, Buff.Contents, PhaseOf;
    var k;
    c, k := Blocked(n);
    var up := c.Receive([]);
  }

  /** The same happens when something was read and the plugin asks for read events only. */
  method StalledByAnswer(n: nat) returns (c: Conn)
    ensures c.Valid() && c.fd >= 0 && c.HasPending() && !c.wantOut
  {
    hide Conn.Ledger, Buff.Valid, Buff.Contents, Advance, SendStep;
    var k;
    c, k := Blocked(n);
    DidSnoc(c.Now(), c.files, [], Consume(0));
    ghost var did, x := c.DoRecv(k, [Arrived([7])], Plugin([], RECV_ADD_EPOLLIN, [], [], false));
  }

  /** A slot with a file of two bytes to send. */
  method WithFile(n: nat) returns (c: Conn)
    ensures fresh(c) && fresh(c.sendBuff) && fresh(c.recvBuff) && c.Valid() && c.files == map[5 := [1, 2]]
    ensures (c.sendBuff.data == null || fresh(c.sendBuff.data)) && (c.recvBuff.data == null || fresh(c.recvBuff.data))
    ensures c.wire == [] && c.sendBuff.Contents() == [] && c.FileRest() == [1, 2] && c.dropped == [] && c.inTurn
    ensures c.mark <= |c.acts| && HandedBy(c.files, c.acts[c.mark..]) == [1, 2]
  {
    hide Lived, Conn.Ledger, Buff.Valid, Buff.Contents;
    c := new Conn(n, 2, map[5 := [1, 2]]);
    NoLife();
    c.Open();
    hide Conn.Status, PhaseOf, HandedBy;
    HandedSince(c.files, c.acts, c.mark, QueueFile(5, 0, 2));
    NothingHanded(c.files);
    c.SetClientFd(5, 0, 2);
  }

  lemma ThreeBytes()
    ensures [3] + [1, 2] == [3, 1, 2] && [1, 2] + [3] == [1, 2, 3]
  {
  }

  /** set_client_data while nothing but a file region is pending. */
  method QueueInFront(c: Conn, d: seq<Byte>)
    requires c.Valid() && c.inTurn && c.sendBuff.Contents() == [] && d != [] && c.FileRest() != []
    requires d[0] != c.FileRest()[0]
    modifies c`acts, c`dropped, c`inTurn, c`astray, c.sendBuff`data, c.sendBuff`size, c.sendBuff`len, c.sendBuff.data
    ensures c.Valid() && c.Pending() == d + c.FileRest() && !c.inTurn && c.astray
    ensures c.mark <= |c.acts| && c.mark <= |old(c.acts)|
    ensures HandedBy(c.files, c.acts[c.mark..]) == HandedBy(c.files, old(c.acts)[c.mark..]) + d
  {
    hide Lived, PhaseOf, Conn.Status, Conn.Ledger, Buff.Valid, Buff.Contents, HandedBy;
    c.ReadLedger();
    HandedSince(c.files, c.acts, c.mark, Queue(d));
    assert [] + d == d;
    c.SetClientData(d);
  }

  /** Out of turn, a byte that is queued while a file is being sent overtakes the file. */
  method Overtaken(n: nat) returns (c: Conn)
    ensures c.Valid() && c.wire == [] && c.Pending() == [3, 1, 2]
    ensures HandedBy(c.files, c.acts[c.mark..]) == [1, 2, 3] && !c.inTurn && c.astray
  {
    hide *;
    c := WithFile(n);
    QueueInFront(c, [3]);
    ThreeBytes();
  }

  /** Out of turn, another file takes the place of one that is being sent. */
  method Replaced(n: nat) returns (c: Conn)
    ensures c.Valid() && c.wire == [] && c.Pending() == [2] && c.dropped == [1, 2]
    ensures HandedBy(c.files, c.acts[c.mark..]) == [1, 2, 2] && !c.inTurn && c.astray
  {
    hide Lived, PhaseOf, Conn.Ledger, Conn.Status, Buff.Valid, Buff.Contents, HandedBy;
    c := WithFile(n);
    HandedSince(c.files, c.acts, c.mark, QueueFile(5, 1, 1));
    c.SetClientFd(5, 1, 1);
  }

  // ---------------------------------------------------------------- who is told

  /** A slot with two bytes to send. */
  const TWO: Bufs := Bufs([], [1, 2], [], false, [], [], true, false)

  /** The same with two bytes of a file behind them. */
  const TWOANDFILE: Bufs := Bufs([], [1, 2], [3, 4], true, [], [], true, false)

  lemma DidOne(files: map<int, seq<Byte>>, s: Bufs, a: Act)
    ensures s.DidAll(files, [a]) == s.Did(files, a) && s.DidAll(files, []) == s
  {
    DidSnoc(s, files, [], a);
    assert [] + [a] == [a];
  }

  /** What is left when m of the two bytes go out. */
  lemma TakenFromTwo(m: nat, f: Ret, ret: SendRet, n: int, left: Bufs)
    requires 1 <= m <= 2 && Progress(TWO, Moved(m), f, ret, n, left)
    ensures left == Bufs([1, 2][..m], [1, 2][m..], [], false, [], [], true, false) && n > 0
    ensures ret == if m == 1 then SEND_ADD_EPOLLOUT else SEND_ADD_EPOLLIN
  {
    assert [] + [1, 2][..m] == [1, 2][..m];
  }

  /** svc_send_once is called when a part went out, and nothing else is. */
  lemma ToldOfPart(files: map<int, seq<Byte>>, p: Plugin, x: Sending, u: Bufs)
    requires SendStep(files, p, TWO, x, u) && x.SentWith? && x.o == Moved(1) && p.onceActs == [Queue([9])]
    ensures u == Bufs([1], [2, 9], [], false, [], [], true, false) && x.ret == SEND_ADD_EPOLLOUT
  {
    TakenFromTwo(1, x.f, x.ret, x.n, x.left);
    hide Progress, Unsent;
    DidOne(files, x.left, Queue([9]));
    hide Bufs.DidAll;
    assert x.did == [Queue([9])];
  }

  /** Both callbacks are called, svc_send_once first, when all went out. */
  lemma ToldOfAll(files: map<int, seq<Byte>>, p: Plugin, x: Sending, u: Bufs)
    requires SendStep(files, p, TWO, x, u) && x.SentWith? && x.o == Moved(2)
    requires p.onceActs == [Queue([9])] && p.sendActs == [Queue([8])]
    ensures u == Bufs([1, 2], [9, 8], [], false, [], [], true, false) && x.ret == SEND_ADD_EPOLLIN
  {
    TakenFromTwo(2, x.f, x.ret, x.n, x.left);
    hide Progress, Unsent;
    DidOne(files, x.left, Queue([9]));
    DidSnoc(x.left, files, [Queue([9])], Queue([8]));
    hide Bufs.DidAll;
    assert x.did == [Queue([9])] + [Queue([8])];
  }

  /** Nobody is told that the queue went out when a sendfile behind it would block. */
  lemma NotToldBeforeFile(files: map<int, seq<Byte>>, p: Plugin, x: Sending, u: Bufs)
    requires SendStep(files, p, TWOANDFILE, x, u) && x.SentWith? && x.o == Moved(2) && x.f == Again
    ensures u == Bufs([1, 2], [], [3, 4], true, [], [], true, false) && x.ret == SEND_ADD_EPOLLOUT
  {
    DidOne(files, u, Consume(0));
  }

  /** Nobody is told when nothing could be sent, nor when an error closes the slot. */
  lemma NotToldOfNothing(files: map<int, seq<Byte>>, p: Plugin, x: Sending, u: Bufs)
    requires SendStep(files, p, TWO, x, u) && x.SentWith? && !x.o.Moved?
    ensures u == TWO && x.ret == (if x.o.Again? then SEND_ADD_EPOLLOUT else SEND_CLOSE)
  {
    DidOne(files, u, Consume(0));
  }

  /** An open slot with two bytes to send. */
  method WithTwo(n: nat) returns (c: Conn)
    ensures fresh(c) && fresh(c.sendBuff) && fresh(c.recvBuff) && c.Valid() && PhaseOf(c.life) == Up
    ensures (c.sendBuff.data == null || fresh(c.sendBuff.data)) && (c.recvBuff.data == null || fresh(c.recvBuff.data))
    ensures c.Now() == TWO && c.fd >= 0
  {
    hide Lived, Conn.Ledger, Buff.Valid, Buff.Contents;
    c := new Conn(n, 2, map[]);
    NoLife();
    c.Open();
    hide Conn.Status, PhaseOf;
    assert [] + [1, 2] == [1, 2];
    c.SetClientData([1, 2]);
  }

  lemma FirstAnswer(r: Ret)
    requires !r.Intr?
    ensures Outcome([r]) == r
  {
  }

  /** The kernel takes one of them, and the plugin queues another byte when it is told. */
  method SentInPart(n: nat) returns (c: Conn)
    ensures c.Valid() && c.Now() == Bufs([1], [2, 9], [], false, [], [], true, false) && c.fd >= 0 && c.wantOut
  {
    hide Conn.Status, Conn.Ledger, Buff.Valid, Buff.Contents, PhaseOf, Advance, SendStep, Conn.Now, Conn.Seen;
    hide SendMatches, BehindSend, Conn.HasPending, Conn.Held, Conn.FileRest, Conn.Out, DidOf, Bufs.DidAll, Lived;
    c := WithTwo(n);
    var k := new Kernel;
    k.script := [Moved(1)];
    FirstAnswer(Moved(1));
    var p := Plugin([], RECV_OTHER, [Queue([9])], [Queue([8])], true);
    ghost var x := c.DoSend(k, p);
    ToldOfPart(c.files, p, x, c.Now());
  }
}
