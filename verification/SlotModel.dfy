/** What happens to a connection slot of network/vfs_so.c, as values: its life as the other side and
    the plugin see it, what the plugin does to its buffers, and the books of what was handed over,
    sent and pending. */
module SlotModel {
  import opened Common

  /** The part of a local file that a region names; a region may reach past the end. */
  function Region(files: map<int, seq<Byte>>, fd: int, off: nat, n: nat): seq<Byte> {
    if fd !in files || off >= |files[fd]| then []
    else if off + n <= |files[fd]| then files[fd][off..off + n]
    else files[fd][off..]
  }

  lemma RegionSplit(files: map<int, seq<Byte>>, fd: int, off: nat, n: nat, m: nat)
    requires m <= |Region(files, fd, off, n)|
    ensures m <= n
    ensures Region(files, fd, off, n) == Region(files, fd, off, n)[..m] + Region(files, fd, off + m, n - m)
  {
  }

  lemma RegionNone(files: map<int, seq<Byte>>, fd: int, off: nat)
    ensures Region(files, fd, off, 0) == []
  {
  }

  lemma RegionShorter(files: map<int, seq<Byte>>, fd: int, off: nat, n: nat, m: nat)
    requires m <= n
    ensures |Region(files, fd, off, n)| <= n
    ensures |Region(files, fd, off, m)| == if |Region(files, fd, off, n)| > m then m else |Region(files, fd, off, n)|
  {
  }

  // ---------------------------------------------------------------- the life of a slot

  /** What happens on a slot, as the other side and the plugin see it. */
  datatype Event = Opened | Sent(n: nat) | Got(n: nat) | Finalised | Closed

  datatype Phase = Shut | Up | Ending

  function PhaseOf(t: seq<Event>): Phase {
    if t == [] then Shut
    else
      match t[|t| - 1]
      case Opened => Up
      case Finalised => Ending
      case Closed => Shut
      case _ => PhaseOf(t[..|t| - 1])
  }

  /** Traffic happens only while the slot is open, an open slot is not opened again, and it is
      closed right after the plugin was told. */
  ghost predicate Orderly(t: seq<Event>) {
    t == []
    || (Orderly(t[..|t| - 1])
        && PhaseOf(t[..|t| - 1]) == match t[|t| - 1] { case Opened => Shut case Closed => Ending case _ => Up })
  }

  /** What do_close leaves of a slot that was never opened: its fd is 0 and passes for open. */
  const STRAY: seq<Event> := [Finalised, Closed]

  /** An orderly life, or one that goes on from a stray close. */
  ghost predicate Lived(t: seq<Event>) {
    t == [] || t == STRAY
    || (Lived(t[..|t| - 1])
        && PhaseOf(t[..|t| - 1]) == match t[|t| - 1] { case Opened => Shut case Closed => Ending case _ => Up })
  }

  /** The stray close is all that can be out of order. */
  lemma {:induction false} OrderlyUnlessStray(t: seq<Event>)
    requires Lived(t)
    ensures Orderly(t) <==> !(STRAY <= t)
  {
    if t != [] && t != STRAY {
      OrderlyUnlessStray(t[..|t| - 1]);
      assert STRAY <= t ==> STRAY <= t[..|t| - 1];
      if STRAY <= t { assert !Orderly(t[..|t| - 1]); }
    } else if t == STRAY {
      assert PhaseOf(t[..1][..0]) == Shut;
      assert !Orderly(t[..1]);
    }
  }

  /** do_close goes on from any life but leaves only that of an opened slot orderly. */
  lemma CloseLife(t: seq<Event>)
    requires Lived(t) && (t == [] || PhaseOf(t) == Up)
    ensures var u := t + [Finalised] + [Closed];
      Lived(u) && PhaseOf(u) == Shut && t <= u && (Orderly(u) <==> Orderly(t) && t != [])
  {
    hide Lived, Orderly;
    var u := t + [Finalised] + [Closed];
    if t == [] {
      assert u == STRAY;
      StrayIsLived();
    } else {
      hide PhaseOf;
      LivedSnoc(t, Finalised);
      LivedSnoc(t + [Finalised], Closed);
      StrayKept(t, u);
    }
  }

  lemma NoLife()
    ensures PhaseOf([]) == Shut && Orderly([])
  {
  }

  lemma StrayIsLived()
    ensures Lived(STRAY) && !Orderly(STRAY) && PhaseOf(STRAY) == Shut
  {
    OrderlyUnlessStray(STRAY);
  }

  lemma StrayKept(t: seq<Event>, u: seq<Event>)
    requires Lived(t) && Lived(u) && t != [] && t <= u
    ensures Orderly(t) <==> Orderly(u)
  {
    OrderlyUnlessStray(t);
    OrderlyUnlessStray(u);
    if |t| == 1 {
      assert t[..0] == [] && t[0] == Opened;
    }
  }

  function Count(t: seq<Event>, e: Event): nat {
    if t == [] then 0 else Count(t[..|t| - 1], e) + if t[|t| - 1] == e then 1 else 0
  }

  /** In an orderly life every opening is finalised and closed at most once. */
  lemma {:induction false} ClosedOncePerOpening(t: seq<Event>)
    requires Orderly(t)
    ensures Count(t, Opened) == Count(t, Closed) + if PhaseOf(t) == Shut then 0 else 1
    ensures Count(t, Finalised) == Count(t, Closed) + if PhaseOf(t) == Ending then 1 else 0
  {
    if t != [] {
      ClosedOncePerOpening(t[..|t| - 1]);
    }
  }

  lemma LivedSnoc(t: seq<Event>, e: Event)
    requires Lived(t)
    requires PhaseOf(t) == match e { case Opened => Shut case Closed => Ending case _ => Up }
    ensures Lived(t + [e]) && t <= t + [e]
    ensures PhaseOf(t + [e])
         == match e { case Opened => Up case Finalised => Ending case Closed => Shut case _ => PhaseOf(t) }
  {
    assert (t + [e])[..|t|] == t;
  }

  // ---------------------------------------------------------------- what the plugin does

  /** What the plugin does to the slot's buffers during one of its callbacks. */
  datatype Act = Queue(d: seq<Byte>) | QueueFile(localfd: int, off: nat, n: nat) | Consume(m: nat)

  /** How a recv ends. */
  datatype In = Arrived(d: seq<Byte>) | InIntr | InAgain | InFault

  datatype RecvRet =
    | RECV_CLOSE | RECV_ADD_EPOLLIN | RECV_ADD_EPOLLOUT | RECV_ADD_EPOLLALL | RECV_SEND | RECV_OTHER

  /** What the plugin's callbacks do and return while one event is handled. */
  datatype Plugin = Plugin(recvActs: seq<Act>, recvRet: RecvRet, onceActs: seq<Act>, sendActs: seq<Act>, close: bool)

  datatype SendRet = SEND_CLOSE | SEND_ADD_EPOLLIN | SEND_ADD_EPOLLOUT

  lemma Assoc(a: seq<Byte>, b: seq<Byte>, c: seq<Byte>)
    ensures a + (b + c) == (a + b) + c && a + [] == a
  {
  }

  /** How a recv that is retried while it is interrupted ends. */
  function Incoming(ins: seq<In>): (r: In)
    ensures !r.InIntr?
  {
    if ins == [] then InAgain else if ins[0].InIntr? then Incoming(ins[1..]) else ins[0]
  }

  /** A recv is made again for as long as it is interrupted. */
  lemma {:induction false} RecvRetried(ins: seq<In>, n: nat)
    requires n <= |ins| && forall i :: 0 <= i < n ==> ins[i].InIntr?
    ensures n == |ins| ==> Incoming(ins) == InAgain
    ensures n < |ins| && !ins[n].InIntr? ==> Incoming(ins) == ins[n]
  {
    if n > 0 {
      RecvRetried(ins[1..], n - 1);
    }
  }

  /** The connection survives a recv that ends so: some bytes, but not a full buffer of them,
      or nothing to read at present. */
  predicate Lasts(r: In, initSize: nat) {
    r.InAgain? || (r.Arrived? && 0 < |r.d| && |r.d| != initSize)
  }

  function Bytes(r: In): seq<Byte> { if r.Arrived? then r.d else [] }

  // ---------------------------------------------------------------- what is handed over

  /** What an act hands over to be sent. */
  function Handed(files: map<int, seq<Byte>>, a: Act): seq<Byte> {
    match a
    case Queue(d) => d
    case QueueFile(localfd, off, n) => if localfd >= 0 then Region(files, localfd, off, n) else []
    case Consume(_) => []
  }

  function HandedBy(files: map<int, seq<Byte>>, acts: seq<Act>): seq<Byte> {
    if acts == [] then [] else HandedBy(files, acts[..|acts| - 1]) + Handed(files, acts[|acts| - 1])
  }

  /** What an act makes of the rest of the file region, f. */
  function RegionNow(files: map<int, seq<Byte>>, f: seq<Byte>, a: Act): seq<Byte> {
    if a.QueueFile? then Handed(files, a) else f
  }

  /** What an act drops: a region takes the place of the one before it. */
  function Dropped(f: seq<Byte>, a: Act): seq<Byte> { if a.QueueFile? then f else [] }

  /** An act is in turn when it meets no rest f of a file region: bytes are queued in front of
      the rest, and a new region replaces it. */
  predicate InTurn(f: seq<Byte>, a: Act) {
    match a
    case Queue(d) => d == [] || f == []
    case QueueFile(_, _, _) => f == []
    case Consume(_) => true
  }

  /** An act out of turn that shows: the bytes that overtake begin differently, or the rest of
      a region is dropped. */
  predicate Strays(f: seq<Byte>, a: Act) {
    match a
    case Queue(d) => d != [] && f != [] && d[0] != f[0]
    case QueueFile(_, _, _) => f != []
    case Consume(_) => false
  }

  /** The bytes that an act appends to the send queue. */
  function Queued(a: Act): seq<Byte> { if a.Queue? then a.d else [] }

  /** What an act leaves of the received bytes c. */
  function LeftNow(c: seq<Byte>, a: Act): seq<Byte> {
    if !a.Consume? then c else if a.m >= |c| then [] else c[a.m..]
  }

  function QueuedBy(acts: seq<Act>): seq<Byte> {
    if acts == [] then [] else QueuedBy(acts[..|acts| - 1]) + Queued(acts[|acts| - 1])
  }

  /** Whether a file region is held after acts, when `held` tells whether one was before. */
  function HeldNow(held: bool, a: Act): bool { if a.QueueFile? then a.localfd >= 0 && a.n > 0 else held }

  function HeldAfter(held: bool, acts: seq<Act>): bool {
    if acts == [] then held else HeldNow(HeldAfter(held, acts[..|acts| - 1]), acts[|acts| - 1])
  }

  /** No file is handed over. */
  predicate Plain(acts: seq<Act>) {
    forall i :: 0 <= i < |acts| ==> !acts[i].QueueFile?
  }

  /** The descriptors that acts hand over. */
  function GivenBy(acts: seq<Act>): seq<int> {
    if acts == [] then []
    else
      var a := acts[|acts| - 1];
      GivenBy(acts[..|acts| - 1]) + if a.QueueFile? && a.localfd >= 0 then [a.localfd] else []
  }

  /** The pending bytes after an act, when q is queued and f the rest of the region. */
  function PendingNow(files: map<int, seq<Byte>>, q: seq<Byte>, f: seq<Byte>, a: Act): seq<Byte> {
    q + Queued(a) + RegionNow(files, f, a)
  }

  /** An act in turn adds what it hands over at the end of what is to be sent. */
  lemma InTurnKeeps(files: map<int, seq<Byte>>, q: seq<Byte>, f: seq<Byte>, a: Act)
    requires InTurn(f, a)
    ensures PendingNow(files, q, f, a) == q + f + Handed(files, a)
  {
    var h, now := Handed(files, a), PendingNow(files, q, f, a);
    assert f == [] ==> now == q + f + h;
    assert h == [] && !a.QueueFile? ==> now == q + f + h;
  }

  /** Exactly the acts in turn do so whatever the file has at the place that is being sent. */
  lemma InTurnExactly(files: map<int, seq<Byte>>, q: seq<Byte>, f: seq<Byte>, a: Act)
    ensures (forall g :: |g| == |f| ==> PendingNow(files, q, g, a) == q + g + Handed(files, a)) <==> InTurn(f, a)
  {
    if InTurn(f, a) {
      forall g | |g| == |f|
        ensures PendingNow(files, q, g, a) == q + g + Handed(files, a)
      {
        InTurnKeeps(files, q, g, a);
      }
    } else {
      var b: Byte := if a.Queue? && a.d[0] == 0 then 1 else 0;
      var g := seq(|f|, _ => b);
      StrayShows(files, q, g, a);
    }
  }

  lemma StrayShows(files: map<int, seq<Byte>>, q: seq<Byte>, f: seq<Byte>, a: Act)
    requires Strays(f, a)
    ensures PendingNow(files, q, f, a) != q + f + Handed(files, a)
  {
    var h, now := Handed(files, a), PendingNow(files, q, f, a);
    match a
    case Queue(d) => assert now[|q|] == d[0] && (q + f + h)[|q|] == f[0];
    case QueueFile(_, _, _) => assert |now| == |q| + |h|;
  }

  /** In turn or not, an act loses nothing but the region it drops, and makes nothing up. */
  lemma NothingElseLost(files: map<int, seq<Byte>>, q: seq<Byte>, f: seq<Byte>, a: Act)
    ensures multiset(PendingNow(files, q, f, a)) + multiset(Dropped(f, a)) == multiset(q + f + Handed(files, a))
  {
    ThreeParts(q, Queued(a), RegionNow(files, f, a));
    ThreeParts(q, f, Handed(files, a));
    var none: seq<Byte> := [];
    assert multiset(none) == multiset{};
    match a
    case Queue(d) => assert multiset(q) + multiset(d) + multiset(f) == multiset(q) + multiset(f) + multiset(d);
    case QueueFile(_, _, _) =>
      var h := multiset(Handed(files, a));
      assert multiset(q) + multiset{} + h + multiset(f) == multiset(q) + multiset(f) + h;
    case Consume(_) =>
  }

  lemma Weigh(w: multiset<Byte>, now: multiset<Byte>, gone: multiset<Byte>, before: multiset<Byte>,
              more: multiset<Byte>, dropped: multiset<Byte>, handed: multiset<Byte>)
    requires now + gone == before + more && (w + before) + dropped == handed
    ensures (w + now) + (dropped + gone) == handed + more
  {
    var l, r := (w + now) + (dropped + gone), handed + more;
    forall b
      ensures l[b] == r[b]
    {
      assert (now + gone)[b] == (before + more)[b] && ((w + before) + dropped)[b] == handed[b];
    }
  }

  lemma ThreeParts(a: seq<Byte>, b: seq<Byte>, c: seq<Byte>)
    ensures multiset(a + b + c) == multiset(a) + multiset(b) + multiset(c)
  {
  }

  lemma LogSnoc(files: map<int, seq<Byte>>, acts: seq<Act>, a: Act)
    ensures HandedBy(files, acts + [a]) == HandedBy(files, acts) + Handed(files, a)
    ensures GivenBy(acts + [a]) == GivenBy(acts) + if a.QueueFile? && a.localfd >= 0 then [a.localfd] else []
    ensures Plain(acts + [a]) <==> Plain(acts) && !a.QueueFile?
  {
    assert (acts + [a])[..|acts|] == acts;
    assert forall i :: 0 <= i < |acts| ==> acts[i] == (acts + [a])[i];
    assert Plain(acts + [a]) ==> !(acts + [a])[|acts|].QueueFile?;
  }

  lemma HandedSince(files: map<int, seq<Byte>>, acts: seq<Act>, mark: nat, a: Act)
    requires mark <= |acts|
    ensures HandedBy(files, (acts + [a])[mark..]) == HandedBy(files, acts[mark..]) + Handed(files, a)
  {
    assert (acts + [a])[mark..] == acts[mark..] + [a];
    LogSnoc(files, acts[mark..], a);
  }

  lemma NothingHanded(files: map<int, seq<Byte>>)
    ensures HandedBy(files, []) == []
  {
  }

  lemma {:induction false} HandedJoin(files: map<int, seq<Byte>>, a: seq<Act>, b: seq<Act>)
    ensures HandedBy(files, a + b) == HandedBy(files, a) + HandedBy(files, b)
    decreases |b|
  {
    if b == [] {
      assert a + b == a;
    } else {
      var n := |b| - 1;
      HandedJoin(files, a, b[..n]);
      assert b == b[..n] + [b[n]] && a + b == (a + b[..n]) + [b[n]];
      hide HandedBy, Handed;
      LogSnoc(files, b[..n], b[n]);
      LogSnoc(files, a + b[..n], b[n]);
      Assoc(HandedBy(files, a), HandedBy(files, b[..n]), Handed(files, b[n]));
    }
  }

  /** All that is to be sent or was, `out`, against what was handed over: nothing is lost but
      what was dropped, nothing is sent twice, and the order is kept as long as every act was in
      turn. */
  ghost predicate Balanced(out: seq<Byte>, handed: seq<Byte>, dropped: seq<Byte>, inTurn: bool) {
    && multiset(out) + multiset(dropped) == multiset(handed)
    && (inTurn ==> out == handed)
  }

  lemma BalancedAct(files: map<int, seq<Byte>>, w: seq<Byte>, q: seq<Byte>, f: seq<Byte>, a: Act,
                    handed: seq<Byte>, dropped: seq<Byte>, inTurn: bool)
    requires Balanced(w + (q + f), handed, dropped, inTurn)
    ensures Balanced(w + PendingNow(files, q, f, a), handed + Handed(files, a), dropped + Dropped(f, a),
                     inTurn && InTurn(f, a))
  {
    var h, now := Handed(files, a), PendingNow(files, q, f, a);
    NothingElseLost(files, q, f, a);
    if InTurn(f, a) { InTurnKeeps(files, q, f, a); }
    hide Handed, PendingNow, Dropped, InTurn;
    assert multiset(w + now) == multiset(w) + multiset(now);
    assert multiset(q + f + h) == multiset(q + f) + multiset(h);
    assert multiset(w + (q + f)) == multiset(w) + multiset(q + f);
    assert multiset(handed + h) == multiset(handed) + multiset(h);
    assert multiset(dropped + Dropped(f, a)) == multiset(dropped) + multiset(Dropped(f, a));
    Weigh(multiset(w), multiset(now), multiset(Dropped(f, a)), multiset(q + f), multiset(h), multiset(dropped),
          multiset(handed));
    assert w + (q + f + h) == w + (q + f) + h;
  }

  /** What is to be sent or was differs from what was handed over, and will whatever follows:
      something is missing, or a byte differs in front of the rest of the file region, which is
      where bytes are queued. */
  ghost predicate Wrong(out: seq<Byte>, rest: seq<Byte>, handed: seq<Byte>) {
    |out| < |handed| || exists i :: 0 <= i < |out| - |rest| && i < |handed| && out[i] != handed[i]
  }

  lemma WrongSent(out: seq<Byte>, rest0: seq<Byte>, rest1: seq<Byte>, handed: seq<Byte>)
    requires Wrong(out, rest0, handed) && |rest1| <= |rest0|
    ensures Wrong(out, rest1, handed)
  {
  }

  lemma WrongAct(files: map<int, seq<Byte>>, w: seq<Byte>, q: seq<Byte>, f: seq<Byte>, a: Act, handed: seq<Byte>)
    requires Wrong(w + (q + f), f, handed)
    ensures Wrong(w + PendingNow(files, q, f, a), RegionNow(files, f, a), handed + Handed(files, a))
  {
    var out, now, h := w + (q + f), w + PendingNow(files, q, f, a), handed + Handed(files, a);
    if i :| 0 <= i < |out| - |f| && i < |handed| && out[i] != handed[i] {
      assert out == (w + q) + f && now == (w + q) + (Queued(a) + RegionNow(files, f, a));
      assert now[i] != h[i] && i < |now| - |RegionNow(files, f, a)|;
    }
  }

  /** The first act to stray makes it so, and so does every region that is dropped. */
  lemma WrongNow(files: map<int, seq<Byte>>, w: seq<Byte>, q: seq<Byte>, f: seq<Byte>, a: Act, handed: seq<Byte>,
                 dropped: seq<Byte>, inTurn: bool)
    requires Balanced(w + (q + f), handed, dropped, inTurn) && Strays(f, a) && (a.QueueFile? || inTurn)
    ensures Wrong(w + PendingNow(files, q, f, a), RegionNow(files, f, a), handed + Handed(files, a))
  {
    var out, now, h := w + (q + f), w + PendingNow(files, q, f, a), handed + Handed(files, a);
    if a.QueueFile? {
      assert |multiset(out)| == |out| && |multiset(dropped)| == |dropped| && |multiset(handed)| == |handed|;
      assert |multiset(out) + multiset(dropped)| == |out| + |dropped|;
    } else {
      var i := |w + q|;
      assert out == (w + q) + f && now == (w + q) + (a.d + f);
      assert now[i] == a.d[0] && h[i] == f[0];
    }
  }

  /** The books of a slot: what `acts` handed over behind `mark` is balanced by what is to be sent
      or was, in order when no files are handed over, out of order once an act strayed, and the
      send buffer was given their descriptors. */
  ghost predicate Booked(files: map<int, seq<Byte>>, out: seq<Byte>, rest: seq<Byte>, acts: seq<Act>, mark: nat,
                         given: seq<int>, dropped: seq<Byte>, inTurn: bool, astray: bool)
  {
    && mark <= |acts| && given == GivenBy(acts)
    && Balanced(out, HandedBy(files, acts[mark..]), dropped, inTurn)
    && (Plain(acts[mark..]) ==> inTurn && rest == [])
    && (astray ==> Wrong(out, rest, HandedBy(files, acts[mark..])))
  }

  lemma BookedFirst(files: map<int, seq<Byte>>)
    ensures Booked(files, [] + ([] + []), [], [], 0, [], [], true, false)
  {
  }

  lemma BookedAnew(files: map<int, seq<Byte>>, out: seq<Byte>, rest: seq<Byte>, acts: seq<Act>, mark: nat,
                   given: seq<int>, dropped: seq<Byte>, inTurn: bool, astray: bool)
    requires Booked(files, out, rest, acts, mark, given, dropped, inTurn, astray)
    ensures Booked(files, [] + ([] + []), [], acts, |acts|, given, [], true, false)
  {
  }

  lemma BookedSent(files: map<int, seq<Byte>>, out: seq<Byte>, rest0: seq<Byte>, rest1: seq<Byte>, acts: seq<Act>,
                   mark: nat, given: seq<int>, dropped: seq<Byte>, inTurn: bool, astray: bool)
    requires Booked(files, out, rest0, acts, mark, given, dropped, inTurn, astray) && |rest1| <= |rest0|
    ensures Booked(files, out, rest1, acts, mark, given, dropped, inTurn, astray)
  {
    hide HandedBy, GivenBy, Balanced, Plain, Wrong;
    if astray { WrongSent(out, rest0, rest1, HandedBy(files, acts[mark..])); }
  }

  lemma BookedAct(files: map<int, seq<Byte>>, w: seq<Byte>, q: seq<Byte>, f: seq<Byte>, acts: seq<Act>, mark: nat,
                  given: seq<int>, dropped: seq<Byte>, inTurn: bool, astray: bool, a: Act)
    requires Booked(files, w + (q + f), f, acts, mark, given, dropped, inTurn, astray)
    ensures Booked(files, w + (q + Queued(a) + RegionNow(files, f, a)), RegionNow(files, f, a), acts + [a], mark,
                   if a.QueueFile? && a.localfd >= 0 then given + [a.localfd] else given, dropped + Dropped(f, a),
                   inTurn && InTurn(f, a), astray || (Strays(f, a) && (a.QueueFile? || inTurn)))
  {
    hide HandedBy, GivenBy, Balanced, Plain, Handed, Dropped, Queued, RegionNow, Wrong, Strays;
    var since := acts[mark..];
    var handed := HandedBy(files, since);
    BalancedAct(files, w, q, f, a, handed, dropped, inTurn);
    if astray { WrongAct(files, w, q, f, a, handed); }
    if Strays(f, a) && (a.QueueFile? || inTurn) { WrongNow(files, w, q, f, a, handed, dropped, inTurn); }
    LogSnoc(files, acts, a);
    LogSnoc(files, since, a);
    assert (acts + [a])[mark..] == since + [a];
    assert !a.QueueFile? ==> InTurn([], a) && RegionNow(files, [], a) == [] by { PlainAct(files, a); }
  }

  lemma PlainAct(files: map<int, seq<Byte>>, a: Act)
    ensures !a.QueueFile? ==> InTurn([], a) && RegionNow(files, [], a) == []
  {
  }

  // ---------------------------------------------------------------- the buffers of a slot

  /** What was sent since the slot was opened, the byte queue, the rest of the file region and
      whether one is held, the received bytes, what acts dropped, and whether every act since the
      slot was opened was in turn, or one strayed. */
  datatype Bufs = Bufs(wire: seq<Byte>, queue: seq<Byte>, rest: seq<Byte>, held: bool, recv: seq<Byte>,
                       dropped: seq<Byte>, inTurn: bool, astray: bool)
  {
    predicate Pends() { queue != [] || held }

    /** All that is to be sent or was. */
    function Out(): seq<Byte> { wire + (queue + rest) }

    function Did(files: map<int, seq<Byte>>, a: Act): Bufs {
      Bufs(wire, queue + Queued(a), RegionNow(files, rest, a), HeldNow(held, a), LeftNow(recv, a),
           dropped + Dropped(rest, a), inTurn && InTurn(rest, a),
           astray || (Strays(rest, a) && (a.QueueFile? || inTurn)))
    }

    function DidAll(files: map<int, seq<Byte>>, acts: seq<Act>): Bufs {
      if acts == [] then this else DidAll(files, acts[..|acts| - 1]).Did(files, acts[|acts| - 1])
    }
  }

  /** The buffers of a slot that was just opened. */
  const FRESH: Bufs := Bufs([], [], [], false, [], [], true, false)

  lemma DidSnoc(s: Bufs, files: map<int, seq<Byte>>, acts: seq<Act>, a: Act)
    ensures s.DidAll(files, acts + [a]) == s.DidAll(files, acts).Did(files, a)
    ensures s.DidAll(files, []) == s
  {
    assert (acts + [a])[..|acts|] == acts;
  }

  lemma {:induction false} DidJoin(s: Bufs, files: map<int, seq<Byte>>, a: seq<Act>, b: seq<Act>)
    ensures s.DidAll(files, a + b) == s.DidAll(files, a).DidAll(files, b)
    decreases |b|
  {
    if b == [] {
      assert a + b == a;
    } else {
      var n := |b| - 1;
      DidJoin(s, files, a, b[..n]);
      assert (a + b)[..|a| + n] == a + b[..n] && (a + b)[|a| + n] == b[n];
      hide Bufs.Did;
    }
  }

  lemma {:induction false} DidParts(s: Bufs, files: map<int, seq<Byte>>, acts: seq<Act>)
    ensures s.DidAll(files, acts).queue == s.queue + QueuedBy(acts)
    ensures s.DidAll(files, acts).held == HeldAfter(s.held, acts)
  {
    if acts == [] {
      Assoc(s.queue, [], []);
    } else {
      var n := |acts| - 1;
      DidParts(s, files, acts[..n]);
      Assoc(s.queue, QueuedBy(acts[..n]), Queued(acts[n]));
    }
  }

  /** How many received bytes acts ask to be taken away. */
  function ConsumedBy(acts: seq<Act>): nat {
    if acts == [] then 0
    else
      var a := acts[|acts| - 1];
      ConsumedBy(acts[..|acts| - 1]) + if a.Consume? then a.m else 0
  }

  /** Received bytes are taken away from the front, as many as all acts together ask for, and
      nothing else becomes of them. */
  lemma {:induction false} ReceivedLeft(s: Bufs, files: map<int, seq<Byte>>, acts: seq<Act>)
    ensures var n := ConsumedBy(acts); s.DidAll(files, acts).recv == if n >= |s.recv| then [] else s.recv[n..]
  {
    if acts != [] {
      ReceivedLeft(s, files, acts[..|acts| - 1]);
    }
  }

  /** Without files, and with none pending, every act is in turn and goes into the queue. */
  lemma {:induction false} PlainInTurn(s: Bufs, files: map<int, seq<Byte>>, acts: seq<Act>)
    requires Plain(acts) && s.rest == []
    ensures var u := s.DidAll(files, acts);
      && u.queue == s.queue + HandedBy(files, acts) && u.rest == [] && u.held == s.held && u.wire == s.wire
      && u.dropped == s.dropped && u.inTurn == s.inTurn && u.astray == s.astray
  {
    if acts == [] {
      Assoc(s.queue, [], []);
    } else {
      Assoc(s.dropped, [], []);
      var n := |acts| - 1;
      PlainInTurn(s, files, acts[..n]);
      Assoc(s.queue, HandedBy(files, acts[..n]), Queued(acts[n]));
    }
  }

  /** With nothing pending a plugin may hand over a text and a file behind it. */
  lemma TextThenFile(s: Bufs, files: map<int, seq<Byte>>, d: seq<Byte>, localfd: int, off: nat, n: nat)
    requires s.rest == []
    ensures s.DidAll(files, [Queue(d), QueueFile(localfd, off, n)]).inTurn == s.inTurn
  {
    var text, file := Queue(d), QueueFile(localfd, off, n);
    DidSnoc(s, files, [], text);
    DidSnoc(s, files, [text], file);
    assert [] + [text] == [text] && [text] + [file] == [text, file];
  }

  /** With no file pending and none handed over, what is to be sent or was sent grows at its end
      by what was handed over. */
  ghost predicate Advance(files: map<int, seq<Byte>>, out0: seq<Byte>, rest0: seq<Byte>, did: seq<Act>,
                          out1: seq<Byte>, rest1: seq<Byte>)
  {
    rest0 == [] && Plain(did) ==> rest1 == [] && out1 == out0 + HandedBy(files, did)
  }

  lemma AdvanceNone(files: map<int, seq<Byte>>, out: seq<Byte>, rest0: seq<Byte>, rest1: seq<Byte>)
    requires rest0 == [] ==> rest1 == []
    ensures Advance(files, out, rest0, [], out, rest1)
  {
  }

  lemma AdvanceActs(files: map<int, seq<Byte>>, s: Bufs, acts: seq<Act>)
    ensures var u := s.DidAll(files, acts);
      Advance(files, s.Out(), s.rest, acts, u.Out(), u.rest)
  {
    if s.rest == [] && Plain(acts) {
      PlainInTurn(s, files, acts);
      hide HandedBy, Bufs.DidAll;
      var h := HandedBy(files, acts);
      assert s.wire + (s.queue + h + []) == s.wire + (s.queue + []) + h;
    }
  }

  lemma AdvanceChain(files: map<int, seq<Byte>>, out0: seq<Byte>, rest0: seq<Byte>, d: seq<Act>, out1: seq<Byte>,
                     rest1: seq<Byte>, e: seq<Act>, out2: seq<Byte>, rest2: seq<Byte>)
    requires Advance(files, out0, rest0, d, out1, rest1) && Advance(files, out1, rest1, e, out2, rest2)
    ensures Advance(files, out0, rest0, d + e, out2, rest2)
  {
    if rest0 == [] && Plain(d + e) {
      assert forall i :: 0 <= i < |d| ==> d[i] == (d + e)[i];
      assert forall i :: 0 <= i < |e| ==> e[i] == (d + e)[|d| + i];
      hide HandedBy;
      HandedJoin(files, d, e);
      Assoc(out0, HandedBy(files, d), HandedBy(files, e));
    }
  }

  // ---------------------------------------------------------------- events

  /** One of them is what is left of the other when its front is taken away. */
  predicate Suffix(a: seq<Byte>, b: seq<Byte>) { |a| <= |b| && a == b[|b| - |a|..] }

  /** How a send, sendfile or recv ends: some bytes moved, or one of the error classes. */
  datatype Ret = Moved(n: nat) | Intr | Again | Fault

  /** What do_send leaves of the buffers s before the callbacks: what left them went on the wire, in
      order; the file region is touched only when the queue has gone out; and all has gone out
      exactly when do_send asks for no more output events. */
  ghost predicate Unsent(s: Bufs, ret: SendRet, left: Bufs) {
    && left == s.(wire := left.wire, queue := left.queue, rest := left.rest, held := left.held)
    && left.Out() == s.Out() && s.wire <= left.wire
    && Suffix(left.queue, s.queue) && Suffix(left.rest, s.rest)
    && (left.queue != [] ==> left.rest == s.rest && left.held == s.held)
    && (ret == SEND_ADD_EPOLLIN ==> left.rest == [])
    && (ret != SEND_CLOSE ==> (ret == SEND_ADD_EPOLLOUT <==> left.Pends()))
  }

  /** sendfile is asked for no more at a time. */
  const GSIZE: nat := 1073741824

  /** How many of `most` bytes a call with that answer moves: at least one if it moves any. */
  function Took(r: Ret, most: nat): (n: nat)
    ensures n <= most && (n > 0 <==> r.Moved? && most > 0)
    ensures r.Moved? && 0 < r.n <= most ==> n == r.n
  {
    if !r.Moved? || most == 0 then 0 else if r.n == 0 then 1 else if r.n > most then most else r.n
  }

  /** What do_send makes of the buffers s before the callbacks, when o is the kernel's answer to the
      first call and f that to a sendfile behind a send: as much of the queue as is taken goes on the
      wire, and of the file region only behind all of the queue.  The number n that decides whether
      the plugin is told is that of the last call. */
  ghost predicate Progress(s: Bufs, o: Ret, f: Ret, ret: SendRet, n: int, left: Bufs) {
    var m := Took(o, |s.queue|);
    if m < |s.queue| then
      && left == s.(wire := s.wire + s.queue[..m], queue := s.queue[m..])
      && (n > 0 <==> m > 0)
      && ret == if o.Moved? || o.Again? then SEND_ADD_EPOLLOUT else SEND_CLOSE
    else
      FileProgress(s.(wire := s.wire + s.queue, queue := []), if s.queue == [] then o else f, s.queue != [],
                   ret, n, left)
  }

  /** The same from where the queue is empty; `some` tells whether a send emptied it. */
  ghost predicate FileProgress(s: Bufs, o: Ret, some: bool, ret: SendRet, n: int, left: Bufs) {
    var m := Took(o, if |s.rest| > GSIZE then GSIZE else |s.rest|);
    if !s.held then ret == SEND_ADD_EPOLLIN && left == s && (n > 0 <==> some)
    else
      && left == s.(wire := s.wire + s.rest[..m], rest := s.rest[m..], held := left.held)
      && (m < |s.rest| || m == 0 ==> left.held)
      && (n > 0 <==> m > 0)
      && ret == if m == 0 && !o.Again? then SEND_CLOSE else if left.held then SEND_ADD_EPOLLOUT else SEND_ADD_EPOLLIN
  }

  /** The first part of do_send, which ends it unless all of the queue went out and a file is held. */
  lemma QueuePart(s: Bufs, o: Ret, f: Ret, ret: SendRet, n: int, left: Bufs)
    requires s.held || s.rest == []
    requires var m := Took(o, |s.queue|); left == s.(wire := s.wire + s.queue[..m], queue := s.queue[m..])
    requires s.queue == [] ==> ret == SEND_ADD_EPOLLIN && n == 0
    requires s.queue != [] ==>
               && n == (if o.Moved? then Took(o, |s.queue|) else -1)
               && ret == match o {
                    case Moved(_) => if n < |s.queue| then SEND_ADD_EPOLLOUT else SEND_ADD_EPOLLIN
                    case Again => SEND_ADD_EPOLLOUT
                    case _ => SEND_CLOSE }
    ensures ret == SEND_ADD_EPOLLIN ==> left.queue == [] && left.wire == s.wire + s.queue
    ensures ret == SEND_ADD_EPOLLIN <==> Took(o, |s.queue|) == |s.queue|
    ensures !(ret == SEND_ADD_EPOLLIN && s.held) ==> Progress(s, o, f, ret, n, left) && Unsent(s, ret, left)
  {
    var m := Took(o, |s.queue|);
    assert s.wire + (s.queue + s.rest) == (s.wire + s.queue[..m]) + (s.queue[m..] + s.rest);
    assert left.queue == s.queue[m..] && left.rest == s.rest[0..];
  }

  lemma FilePart(s: Bufs, o: Ret, f: Ret, mid: Bufs, ret: SendRet, n: int, left: Bufs)
    requires s.held && Took(o, |s.queue|) == |s.queue| && mid == s.(wire := s.wire + s.queue, queue := [])
    requires var a := if s.queue == [] then o else f;
      var m := Took(a, if |s.rest| > GSIZE then GSIZE else |s.rest|);
      && left == s.(wire := mid.wire + s.rest[..m], queue := [], rest := s.rest[m..], held := left.held)
      && n == (if m > 0 then m else -1)
      && (m < |s.rest| || m == 0 ==> left.held) && (!left.held ==> left.rest == [])
      && ret == match a {
           case Moved(_) => if m == 0 then SEND_CLOSE else if left.held then SEND_ADD_EPOLLOUT else SEND_ADD_EPOLLIN
           case Again => SEND_ADD_EPOLLOUT
           case _ => SEND_CLOSE }
    ensures Progress(s, o, f, ret, n, left) && Unsent(s, ret, left)
  {
    var m := |s.rest| - |left.rest|;
    assert s.wire + (s.queue + s.rest) == ((s.wire + s.queue) + s.rest[..m]) + ([] + s.rest[m..]);
    assert left.queue == s.queue[|s.queue|..] && left.rest == s.rest[m..];
  }

  /** The last call that do_send made moved bytes: a sendfile, if a region was held when the queue
      was empty or had gone out, and otherwise a send. */
  predicate LastMoved(s: Bufs, left: Bufs) {
    if s.held && left.queue == [] then |left.rest| < |s.rest| else |left.queue| < |s.queue|
  }

  lemma ToldByLast(s: Bufs, o: Ret, f: Ret, ret: SendRet, n: int, left: Bufs)
    requires Progress(s, o, f, ret, n, left)
    ensures n > 0 <==> LastMoved(s, left)
  {
  }

  /** What do_send's callbacks do, given how the sending went. */
  function Callbacks(p: Plugin, ret: SendRet, n: int): seq<Act> {
    (if ret != SEND_CLOSE && n > 0 then p.onceActs else []) + if ret == SEND_ADD_EPOLLIN then p.sendActs else []
  }

  /** How a do_send went, if one was made: the kernel's answers, what was left unsent, and what the
      callbacks then did. */
  datatype Sending = NotSent | SentWith(o: Ret, f: Ret, ret: SendRet, n: int, left: Bufs, did: seq<Act>)

  function DidOf(x: Sending): seq<Act> { if x.NotSent? then [] else x.did }

  ghost predicate SendStep(files: map<int, seq<Byte>>, p: Plugin, s: Bufs, x: Sending, u: Bufs) {
    match x
    case NotSent => u == s
    case SentWith(o, f, ret, n, left, did) =>
      && Unsent(s, ret, left) && Progress(s, o, f, ret, n, left)
      && did == Callbacks(p, ret, n) && u == left.DidAll(files, did)
  }

  /** A do_send that closes the slot: for an error, or because the plugin says so. */
  predicate SendCloses(p: Plugin, x: Sending) {
    x.SentWith? && (x.ret == SEND_CLOSE || (x.ret == SEND_ADD_EPOLLIN && p.close))
  }

  /** What do_recv makes of the buffers when the recv ends with r. */
  ghost predicate RecvStep(files: map<int, seq<Byte>>, initSize: nat, r: In, p: Plugin, s: Bufs, x: Sending,
                           did: seq<Act>, u: Bufs)
  {
    var got := s.(recv := s.recv + Bytes(r));
    if !Lasts(r, initSize) then x == NotSent && did == [] && u == got
    else
      && did == p.recvActs + DidOf(x) && (x.NotSent? <==> p.recvRet != RECV_SEND)
      && SendStep(files, p, got.DidAll(files, p.recvActs), x, u)
  }

  predicate RecvCloses(initSize: nat, r: In, p: Plugin, x: Sending) {
    !Lasts(r, initSize) || p.recvRet == RECV_CLOSE || SendCloses(p, x)
  }

  lemma RecvClosesWhen(initSize: nat, r: In, p: Plugin, x: Sending)
    requires !r.InIntr?
    ensures RecvCloses(initSize, r, p, x) <==>
              || (r.Arrived? && (r.d == [] || |r.d| == initSize)) || r.InFault?
              || p.recvRet == RECV_CLOSE
              || (x.SentWith? && (x.ret == SEND_CLOSE || (x.ret == SEND_ADD_EPOLLIN && p.close)))
  {
  }

  /** The write interest that do_recv leaves on a slot that stays open. */
  predicate RecvWant(answer: RecvRet, nothing: bool, want: bool, x: Sending) {
    if x.SentWith? then x.ret == SEND_ADD_EPOLLOUT
    else
      match answer
      case RECV_ADD_EPOLLIN => false
      case RECV_OTHER => want && !nothing
      case _ => true
  }

  lemma RecvWantWhen(answer: RecvRet, nothing: bool, want: bool)
    ensures answer == RECV_ADD_EPOLLIN ==> !RecvWant(answer, nothing, want, NotSent)
    ensures answer == RECV_ADD_EPOLLOUT || answer == RECV_ADD_EPOLLALL ==> RecvWant(answer, nothing, want, NotSent)
  {
  }

  /** do_send leaves the write interest with what is pending: when all went out, the callbacks
      handed over no bytes and no file; when not, bytes were left or handed over, or the region
      that was left has not been replaced by an empty one. */
  predicate SendMatches(x: Sending)
    requires x.SentWith?
  {
    if x.ret == SEND_ADD_EPOLLIN then QueuedBy(x.did) == [] && !HeldAfter(false, x.did)
    else x.left.queue != [] || QueuedBy(x.did) != [] || HeldAfter(true, x.did)
  }

  lemma SendMatchesExactly(files: map<int, seq<Byte>>, p: Plugin, s: Bufs, x: Sending, u: Bufs)
    requires SendStep(files, p, s, x, u) && x.SentWith? && x.ret != SEND_CLOSE
    ensures (x.ret == SEND_ADD_EPOLLOUT <==> u.Pends()) <==> SendMatches(x)
  {
    DidParts(x.left, files, x.did);
    hide QueuedBy, HeldAfter, Bufs.DidAll, Suffix;
    var q := QueuedBy(x.did);
    assert x.left.queue + q != [] <==> x.left.queue != [] || q != [];
  }

  /** do_recv does so without do_send: what the plugin's answer asks for, or else the interest
      there was unless nothing was read, goes with whether something is pending. */
  predicate RecvMatches(answer: RecvRet, nothing: bool, want: bool, pends: bool) {
    match answer
    case RECV_ADD_EPOLLIN => !pends
    case RECV_OTHER => want && !nothing <==> pends
    case _ => pends
  }

  /** How an event went: what the callbacks of the read half did, the do_send that it asked for,
      the buffers between the halves, and the do_send of the write half. */
  datatype Handling = Handling(first: seq<Act>, x: Sending, mid: Bufs, y: Sending) {
    /** What all callbacks did. */
    function Did(): seq<Act> { first + DidOf(y) }
  }

  /** What do_process makes of the buffers of an open slot.  The write half sends exactly when
      output is possible and the read half has not closed the slot. */
  ghost predicate EventStep(files: map<int, seq<Byte>>, initSize: nat, readable: bool, writable: bool, r: In,
                            p: Plugin, q: Plugin, s: Bufs, e: Handling, u: Bufs)
  {
    && (if readable then RecvStep(files, initSize, r, p, s, e.x, e.first, e.mid)
        else e.x == NotSent && e.first == [] && e.mid == s)
    && SendStep(files, q, e.mid, e.y, u)
    && (e.y.SentWith? <==> writable && !(readable && RecvCloses(initSize, r, p, e.x)))
  }

  /** Whether the event closes the slot. */
  predicate EventCloses(initSize: nat, readable: bool, writable: bool, r: In, p: Plugin, q: Plugin, e: Handling) {
    || (!readable && !writable)
    || (readable && RecvCloses(initSize, r, p, e.x))
    || SendCloses(q, e.y)
  }

  /** The write interest after an event that leaves the slot open. */
  predicate EventWant(p: Plugin, nothing: bool, want: bool, e: Handling) {
    if e.y.SentWith? then e.y.ret == SEND_ADD_EPOLLOUT else RecvWant(p.recvRet, nothing, want, e.x)
  }

  /** Exactly when the write interest of a slot that is still open goes with pending output after
      an event: the last do_send decides, or the plugin's answer when there was none. */
  ghost predicate EventMatches(files: map<int, seq<Byte>>, nothing: bool, p: Plugin, s: Bufs, want: bool,
                               e: Handling)
  {
    if e.y.SentWith? then SendMatches(e.y)
    else if e.x.SentWith? then SendMatches(e.x)
    else RecvMatches(p.recvRet, nothing, want, s.DidAll(files, p.recvActs).Pends())
  }

  lemma EventDone(files: map<int, seq<Byte>>, initSize: nat, readable: bool, writable: bool, r: In, p: Plugin,
                  q: Plugin, s: Bufs, e: Handling, u: Bufs)
    requires readable || writable
    requires if readable then RecvStep(files, initSize, r, p, s, e.x, e.first, e.mid)
             else e.x == NotSent && e.first == [] && e.mid == s
    requires SendStep(files, q, e.mid, e.y, u)
    requires e.y.SentWith? <==> writable && !(readable && RecvCloses(initSize, r, p, e.x))
    ensures EventStep(files, initSize, readable, writable, r, p, q, s, e, u)
    ensures EventCloses(initSize, readable, writable, r, p, q, e)
       <==> (readable && RecvCloses(initSize, r, p, e.x)) || SendCloses(q, e.y)
  {
  }

  lemma SuffixSelf(a: seq<Byte>)
    ensures Suffix(a, a)
  {
  }

  lemma UnsentAll(s: Bufs, ret: SendRet, left: Bufs)
    requires Unsent(s, ret, left)
    ensures ret != SEND_CLOSE ==> (ret == SEND_ADD_EPOLLOUT <==> left.Pends())
    ensures ret == SEND_ADD_EPOLLIN ==> left.queue == [] && left.rest == []
  {
    hide Suffix;
  }

  lemma UnsentRest(s: Bufs, ret: SendRet, left: Bufs)
    requires Unsent(s, ret, left)
    ensures s.rest == [] ==> left.rest == []
  {
  }

  lemma NothingSent(files: map<int, seq<Byte>>, p: Plugin, s: Bufs)
    ensures SendStep(files, p, s, NotSent, s) && !SendCloses(p, NotSent)
  {
  }

  lemma NoSending(files: map<int, seq<Byte>>, p: Plugin, s: Bufs, x: Sending, u: Bufs)
    requires SendStep(files, p, s, x, u)
    ensures x.NotSent? ==> u == s
  {
  }

  /** What was received does not matter for what is pending. */
  lemma SameButReceived(s: Bufs, t: Bufs, files: map<int, seq<Byte>>, acts: seq<Act>)
    requires t == s.(recv := t.recv)
    ensures var u, v := s.DidAll(files, acts), t.DidAll(files, acts); u.queue == v.queue && u.held == v.held
  {
    DidParts(s, files, acts);
    DidParts(t, files, acts);
  }

  lemma AnswerMatches(answer: RecvRet, nothing: bool, want: bool, pends: bool)
    ensures (RecvWant(answer, nothing, want, NotSent) <==> pends) <==> RecvMatches(answer, nothing, want, pends)
  {
  }

  lemma RecvCut(files: map<int, seq<Byte>>, initSize: nat, r: In, p: Plugin, s: Bufs)
    requires !Lasts(r, initSize)
    ensures RecvStep(files, initSize, r, p, s, NotSent, [], s.(recv := s.recv + Bytes(r)))
  {
  }

  lemma RecvDone(files: map<int, seq<Byte>>, initSize: nat, r: In, p: Plugin, s: Bufs, x: Sending, u: Bufs)
    requires Lasts(r, initSize) && (x.NotSent? <==> p.recvRet != RECV_SEND)
    requires SendStep(files, p, s.(recv := s.recv + Bytes(r)).DidAll(files, p.recvActs), x, u)
    ensures RecvStep(files, initSize, r, p, s, x, p.recvActs + DidOf(x), u)
  {
  }

  // ---------------------------------------------------------------- the books over events

  /** The books of a slot, read off its buffers. */
  ghost predicate Kept(files: map<int, seq<Byte>>, s: Bufs, acts: seq<Act>, mark: nat) {
    Booked(files, s.Out(), s.rest, acts, mark, GivenBy(acts), s.dropped, s.inTurn, s.astray)
  }

  lemma KeptAct(files: map<int, seq<Byte>>, s: Bufs, acts: seq<Act>, mark: nat, a: Act)
    requires Kept(files, s, acts, mark)
    ensures Kept(files, s.Did(files, a), acts + [a], mark)
  {
    BookedAct(files, s.wire, s.queue, s.rest, acts, mark, GivenBy(acts), s.dropped, s.inTurn, s.astray, a);
    LogSnoc(files, acts, a);
    hide Booked, GivenBy, Queued, RegionNow, Dropped, InTurn, Strays, HandedBy;
    var none: seq<int> := [];
    assert GivenBy(acts) + none == GivenBy(acts);
  }

  lemma {:induction false} KeptActs(files: map<int, seq<Byte>>, s: Bufs, acts: seq<Act>, mark: nat, did: seq<Act>)
    requires Kept(files, s, acts, mark)
    ensures Kept(files, s.DidAll(files, did), acts + did, mark)
    decreases |did|
  {
    hide *;
    if did == [] {
      DidSnoc(s, files, [], Consume(0));
      JoinActs(acts, [], []);
    } else {
      var init, last := did[..|did| - 1], did[|did| - 1];
      assert did == init + [last];
      KeptActs(files, s, acts, mark, init);
      KeptAct(files, s.DidAll(files, init), acts + init, mark, last);
      DidSnoc(s, files, init, last);
      JoinActs(acts, init, [last]);
    }
  }

  lemma JoinActs(a: seq<Act>, b: seq<Act>, c: seq<Act>)
    ensures (a + b) + c == a + (b + c) && a + [] == a
  {
  }

  lemma KeptSend(files: map<int, seq<Byte>>, p: Plugin, s: Bufs, x: Sending, u: Bufs, acts: seq<Act>, mark: nat)
    requires Kept(files, s, acts, mark) && SendStep(files, p, s, x, u)
    ensures Kept(files, u, acts + DidOf(x), mark)
  {
    if x.NotSent? {
      assert acts + [] == acts;
    } else {
      hide Booked, Progress, Bufs.DidAll;
      BookedSent(files, s.Out(), s.rest, x.left.rest, acts, mark, GivenBy(acts), s.dropped, s.inTurn, s.astray);
      KeptActs(files, x.left, acts, mark, x.did);
    }
  }

  lemma KeptRecv(files: map<int, seq<Byte>>, initSize: nat, r: In, p: Plugin, s: Bufs, x: Sending, did: seq<Act>,
                 u: Bufs, acts: seq<Act>, mark: nat)
    requires Kept(files, s, acts, mark) && RecvStep(files, initSize, r, p, s, x, did, u)
    ensures Kept(files, u, acts + did, mark)
  {
    var got := s.(recv := s.recv + Bytes(r));
    assert Kept(files, got, acts, mark);
    hide Kept, SendStep, Bufs.DidAll;
    JoinActs(acts, p.recvActs, DidOf(x));
    if Lasts(r, initSize) {
      KeptActs(files, got, acts, mark, p.recvActs);
      KeptSend(files, p, got.DidAll(files, p.recvActs), x, u, acts + p.recvActs, mark);
    }
  }

  /** An event keeps the books, whatever the kernel and the plugin do. */
  lemma KeptEvent(files: map<int, seq<Byte>>, initSize: nat, readable: bool, writable: bool, r: In, p: Plugin,
                  q: Plugin, s: Bufs, e: Handling, u: Bufs, acts: seq<Act>, mark: nat)
    requires Kept(files, s, acts, mark)
    requires EventStep(files, initSize, readable, writable, r, p, q, s, e, u)
    ensures Kept(files, u, acts + e.Did(), mark)
  {
    hide Kept, SendStep, RecvStep, RecvCloses, DidOf;
    JoinActs(acts, e.first, DidOf(e.y));
    if readable { KeptRecv(files, initSize, r, p, s, e.x, e.first, e.mid, acts, mark); }
    KeptSend(files, q, e.mid, e.y, u, acts + e.first, mark);
  }
}
