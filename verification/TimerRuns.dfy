/** What the timer pool of network/vfs_timer.c does over whole runs of adds and scans. */
module TimerRuns {
  import opened DelayTask

  datatype Op =
    | Add(cur: int, cb: nat, args: string, span: int, loop: bool)
    | Scan(cur: int)

  function Step(p: Pool, op: Op): Pool {
    match op
    case Add(cur, cb, args, span, loop) => Added(p, cur, cb, args, span, loop)
    case Scan(cur) => Scanned(p, cur)
  }

  /** The pool after delay_task_init and the given calls. */
  function After(ops: seq<Op>): Pool {
    if ops == [] then Pool([], DEFAULT_MAX, DEFAULT_MAX, [], 0)
    else Step(After(ops[..|ops| - 1]), ops[|ops| - 1])
  }

  // ---------------------------------------------------------------- nodes

  /** The largest number of timers that were active at one time. */
  function Peak(ops: seq<Op>): nat {
    if ops == [] then 0
    else
      var before, now := Peak(ops[..|ops| - 1]), |After(ops).active|;
      if before > now then before else now
  }

  /** No node is lost, and nodes are allocated only for a new peak. */
  lemma {:induction false} NodesAllocated(ops: seq<Op>)
    ensures After(ops).free + |After(ops).active| == After(ops).made
    ensures After(ops).made == if Peak(ops) > 1024 then Peak(ops) else 1024
  {
    if ops != [] {
      NodesAllocated(ops[..|ops| - 1]);
    }
  }

  // ---------------------------------------------------------------- one timer

  function Only(ts: seq<Timer>, id: nat): seq<Timer> {
    if ts == [] then []
    else Only(ts[..|ts| - 1], id) + if ts[|ts| - 1].id == id then [ts[|ts| - 1]] else []
  }

  /** When the callback of timer id was called. */
  function Times(log: seq<Fire>, id: nat): seq<int> {
    if log == [] then []
    else
      var f := log[|log| - 1];
      Times(log[..|log| - 1], id) + if f.timer.id == id then [f.at] else []
  }

  /** What is to become of one timer, seen by itself: when it was called, whether it is still
      active, and the time after which it is due. */
  datatype Track = Track(times: seq<int>, live: bool, next: int)

  function Follow(ops: seq<Op>, t: Track, span: int, loop: bool): Track {
    if ops == [] then t
    else FollowOne(ops[|ops| - 1], Follow(ops[..|ops| - 1], t, span, loop), span, loop)
  }

  function FollowOne(op: Op, u: Track, span: int, loop: bool): Track {
    if op.Scan? && u.live && op.cur > u.next
    then Track(u.times + [op.cur], loop, op.cur + span)
    else u
  }

  ghost predicate IdsBelow(p: Pool) {
    && (forall i :: 0 <= i < |p.active| ==> p.active[i].id < p.issued)
    && (forall i :: 0 <= i < |p.log| ==> p.log[i].timer.id < p.issued)
  }

  lemma {:induction false} ScanIds(ts: seq<Timer>, cur: int, n: nat)
    requires forall i :: 0 <= i < |ts| ==> ts[i].id < n
    ensures forall i :: 0 <= i < |Kept(ts, cur)| ==> Kept(ts, cur)[i].id < n
    ensures forall i :: 0 <= i < |Fired(ts, cur)| ==> Fired(ts, cur)[i].timer.id < n
  {
    if ts != [] {
      ScanIds(ts[..|ts| - 1], cur, n);
    }
  }

  lemma {:induction false} IdsStayBelow(ops: seq<Op>)
    ensures IdsBelow(After(ops))
  {
    if ops != [] {
      var p := After(ops[..|ops| - 1]);
      IdsStayBelow(ops[..|ops| - 1]);
      ScanIds(p.active, ops[|ops| - 1].cur, p.issued);
    }
  }

  lemma {:induction false} OnlyNone(ts: seq<Timer>, id: nat)
    requires forall i :: 0 <= i < |ts| ==> ts[i].id != id
    ensures Only(ts, id) == []
  {
    if ts != [] {
      OnlyNone(ts[..|ts| - 1], id);
    }
  }

  lemma {:induction false} TimesNone(log: seq<Fire>, id: nat)
    requires forall i :: 0 <= i < |log| ==> log[i].timer.id != id
    ensures Times(log, id) == []
  {
    if log != [] {
      TimesNone(log[..|log| - 1], id);
    }
  }

  lemma {:induction false} OnlyCons(t: Timer, ts: seq<Timer>, id: nat)
    ensures Only([t] + ts, id) == (if t.id == id then [t] else []) + Only(ts, id)
  {
    if ts == [] {
      assert [t] + ts == [t] && [t][..0] == [];
    } else {
      assert ([t] + ts)[..|ts|] == [t] + ts[..|ts| - 1];
      OnlyCons(t, ts[..|ts| - 1], id);
    }
  }

  lemma {:induction false} TimesAppend(a: seq<Fire>, b: seq<Fire>, id: nat)
    ensures Times(a + b, id) == Times(a, id) + Times(b, id)
  {
    if b == [] {
      assert a + b == a;
    } else {
      assert (a + b)[..|a + b| - 1] == a + b[..|b| - 1];
      TimesAppend(a, b[..|b| - 1], id);
    }
  }

  lemma Snoc(ts: seq<Timer>, t: Timer, cur: int, id: nat)
    ensures Only(ts + [t], id) == if t.id == id then Only(ts, id) + [t] else Only(ts, id)
    ensures Kept(ts + [t], cur) == if Retires(t, cur) then Kept(ts, cur) else Kept(ts, cur) + [Rearmed(t, cur)]
    ensures Fired(ts + [t], cur) == if Due(t, cur) then Fired(ts, cur) + [Fire(t, cur)] else Fired(ts, cur)
  {
    assert (ts + [t])[..|ts|] == ts;
  }

  lemma TimesSnoc(log: seq<Fire>, f: Fire, id: nat)
    ensures Times(log + [f], id) == if f.timer.id == id then Times(log, id) + [f.at] else Times(log, id)
  {
    assert (log + [f])[..|log|] == log;
  }

  /** A scan treats one timer as if it were alone. */
  lemma {:induction false} ScanOne(ts: seq<Timer>, cur: int, id: nat)
    ensures Only(Kept(ts, cur), id) == Kept(Only(ts, id), cur)
    ensures Times(Fired(ts, cur), id) == Times(Fired(Only(ts, id), cur), id)
  {
    if ts != [] {
      var s, t := ts[..|ts| - 1], ts[|ts| - 1];
      assert ts == s + [t];
      ScanOne(s, cur, id);
      hide Only, Kept, Fired, Times;
      Snoc(s, t, cur, id);
      Snoc(Kept(s, cur), Rearmed(t, cur), cur, id);
      Snoc(Only(s, id), t, cur, id);
      TimesSnoc(Fired(s, cur), Fire(t, cur), id);
      TimesSnoc(Fired(Only(s, id), cur), Fire(t, cur), id);
    }
  }

  lemma ScanSingle(t: Timer, cur: int)
    ensures Kept([t], cur) == if Retires(t, cur) then [] else [Rearmed(t, cur)]
    ensures Times(Fired([t], cur), t.id) == if Due(t, cur) then [cur] else []
  {
    assert [t][..0] == [];
    assert [Fire(t, cur)][..0] == [];
  }

  /** The pool knows of timer id exactly what its track says. */
  ghost predicate Agrees(p: Pool, id: nat, op: Op, u: Track)
    requires op.Add?
  {
    && id < p.issued
    && Times(p.log, id) == u.times
    && Only(p.active, id) == if u.live then [Timer(id, op.cb, op.args, u.next, op.span, op.loop)] else []
  }

  lemma AgreesWhenAdded(p: Pool, op: Op)
    requires IdsBelow(p) && op.Add?
    ensures Agrees(Step(p, op), p.issued, op, Track([], true, op.cur + op.span))
  {
    OnlyNone(p.active, p.issued);
    TimesNone(p.log, p.issued);
    OnlyCons(Timer(p.issued, op.cb, op.args, op.cur + op.span, op.span, op.loop), p.active, p.issued);
  }

  lemma AgreesStep(p: Pool, id: nat, added: Op, u: Track, op: Op)
    requires added.Add? && Agrees(p, id, added, u)
    ensures Agrees(Step(p, op), id, added, FollowOne(op, u, added.span, added.loop))
  {
    hide Only, Kept, Fired, Times;
    match op
    case Add(cur, cb, args, span, loop) =>
      OnlyCons(Timer(p.issued, cb, args, cur + span, span, loop), p.active, id);
    case Scan(cur) =>
      ScanOne(p.active, cur, id);
      TimesAppend(p.log, Fired(p.active, cur), id);
      if u.live {
        ScanSingle(Only(p.active, id)[0], cur);
      } else {
        ScanEmpty(cur, id);
      }
  }

  lemma ScanEmpty(cur: int, id: nat)
    ensures Kept([], cur) == [] && Fired([], cur) == [] && Times(Fired([], cur), id) == []
  {
  }

  /** Whatever else is added and scanned, each timer is called exactly when it would be called
      if it were the only one, and stays active exactly as long. */
  lemma {:induction false} EachTimerAlone(ops: seq<Op>, i: nat)
    requires i < |ops| && ops[i].Add?
    ensures Agrees(After(ops), After(ops[..i]).issued, ops[i],
                   Follow(ops[i + 1..], Track([], true, ops[i].cur + ops[i].span), ops[i].span, ops[i].loop))
    decreases |ops|
  {
    hide *;
    var n, t := |ops| - 1, Track([], true, ops[i].cur + ops[i].span);
    Slices(ops, i);
    OneMore(ops[..n], ops[n]);
    if i == n {
      IdsStayBelow(ops[..n]);
      AgreesWhenAdded(After(ops[..n]), ops[i]);
      FollowNone(t, ops[i].span, ops[i].loop);
    } else {
      EachTimerAlone(ops[..n], i);
      FollowOneMore(ops[..n][i + 1..], ops[n], t, ops[i].span, ops[i].loop);
      AgreesStep(After(ops[..n]), After(ops[..i]).issued, ops[i],
                 Follow(ops[..n][i + 1..], t, ops[i].span, ops[i].loop), ops[n]);
    }
  }

  lemma Slices(ops: seq<Op>, i: nat)
    requires i < |ops|
    ensures var n := |ops| - 1;
      && ops[..n] + [ops[n]] == ops
      && if i == n then ops[i + 1..] == []
         else ops[..n][..i] == ops[..i] && ops[i + 1..] == ops[..n][i + 1..] + [ops[n]]
  {
  }

  lemma FollowNone(t: Track, span: int, loop: bool)
    ensures Follow([], t, span, loop) == t
  {
  }

  lemma OneMore(ops: seq<Op>, op: Op)
    ensures After(ops + [op]) == Step(After(ops), op)
  {
    assert (ops + [op])[..|ops|] == ops;
  }

  lemma FollowOneMore(ops: seq<Op>, op: Op, t: Track, span: int, loop: bool)
    ensures Follow(ops + [op], t, span, loop) == FollowOne(op, Follow(ops, t, span, loop), span, loop)
  {
    assert (ops + [op])[..|ops|] == ops;
  }

  /** A one-shot timer is called once, by the first scan later than its time, or not at all. */
  lemma {:induction false} OneShot(ops: seq<Op>, due: int, span: int, j: nat)
    requires j <= |ops| && forall i :: 0 <= i < j && ops[i].Scan? ==> ops[i].cur <= due
    requires j < |ops| ==> ops[j].Scan? && ops[j].cur > due
    ensures Follow(ops, Track([], true, due), span, false).times == if j < |ops| then [ops[j].cur] else []
    ensures Follow(ops, Track([], true, due), span, false).live <==> j == |ops|
    ensures j == |ops| ==> Follow(ops, Track([], true, due), span, false).next == due
  {
    if ops != [] {
      var n := |ops| - 1;
      OneShot(ops[..n], due, span, if j < n then j else n);
    }
  }

  /** Calls of a looping timer lie more than its span apart, and it never leaves the pool. */
  lemma {:induction false} LoopGaps(ops: seq<Op>, due: int, span: int)
    ensures var u := Follow(ops, Track([], true, due), span, true);
      && u.live
      && (forall k :: 0 < k < |u.times| ==> u.times[k] > u.times[k - 1] + span)
      && (|u.times| > 0 ==> u.times[0] > due && u.next == u.times[|u.times| - 1] + span)
      && (|u.times| == 0 ==> u.next == due)
  {
    if ops != [] {
      LoopGaps(ops[..|ops| - 1], due, span);
    }
  }

  /** It is called by every scan later than its time, or than its last call by more than its span, and
      by no other. */
  lemma LoopCalls(ops: seq<Op>, cur: int, due: int, span: int)
    ensures var calls := Follow(ops, Track([], true, due), span, true).times;
      Follow(ops + [Scan(cur)], Track([], true, due), span, true).times
      == if cur > (if calls == [] then due else calls[|calls| - 1] + span) then calls + [cur] else calls
  {
    LoopGaps(ops, due, span);
    assert (ops + [Scan(cur)])[..|ops|] == ops;
  }

  /** A scan makes its calls in list order, and leaves the timers that stay in that order. */
  lemma {:induction false} ScanInOrder(a: seq<Timer>, b: seq<Timer>, cur: int)
    ensures Fired(a + b, cur) == Fired(a, cur) + Fired(b, cur)
    ensures Kept(a + b, cur) == Kept(a, cur) + Kept(b, cur)
    decreases |b|
  {
    if b == [] {
      ScanEmpty(cur, 0);
      assert a + b == a && Fired(a, cur) + [] == Fired(a, cur) && Kept(a, cur) + [] == Kept(a, cur);
    } else {
      var s, t := b[..|b| - 1], b[|b| - 1];
      hide Fired, Kept, Only;
      assert b == s + [t] && a + b == (a + s) + [t];
      ScanInOrder(a, s, cur);
      Snoc(s, t, cur, t.id);
      Snoc(a + s, t, cur, t.id);
      ConcatAssoc(Fired(a, cur), Fired(s, cur), [Fire(t, cur)]);
      ConcatAssoc(Kept(a, cur), Kept(s, cur), [Rearmed(t, cur)]);
    }
  }
}
