/** The watchdog of network/watchdog.c: threads tick counters in shared memory, and a check takes
    each counter back to what arrived while it looked, and kills a thread that has been still
    for too long. */
module Watchdog {

  /** A threadstat. */
  datatype Stat = Stat(tid: int, tick: int, bad: int)

  // ---------------------------------------------------------------- one thread's counter

  /** An atomic step on one thread's counter: a tick of the thread, the watchdog reading the
      counter, the watchdog subtracting what it read. */
  datatype Step = Tick | ReadCount | Subtract

  /** The counter, and what the watchdog has read and not yet subtracted. */
  datatype Counter = Counter(stat: Stat, reading: bool, cnt: int, observed: seq<int>, kills: seq<bool>)

  /** What the watchdog does once it has subtracted cnt. */
  function Judged(s: Stat, cnt: int): Stat {
    if cnt != 0 then s.(bad := 0) else s.(bad := s.bad + 1)
  }

  predicate Kills(s: Stat, cnt: int, limit: int) { cnt == 0 && s.bad >= limit }

  function After(c: Counter, e: Step, limit: int): Counter {
    match e
    case Tick => c.(stat := c.stat.(tick := c.stat.tick + 1))
    case ReadCount => if c.reading then c else c.(reading := true, cnt := c.stat.tick)
    case Subtract =>
      if !c.reading then c
      else
        var s := c.stat.(tick := c.stat.tick - c.cnt);
        Counter(Judged(s, c.cnt), false, c.cnt, c.observed + [c.cnt], c.kills + [Kills(s, c.cnt, limit)])
  }

  /** A freshly registered thread, and then the given steps in that order. */
  function Run(tid: int, es: seq<Step>, limit: int): Counter {
    if es == [] then Counter(Stat(tid, 1, 0), false, 0, [], [])
    else After(Run(tid, es[..|es| - 1], limit), es[|es| - 1], limit)
  }

  function Ticks(es: seq<Step>): nat {
    if es == [] then 0 else Ticks(es[..|es| - 1]) + if es[|es| - 1] == Tick then 1 else 0
  }

  function Sum(s: seq<int>): int {
    if s == [] then 0 else Sum(s[..|s| - 1]) + s[|s| - 1]
  }

  /** How many observations in a row, up to the last one, were zero. */
  function Misses(s: seq<int>): nat {
    if s == [] || s[|s| - 1] != 0 then 0 else Misses(s[..|s| - 1]) + 1
  }

  lemma SumSnoc(s: seq<int>, x: int)
    ensures Sum(s + [x]) == Sum(s) + x
  {
    assert (s + [x])[..|s|] == s;
  }

  /** Ticks may fall anywhere, also between the read and the subtraction, and none is lost. */
  lemma {:induction false} NoTickLost(tid: int, es: seq<Step>, limit: int)
    ensures var c := Run(tid, es, limit);
      && 1 + Ticks(es) == Sum(c.observed) + c.stat.tick
      && (c.reading ==> 0 <= c.cnt <= c.stat.tick) && 0 <= c.stat.tick
  {
    if es != [] {
      var n := |es| - 1;
      var c := Run(tid, es[..n], limit);
      NoTickLost(tid, es[..n], limit);
      SumSnoc(c.observed, c.cnt);
      assert Run(tid, es, limit) == After(c, es[n], limit);
      hide Run, Sum, Kills;
      match es[n]
      case Tick =>
      case ReadCount =>
      case Subtract =>
    }
  }

  /** The thread is killed at exactly those checks that observe nothing after at least `limit`
      checks in a row that observed nothing. */
  lemma {:induction false} KilledWhenStill(tid: int, es: seq<Step>, limit: int)
    ensures var c := Run(tid, es, limit);
      && c.stat.bad == Misses(c.observed) && c.stat.tid == tid && |c.kills| == |c.observed|
      && forall k :: 0 <= k < |c.kills| ==>
           (c.kills[k] <==> c.observed[k] == 0 && Misses(c.observed[..k]) >= limit)
  {
    if es != [] {
      var n := |es| - 1;
      var c, d := Run(tid, es[..n], limit), Run(tid, es, limit);
      KilledWhenStill(tid, es[..n], limit);
      assert d == After(c, es[n], limit);
      hide Run;
      if es[n] == Subtract && c.reading {
        assert d.observed[..|c.observed|] == c.observed;
        assert forall k :: 0 <= k < |c.kills| ==> d.observed[..k] == c.observed[..k];
      }
    }
  }

  // ---------------------------------------------------------------- the table

  class ThreadMap {
    const limit: int  // deadlock_count
    const threadlist: array<Stat>
    var nthreads: nat

    ghost predicate Valid()
      reads this
    {
      nthreads <= threadlist.Length
    }

    constructor (mthreads: nat, timeout: int)
      ensures Valid() && nthreads == 0 && threadlist.Length == mthreads && fresh(threadlist)
      ensures limit >= 10 && limit >= timeout && (limit == 10 || limit == timeout)
      ensures forall i :: 0 <= i < mthreads ==> threadlist[i] == Stat(0, 0, 0)
    {
      limit := if timeout < 10 then 10 else timeout;
      threadlist := new Stat[mthreads](_ => Stat(0, 0, 0));
      nthreads := 0;
    }

    /** Registers the calling thread; fails when the table is too small for its id. */
    method GetThreadstat(id: nat, tid: int) returns (ok: bool)
      requires Valid()
      modifies this`nthreads, threadlist
      ensures Valid() && ok == (id < threadlist.Length)
      ensures !ok ==> nthreads == old(nthreads) && threadlist[..] == old(threadlist[..])
      ensures ok ==> nthreads == (if id >= old(nthreads) then id + 1 else old(nthreads))
      ensures ok ==> threadlist[..] == old(threadlist[..])[id := Stat(tid, 1, 0)]
    {
      if id >= threadlist.Length {
        return false;
      }
      if id >= nthreads {
        nthreads := id + 1;
      }
      threadlist[id] := Stat(tid, 1, 0);
      return true;
    }

    /** check_threadmap.  late[i] ticks of thread i fall between the watchdog's read of its
        counter and the subtraction.  Each registered thread goes through one read and one
        subtraction with those ticks in between, and the others are passed over.  The entries
        `at` lose their threads: those that are registered, have not ticked and were still for at
        least `limit` checks before. */
    method CheckThreadmap(late: seq<nat>) returns (killed: seq<int>, ghost at: seq<nat>)
      requires Valid() && |late| == nthreads
      modifies threadlist
      ensures forall i :: nthreads <= i < threadlist.Length ==> threadlist[i] == old(threadlist[i])
      ensures forall i :: 0 <= i < nthreads ==>
                var s := old(threadlist[i]);
                threadlist[i] == if s.tid == 0 then s
                                 else Stat(s.tid, late[i], if s.tick != 0 then 0 else s.bad + 1)
      ensures Rising(at) && |at| == |killed|
      ensures forall k :: 0 <= k < |at| ==> at[k] < nthreads && killed[k] == old(threadlist[at[k]]).tid
      ensures forall i :: 0 <= i < nthreads ==>
                (i in at <==> var s := old(threadlist[i]); s.tid != 0 && s.tick == 0 && s.bad >= limit)
    {
      killed, at := [], [];
      for i := 0 to nthreads
        invariant forall j :: i <= j < threadlist.Length ==> threadlist[j] == old(threadlist[j])
        invariant forall j :: 0 <= j < i ==> threadlist[j] == Checked(old(threadlist[j]), late[j])
        invariant Rising(at) && |at| == |killed|
        invariant forall k :: 0 <= k < |at| ==> at[k] < i && killed[k] == old(threadlist[at[k]]).tid
        invariant forall j :: 0 <= j < i ==>
                    (j in at <==> var s := old(threadlist[j]); s.tid != 0 && s.tick == 0 && s.bad >= limit)
      {
        var tid := threadlist[i].tid;
        if tid != 0 {
          var cnt := threadlist[i].tick;
          threadlist[i] := threadlist[i].(tick := threadlist[i].tick + late[i]);
          threadlist[i] := threadlist[i].(tick := threadlist[i].tick - cnt);
          if cnt != 0 {
            threadlist[i] := threadlist[i].(bad := 0);
          } else {
            if threadlist[i].bad >= limit {
              killed, at := killed + [tid], at + [i];
            }
            threadlist[i] := threadlist[i].(bad := threadlist[i].bad + 1);
          }
        }
      }
    }
  }

  function Checked(s: Stat, late: nat): Stat {
    if s.tid == 0 then s else Judged(s.(tick := late), s.tick)
  }

  predicate Rising(at: seq<nat>) {
    forall j, k :: 0 <= j < k < |at| ==> at[j] < at[k]
  }

  function Repeat(n: nat): seq<Step> {
    if n == 0 then [] else Repeat(n - 1) + [Tick]
  }

  lemma {:induction false} RunTicks(tid: int, es: seq<Step>, n: nat, limit: int)
    ensures var c := Run(tid, es, limit);
      Run(tid, es + Repeat(n), limit) == c.(stat := c.stat.(tick := c.stat.tick + n))
  {
    if n == 0 {
      assert es + Repeat(0) == es;
    } else {
      RunTicks(tid, es, n - 1, limit);
      assert (es + Repeat(n))[..|es + Repeat(n)| - 1] == es + Repeat(n - 1);
    }
  }

  /** The steps of one thread, and then a check with `late` ticks between its read and its
      subtraction. */
  function WithCheck(es: seq<Step>, late: nat): seq<Step> {
    es + [ReadCount] + Repeat(late) + [Subtract]
  }

  /** What the table check does to a registered thread is what the three atomic steps do. */
  lemma CheckIsSteps(tid: int, es: seq<Step>, late: nat, limit: int)
    requires tid != 0 && !Run(tid, es, limit).reading
    ensures var c, d := Run(tid, es, limit), Run(tid, WithCheck(es, late), limit);
      && d.stat == Checked(c.stat, late) && !d.reading
      && d.kills == c.kills + [c.stat.tick == 0 && c.stat.bad >= limit]
  {
    var fs := es + [ReadCount];
    assert fs[..|es|] == es;
    RunTicks(tid, fs, late, limit);
    var gs := fs + Repeat(late);
    assert (gs + [Subtract])[..|gs|] == gs;
    KilledWhenStill(tid, es, limit);
  }

  /** A registered thread is in the state that its steps lead to. */
  ghost predicate InStep(s: Stat, es: seq<Step>, limit: int) {
    s.tid != 0 ==> Run(s.tid, es, limit).stat == s && !Run(s.tid, es, limit).reading
  }

  /** A check of the whole table is one of every thread: each registered thread is again in the state
      that its steps lead to, and is killed exactly when the last of its checks kills it. */
  method CheckAll(m: ThreadMap, late: seq<nat>, ghost steps: seq<seq<Step>>)
    returns (killed: seq<int>, ghost at: seq<nat>)
    requires m.Valid() && |late| == |steps| == m.nthreads
    requires forall i :: 0 <= i < m.nthreads ==> InStep(m.threadlist[i], steps[i], m.limit)
    modifies m.threadlist
    ensures forall i :: 0 <= i < m.nthreads ==> InStep(m.threadlist[i], WithCheck(steps[i], late[i]), m.limit)
    ensures forall i :: 0 <= i < m.nthreads && m.threadlist[i].tid != 0 ==>
              var kills := Run(m.threadlist[i].tid, WithCheck(steps[i], late[i]), m.limit).kills;
              kills != [] && (i in at <==> kills[|kills| - 1])
    ensures forall k :: 0 <= k < |at| ==> at[k] < m.nthreads
    ensures |killed| == |at| && Rising(at) && forall k :: 0 <= k < |at| ==> killed[k] == m.threadlist[at[k]].tid != 0
  {
    hide Run, WithCheck;
    killed, at := m.CheckThreadmap(late);
    forall i | 0 <= i < m.nthreads && m.threadlist[i].tid != 0
      ensures InStep(m.threadlist[i], WithCheck(steps[i], late[i]), m.limit)
      ensures var kills := Run(m.threadlist[i].tid, WithCheck(steps[i], late[i]), m.limit).kills;
        kills != [] && (i in at <==> kills[|kills| - 1])
    {
      CheckIsSteps(m.threadlist[i].tid, steps[i], late[i], m.limit);
    }
  }
}
