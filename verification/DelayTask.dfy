/** The timer pool of network/vfs_timer.c: free and active timers on two rings that share their
    nodes, and a scan that retires one-shot timers while it walks the active ring. */
module DelayTask {
  import opened Rings

  /** A t_vfs_timer.  `id` numbers the calls of add_to_delay_task, to tell timers apart in what
      is said about runs; the callback is represented by `cb` and `args`. */
  datatype Timer = Timer(id: nat, cb: nat, args: string, next: int, span: int, loop: bool)

  /** A call of a timer's callback during a scan at time `at`. */
  datatype Fire = Fire(timer: Timer, at: int)

  const DEFAULT_MAX: nat := 1024

  // ---------------------------------------------------------------- what a scan does

  predicate Due(t: Timer, cur: int) { cur > t.next }

  predicate Retires(t: Timer, cur: int) { Due(t, cur) && !t.loop }

  function Rearmed(t: Timer, cur: int): Timer {
    if Due(t, cur) then t.(next := cur + t.span) else t
  }

  /** The callbacks made, in list order. */
  function Fired(ts: seq<Timer>, cur: int): seq<Fire> {
    if ts == [] then []
    else
      var t := ts[|ts| - 1];
      Fired(ts[..|ts| - 1], cur) + if Due(t, cur) then [Fire(t, cur)] else []
  }

  /** The timers that stay active, in list order. */
  function Kept(ts: seq<Timer>, cur: int): (r: seq<Timer>)
    ensures |r| <= |ts|
  {
    if ts == [] then []
    else
      var t := ts[|ts| - 1];
      Kept(ts[..|ts| - 1], cur) + if Retires(t, cur) then [] else [Rearmed(t, cur)]
  }

  /** The nodes of the timers that stay active, and of those that retire. */
  ghost function KeptNodes(ns: seq<Node<Timer>>, ts: seq<Timer>, cur: int): (r: seq<Node<Timer>>)
    requires |ns| == |ts|
    ensures |r| == |Kept(ts, cur)|
  {
    var n := |ts| - 1;
    if ts == [] then [] else KeptNodes(ns[..n], ts[..n], cur) + if Retires(ts[n], cur) then [] else [ns[n]]
  }

  /** Retired nodes, the one retired last in front. */
  ghost function GoneNodes(ns: seq<Node<Timer>>, ts: seq<Timer>, cur: int): (r: seq<Node<Timer>>)
    requires |ns| == |ts|
    ensures |r| == |ts| - |Kept(ts, cur)|
  {
    var n := |ts| - 1;
    if ts == [] then [] else (if Retires(ts[n], cur) then [ns[n]] else []) + GoneNodes(ns[..n], ts[..n], cur)
  }

  // ---------------------------------------------------------------- the pool as a value

  /** The active timers in list order, how many free nodes there are, how many nodes were ever
      allocated, the callbacks made so far, and how many timers were ever added. */
  datatype Pool = Pool(active: seq<Timer>, free: nat, made: nat, log: seq<Fire>, issued: nat)

  function Added(p: Pool, cur: int, cb: nat, args: string, span: int, loop: bool): Pool {
    Pool([Timer(p.issued, cb, args, cur + span, span, loop)] + p.active,
         if p.free > 0 then p.free - 1 else 0,
         if p.free > 0 then p.made else p.made + 1, p.log, p.issued + 1)
  }

  function Scanned(p: Pool, cur: int): Pool {
    var kept := Kept(p.active, cur);
    p.(active := kept, free := p.free + |p.active| - |kept|, log := p.log + Fired(p.active, cur))
  }

  // ---------------------------------------------------------------- the rings

  ghost predicate TwoRings(a: seq<Node<Timer>>, f: seq<Node<Timer>>)
    reads a, f
  {
    Ring(a) && Ring(f) && Apart(a, f)
  }

  ghost function Data(ns: seq<Node<Timer>>): (ts: seq<Timer>)
    reads ns
    ensures |ts| == |ns| && forall i :: 0 <= i < |ns| ==> ts[i] == ns[i].data
  {
    seq(|ns|, i requires 0 <= i < |ns| reads ns => ns[i].data)
  }

  lemma RingFirst(head: Node<Timer>, xs: seq<Node<Timer>>)
    requires Ring([head] + xs)
    ensures head.next == if xs == [] then head else xs[0]
    ensures xs != [] ==> xs[0] != head
  {
    var s := [head] + xs;
    RingNext(s, 0);
    if xs != [] { assert s[1] == xs[0]; }
  }

  lemma RingNext(s: seq<Node<Timer>>, i: nat)
    requires Ring(s) && i < |s|
    ensures s[i].next == s[if i + 1 < |s| then i + 1 else 0]
  {
  }

  /** The node behind entry k, and that an entry is not the head. */
  lemma RingEntry(head: Node<Timer>, xs: seq<Node<Timer>>, k: nat)
    requires Ring([head] + xs) && k < |xs|
    ensures xs[k].next == if k + 1 < |xs| then xs[k + 1] else head
    ensures xs[k] != head
  {
    var s := [head] + xs;
    RingNext(s, k + 1);
    assert s[k + 1] == xs[k] && s[0] == head;
    if k + 1 < |xs| { assert s[k + 2] == xs[k + 1]; }
  }

  lemma ScanStart(ns: seq<Node<Timer>>, ts: seq<Timer>, cur: int)
    requires |ns| == |ts|
    ensures Fired(ts[..0], cur) == [] && Kept(ts[..0], cur) == []
    ensures KeptNodes(ns[..0], ts[..0], cur) == GoneNodes(ns[..0], ts[..0], cur) == []
  {
  }

  lemma EntriesDiffer(head: Node<Timer>, xs: seq<Node<Timer>>)
    requires Ring([head] + xs)
    ensures Distinct(xs)
  {
    var s := [head] + xs;
    assert forall i :: 0 <= i < |xs| ==> xs[i] == s[i + 1];
  }

  lemma ConcatAssoc<T>(a: seq<T>, b: seq<T>, c: seq<T>)
    ensures a + (b + c) == (a + b) + c
  {
  }

  lemma WithoutMiddle<T>(a: seq<T>, b: seq<T>, i: nat)
    requires i < |b|
    ensures Without(a + b[i..], |a|) == a + b[i + 1..]
    ensures a + b[i..] == a + [b[i]] + b[i + 1..]
  {
  }

  lemma OthersDiffer<T>(s: seq<T>, a: seq<T>, b: seq<T>, i: nat)
    requires i < |b| && s == a + b[i..] && Distinct(s)
    ensures s[|a|] == b[i]
    ensures forall j :: 0 <= j < |a| ==> s[j] == a[j] && a[j] != b[i]
    ensures forall j :: i < j < |b| ==> b[j] != b[i]
  {
    assert forall j :: i <= j < |b| ==> b[j] == s[|a| + j - i];
  }

  lemma WithoutEntry<T>(head: T, xs: seq<T>, k: nat)
    requires k < |xs|
    ensures Without([head] + xs, k + 1) == [head] + Without(xs, k)
  {
  }

  /** One more active timer. */
  lemma ScanStep(ns: seq<Node<Timer>>, ts: seq<Timer>, cur: int, i: nat)
    requires |ns| == |ts| && i < |ts|
    ensures Fired(ts[..i + 1], cur) == Fired(ts[..i], cur) + if Due(ts[i], cur) then [Fire(ts[i], cur)] else []
    ensures Kept(ts[..i + 1], cur)
         == Kept(ts[..i], cur) + if Retires(ts[i], cur) then [] else [Rearmed(ts[i], cur)]
    ensures KeptNodes(ns[..i + 1], ts[..i + 1], cur)
         == KeptNodes(ns[..i], ts[..i], cur) + if Retires(ts[i], cur) then [] else [ns[i]]
    ensures GoneNodes(ns[..i + 1], ts[..i + 1], cur)
         == (if Retires(ts[i], cur) then [ns[i]] else []) + GoneNodes(ns[..i], ts[..i], cur)
  {
    assert ns[..i + 1][..i] == ns[..i] && ts[..i + 1][..i] == ts[..i];
  }

  lemma TwoRingsSwap(a: seq<Node<Timer>>, f: seq<Node<Timer>>)
    requires TwoRings(a, f)
    ensures TwoRings(f, a)
  {
  }

  /** list_add_head on one of the rings. */
  method Push(n: Node<Timer>, head: Node<Timer>, ghost xs: seq<Node<Timer>>, ghost other: seq<Node<Timer>>)
    requires TwoRings(other, [head] + xs) && n !in other && n !in [head] + xs
    modifies n`next, n`prev, Nodes([head] + xs)`next, Nodes([head] + xs)`prev
    ensures TwoRings(other, [head, n] + xs)
  {
    hide Ring;
    ListAddHead(n, head, xs);
  }

  /** list_del_init on one of the rings. */
  method Drop(n: Node<Timer>, ghost s: seq<Node<Timer>>, ghost k: nat, ghost other: seq<Node<Timer>>)
    requires TwoRings(s, other) && |s| > 1 && k < |s| && s[k] == n
    modifies Nodes(s)`next, Nodes(s)`prev
    ensures TwoRings(Without(s, k), other) && n !in Without(s, k) && n !in other
  {
    DistinctWithout(s, k);
    assert n in s;
    hide Ring;
    ListDelInit(n, s, k);
  }

  class DelayTasks {
    const home: Node<Timer>
    const active: Node<Timer>
    ghost var free: seq<Node<Timer>>  // the entries of the two rings
    ghost var busy: seq<Node<Timer>>
    ghost var pool: set<Node<Timer>>  // every node ever allocated, and the two heads
    ghost var made: nat
    ghost var log: seq<Fire>
    var issued: nat  // numbers the timers; the source has no such counter

    ghost predicate Rings()
      reads this, pool
    {
      && (forall n :: n in [active] + busy ==> n in pool)
      && (forall n :: n in [home] + free ==> n in pool)
      && TwoRings([active] + busy, [home] + free)
    }

    ghost predicate Valid()
      reads this, pool
    {
      Rings() && made == |free| + |busy|
    }

    ghost function View(): Pool
      reads this, busy
    {
      Pool(Data(busy), |free|, made, log, issued)
    }

    /** delay_task_init */
    constructor ()
      ensures Valid() && fresh(pool)
      ensures View() == Pool([], DEFAULT_MAX, DEFAULT_MAX, [], 0)
    {
      var none := Timer(0, 0, [], 0, 0, false);
      home := new Node<Timer>(none);
      active := new Node<Timer>(none);
      free, busy, made, issued, log := [], [], 0, 0, [];
      new;
      pool := {home, active};
      assert [active] + busy == [active] && [home] + free == [home];
      Fill(none);
    }

    /** Allocates the first free nodes. */
    method Fill(none: Timer)
      requires Rings() && free == [] && made == 0
      modifies this`free, this`made, this`pool, pool
      ensures Rings() && |free| == made == DEFAULT_MAX && fresh(pool - old(pool))
    {
      hide Ring, TwoRings;
      for i := 0 to DEFAULT_MAX
        invariant |free| == made == i && fresh(pool - old(pool)) && Rings()
      {
        var timer := new Node<Timer>(none);
        Release(timer);
        made := made + 1;
      }
    }

    /** Puts a node that is on neither ring in front of the active timers. */
    method Activate(timer: Node<Timer>)
      requires Rings() && timer !in [active] + busy && timer !in [home] + free
      modifies this`busy, this`pool, timer`next, timer`prev, pool`next, pool`prev
      ensures Rings() && busy == [timer] + old(busy) && pool == old(pool) + {timer}
    {
      hide Ring;
      TwoRingsSwap([active] + busy, [home] + free);
      Push(timer, active, busy, [home] + free);
      TwoRingsSwap([home] + free, [active, timer] + busy);
      assert [active] + ([timer] + busy) == [active, timer] + busy;
      busy, pool := [timer] + busy, pool + {timer};
    }

    /** Puts a node that is on neither ring in front of the free ones. */
    method Release(timer: Node<Timer>)
      requires Rings() && timer !in [active] + busy && timer !in [home] + free
      modifies this`free, this`pool, timer`next, timer`prev, pool`next, pool`prev
      ensures Rings() && free == [timer] + old(free) && pool == old(pool) + {timer}
    {
      hide Ring;
      Push(timer, home, free, [active] + busy);
      assert [home] + ([timer] + free) == [home, timer] + free;
      free, pool := [timer] + free, pool + {timer};
    }

    /** Takes the first free node, or a new one when there is none. */
    method Take() returns (timer: Node<Timer>)
      requires Valid()
      modifies this`free, this`made, pool`next, pool`prev
      ensures Rings() && timer !in [active] + busy && timer !in [home] + free
      ensures if old(free) == [] then free == [] && made == old(made) + 1 && fresh(timer)
              else timer == old(free)[0] && free == old(free)[1..] && made == old(made)
    {
      hide Ring;
      ghost var s := [home] + free;
      RingFirst(home, free);
      var first := home.next;
      if first != home {
        TwoRingsSwap([active] + busy, s);
        assert s[1] == free[0];
        Drop(first, s, 1, [active] + busy);
        assert Without(s, 1) == [home] + free[1..];
        TwoRingsSwap(Without(s, 1), [active] + busy);
        timer := first;
        free := free[1..];
      } else {
        timer := new Node<Timer>(first.data);
        made := made + 1;
      }
    }

    /** add_to_delay_task at time cur. */
    method AddToDelayTask(cur: int, cb: nat, args: string, span: int, loop: bool)
      requires Valid()
      modifies this, pool
      ensures Valid() && fresh(pool - old(pool))
      ensures View() == Added(old(View()), cur, cb, args, span, loop)
    {
      hide Ring, TwoRings;
      var timer := Take();
      timer.data := Timer(issued, cb, args, cur + span, span, loop);
      Activate(timer);
      issued := issued + 1;
      assert Data(busy) == [timer.data] + old(Data(busy));
    }

    /** Moves an active timer to the front of the free ones. */
    method Retire(timer: Node<Timer>, ghost k: nat)
      requires Rings() && k < |busy| && busy[k] == timer
      modifies this`free, this`busy, this`pool, pool`next, pool`prev
      ensures Rings() && pool == old(pool)
      ensures busy == Without(old(busy), k) && free == [timer] + old(free)
    {
      hide Ring;
      ghost var s := [active] + busy;
      assert s[k + 1] == timer && timer in pool;
      Drop(timer, s, k + 1, [home] + free);
      WithoutEntry(active, busy, k);
      busy := Without(busy, k);
      assert Rings();
      Release(timer);
      assert pool == old(pool);
    }

    method Rearm(timer: Node<Timer>, next: int)
      requires Rings() && timer in pool
      modifies timer`data
      ensures Rings() && timer.data == old(timer.data).(next := next)
    {
      timer.data := timer.data.(next := next);
    }

    /** The loop body of the scan, for active timer k. */
    method Visit(timer: Node<Timer>, cur: int, ghost k: nat)
      requires Rings() && k < |busy| && busy[k] == timer
      modifies this`free, this`busy, this`pool, this`log, pool
      ensures Rings() && pool == old(pool)
      ensures log == old(log) + if old(Due(timer.data, cur)) then [Fire(old(timer.data), cur)] else []
      ensures if old(Retires(timer.data, cur)) then busy == Without(old(busy), k) && free == [timer] + old(free)
              else busy == old(busy) && free == old(free)
      ensures !old(Retires(timer.data, cur)) ==> timer.data == Rearmed(old(timer.data), cur)
      ensures forall n :: n in old(pool) && n != timer ==> n.data == old(n.data)
    {
      hide Ring;
      assert timer in [active] + busy;
      var t := timer.data;
      if cur > t.next {
        log := log + [Fire(t, cur)];
        if t.loop {
          Rearm(timer, cur + t.span);
        } else {
          Retire(timer, k);
        }
      }
    }

    /** The scan that began with active timers ns, holding ts, with free nodes f0 and with the
        callbacks log0 behind it, is done with the first i timers. */
    ghost predicate ScannedTo(ns: seq<Node<Timer>>, ts: seq<Timer>, f0: seq<Node<Timer>>, log0: seq<Fire>,
                              cur: int, i: nat)
      reads this, pool
      requires |ns| == |ts| && i <= |ns|
    {
      && Rings()
      && busy == KeptNodes(ns[..i], ts[..i], cur) + ns[i..]
      && free == GoneNodes(ns[..i], ts[..i], cur) + f0
      && log == log0 + Fired(ts[..i], cur)
      && (forall j :: i <= j < |ns| ==> ns[j] in pool && ns[j].data == ts[j])
      && (forall j :: 0 <= j < |Kept(ts[..i], cur)| ==> busy[j] in pool && busy[j].data == Kept(ts[..i], cur)[j])
    }

    method VisitNext(timer: Node<Timer>, cur: int, ghost ns: seq<Node<Timer>>, ghost ts: seq<Timer>,
                     ghost f0: seq<Node<Timer>>, ghost log0: seq<Fire>, ghost i: nat)
      requires |ns| == |ts| && i < |ns| && ScannedTo(ns, ts, f0, log0, cur, i) && timer == ns[i]
      modifies this`free, this`busy, this`pool, this`log, pool
      ensures ScannedTo(ns, ts, f0, log0, cur, i + 1) && pool == old(pool)
    {
      EntriesDiffer(active, busy);
      hide Ring, TwoRings, Fired, Kept, KeptNodes, GoneNodes, Without;
      ghost var a, g := KeptNodes(ns[..i], ts[..i], cur), GoneNodes(ns[..i], ts[..i], cur);
      WithoutMiddle(a, ns, i);
      ScanStep(ns, ts, cur, i);
      OthersDiffer(busy, a, ns, i);
      ConcatAssoc([ns[i]], g, f0);
      ConcatAssoc(log0, Fired(ts[..i], cur), [Fire(ts[i], cur)]);
      assert [] + g == g;
      Visit(timer, cur, |a|);
    }

    /** Where the walk stands after i visits: at entry i of the list it began with, whose
        successor on the ring is still entry i + 1. */
    lemma WalkPosition(ns: seq<Node<Timer>>, ts: seq<Timer>, f0: seq<Node<Timer>>, log0: seq<Fire>, cur: int, i: nat)
      requires |ns| == |ts| && i <= |ns| && ScannedTo(ns, ts, f0, log0, cur, i)
      ensures i < |ns| ==> ns[i] != active && ns[i].next == if i + 1 < |ns| then ns[i + 1] else active
      ensures i == |ns| || i == 0 ==> active.next != null
      ensures i == 0 ==> active.next == if ns == [] then active else ns[0]
    {
      hide Ring, TwoRings;
      ghost var k := |Kept(ts[..i], cur)|;
      assert Ring([active] + busy) && Ring([home] + free) by { RingsAreRings(); }
      RingFirst(active, busy);
      if i < |ns| {
        assert busy[k] == ns[i];
        RingEntry(active, busy, k);
      }
      if i == 0 { assert ns[..0] == [] && ts[..0] == []; }
    }

    lemma ScannedNone(cur: int)
      requires Rings()
      ensures ScannedTo(busy, Data(busy), free, log, cur, 0)
    {
      hide Ring, TwoRings;
      ScanStart(busy, Data(busy), cur);
      assert forall j :: 0 <= j < |busy| ==> busy[j] in [active] + busy;
    }

    lemma ScannedAll(ns: seq<Node<Timer>>, ts: seq<Timer>, f0: seq<Node<Timer>>, log0: seq<Fire>, cur: int)
      requires |ns| == |ts| && ScannedTo(ns, ts, f0, log0, cur, |ns|)
      ensures Rings() && busy == KeptNodes(ns, ts, cur) && free == GoneNodes(ns, ts, cur) + f0
      ensures Data(busy) == Kept(ts, cur) && log == log0 + Fired(ts, cur)
    {
      hide Ring, TwoRings, Fired, Kept, KeptNodes, GoneNodes;
      assert ns[..|ns|] == ns && ts[..|ts|] == ts;
    }

    lemma RingsAreRings()
      requires Rings()
      ensures Ring([active] + busy) && Ring([home] + free)
    {
    }

    /** scan_delay_task at time cur: walks the active ring with the successor fetched before
        each visit, since a visit may take the visited node off the ring. */
    method ScanDelayTask(cur: int)
      requires Valid()
      modifies this`free, this`busy, this`pool, this`log, pool
      ensures Valid() && pool == old(pool)
      ensures busy == KeptNodes(old(busy), old(Data(busy)), cur)
      ensures free == GoneNodes(old(busy), old(Data(busy)), cur) + old(free)
      ensures View() == Scanned(old(View()), cur)
    {
      hide Ring, TwoRings, Rings, ScannedTo, Fired, Kept, KeptNodes, GoneNodes;
      ghost var ns, ts, f0, log0, i := busy, Data(busy), free, log, 0;
      ScannedNone(cur);
      WalkPosition(ns, ts, f0, log0, cur, 0);
      var pos := active.next;
      var l := pos.next;
      while pos != active
        invariant 0 <= i <= |ns| && ScannedTo(ns, ts, f0, log0, cur, i) && pool == old(pool)
        invariant pos == if i < |ns| then ns[i] else active
        invariant l != null && l == pos.next
        decreases |ns| - i
      {
        WalkPosition(ns, ts, f0, log0, cur, i);
        VisitNext(pos, cur, ns, ts, f0, log0, i);
        WalkPosition(ns, ts, f0, log0, cur, i + 1);
        pos := l;
        l := l.next;
        i := i + 1;
      }
      WalkPosition(ns, ts, f0, log0, cur, i);
      ScannedAll(ns, ts, f0, log0, cur);
    }
  }
}
