/** The double-buffered counters of 3rdlib/TNmShm.cpp: writers add to one of two hash tables
    while a reader drains the other, and the reader swaps the tables by flipping an index. */
module NmShm {
  import opened Common
  import opened ShmBuffer

  /** A C int. */
  type Int32 = x: int | -0x8000_0000 <= x < 0x8000_0000

  /** Equal modulo 2^32. */
  ghost predicate Cong(x: int, y: int) { (x - y) % TWO32 == 0 }

  function Wrap(x: int): (y: Int32)
    ensures Cong(x, y)
  {
    (x + 0x8000_0000) % TWO32 - 0x8000_0000
  }

  lemma CongSelf(x: int)
    ensures Cong(x, x)
  {
  }

  lemma CongChain(a: int, b: int, h: int, c: int, d: int)
    requires Cong(a, b + h) && Cong(h + c, d)
    ensures Cong(a + c, b + d)
  {
    var x, y := a - (b + h), h + c - d;
    assert (x + y) % TWO32 == 0;
    assert (a + c) - (b + d) == x + y;
  }

  type Counts = Entries<Int32>

  // ---------------------------------------------------------------- counters

  /** No key occurs twice. */
  ghost predicate Unique(c: Counts) {
    && (forall p :: p in c ==> c[p] == 1)
    && (forall p, q :: p in c && q in c && p.0 == q.0 ==> p == q)
  }

  ghost predicate Absent(c: Counts, k: KeyNo) {
    forall p :: p in c ==> p.0 != k
  }

  /** The count recorded for k; 0 when there is none. */
  ghost function Val(c: Counts, k: KeyNo): (v: int)
    ensures Absent(c, k) ==> v == 0
    ensures Unique(c) ==> forall w :: Pair(k, w) in c ==> v == w
  {
    if p :| p in c && p.0 == k then p.1 else 0
  }

  /** c2 is c1 after v has been added to the counter of k. */
  ghost predicate Incremented(c1: Counts, k: KeyNo, v: Int32, c2: Counts) {
    || (exists w: Int32 :: Pair(k, w) in c1
          && c2 + multiset{Pair(k, w)} == c1 + multiset{Pair(k, Wrap(w + v))})
    || (Absent(c1, k) && c2 == c1 + multiset{Pair(k, v)})
  }

  lemma UniqueInsert(c: Counts, k: KeyNo, v: Int32)
    requires Unique(c) && Absent(c, k)
    ensures Unique(c + multiset{Pair(k, v)})
    ensures Val(c + multiset{Pair(k, v)}, k) == v
    ensures forall j :: j != k ==> Val(c + multiset{Pair(k, v)}, j) == Val(c, j)
  {
    var d := c + multiset{Pair(k, v)};
    assert forall p :: p in d <==> p in c || p == Pair(k, v);
    assert Pair(k, v) in d;
    forall j | j != k
      ensures Val(d, j) == Val(c, j)
    {
      if p :| p in c && p.0 == j {
        assert p == Pair(j, p.1) && p in d;
      } else {
        assert Absent(c, j) && Absent(d, j);
      }
    }
  }

  lemma UniqueRemove(c: Counts, p: (KeyNo, Int32))
    requires Unique(c + multiset{p})
    ensures Unique(c) && Absent(c, p.0)
    ensures Val(c + multiset{p}, p.0) == p.1 && Val(c, p.0) == 0
    ensures forall j :: j != p.0 ==> Val(c, j) == Val(c + multiset{p}, j)
  {
    var d := c + multiset{p};
    assert p in d && d[p] == 1;
    assert forall q :: q in c ==> q in d;
    UniqueInsert(c, p.0, p.1);
    assert Pair(p.0, p.1) == p;
  }

  lemma Exchange<P>(c1: multiset<P>, c2: multiset<P>, p: P, q: P)
    requires p in c1 && c2 + multiset{p} == c1 + multiset{q}
    ensures c1 == (c1 - multiset{p}) + multiset{p} && c2 == (c1 - multiset{p}) + multiset{q}
  {
    var d := (c1 - multiset{p}) + multiset{q};
    forall x
      ensures c2[x] == d[x]
    {
      assert (c2 + multiset{p})[x] == (c1 + multiset{q})[x];
    }
  }

  lemma UniqueReplace(rest: Counts, k: KeyNo, w: Int32, x: Int32)
    requires Unique(rest + multiset{Pair(k, w)})
    ensures Unique(rest + multiset{Pair(k, x)})
    ensures Val(rest + multiset{Pair(k, w)}, k) == w && Val(rest + multiset{Pair(k, x)}, k) == x
    ensures forall j :: j != k ==> Val(rest + multiset{Pair(k, x)}, j) == Val(rest + multiset{Pair(k, w)}, j)
  {
    hide *;
    assert Pair(k, w).0 == k && Pair(k, w).1 == w by { PairParts(k, w); }
    UniqueRemove(rest, Pair(k, w));
    UniqueInsert(rest, k, x);
  }

  lemma PairParts<T>(k: KeyNo, v: T)
    ensures Pair(k, v).0 == k && Pair(k, v).1 == v
  {
  }

  lemma ReplacedVal(c1: Counts, k: KeyNo, w: Int32, x: Int32, c2: Counts)
    requires Unique(c1) && Pair(k, w) in c1
    requires c2 + multiset{Pair(k, w)} == c1 + multiset{Pair(k, x)}
    ensures Unique(c2)
    ensures Val(c1, k) == w && Val(c2, k) == x
    ensures forall j :: j != k ==> Val(c2, j) == Val(c1, j)
  {
    hide *;
    Exchange(c1, c2, Pair(k, w), Pair(k, x));
    UniqueReplace(c1 - multiset{Pair(k, w)}, k, w, x);
  }

  lemma IncrementedVal(c1: Counts, k: KeyNo, v: Int32, c2: Counts)
    requires Unique(c1) && Incremented(c1, k, v, c2)
    ensures Unique(c2)
    ensures Cong(Val(c1, k) + v, Val(c2, k))
    ensures forall j :: j != k ==> Val(c2, j) == Val(c1, j)
  {
    hide Wrap, Unique, Val, Cong, Pair;
    if w: Int32 :| Pair(k, w) in c1 && c2 + multiset{Pair(k, w)} == c1 + multiset{Pair(k, Wrap(w + v))} {
      ReplacedVal(c1, k, w, Wrap(w + v), c2);
    } else {
      UniqueInsert(c1, k, v);
      CongSelf(v);
    }
  }

  // ---------------------------------------------------------------- state machine

  /** The table an index byte selects: true for m_shmmap_int[1]. */
  predicate Sel(idx: nat) { idx % 2 == 1 }

  /** Something for each of the two tables. */
  datatype Both<T> = Both(first: T, second: T) {
    function At(odd: bool): T { if odd then second else first }

    function With(odd: bool, x: T): Both<T> { if odd then Both(first, x) else Both(x, second) }
  }

  /** The shared state: the index byte, and for each table what it holds and what a scan
      that was begun on it has still to deliver. */
  datatype Shm = Shm(index: nat, held: Both<Counts>, rest: Both<Counts>)

  /** What the single reader is doing: nothing, or draining the table that `begin_read_shm`
      handed to it, having received `got` so far; `done` once a read reported the end. */
  datatype Phase = Idle | Draining(table: bool, got: Counts, done: bool)

  datatype State = State(shm: Shm, phase: Phase)

  datatype Event =
    | Inc(alarmid: Key, v: Int32)
    | Begin(idx: nat)
    | Read(idx: nat, k: KeyNo, v: Int32)
    | ReadEnd(idx: nat)
    | End(idx: nat)

  ghost predicate Shaped(s: Shm) {
    s.index < 256 && Unique(s.held.first) && Unique(s.held.second)
  }

  /** What each call does to the shared state. */
  ghost predicate Effect(s: Shm, e: Event, t: Shm) {
    match e
    case Inc(k, v) =>
      && t.index == s.index
      && Incremented(s.held.At(Sel(s.index)), k, v, t.held.At(Sel(s.index)))
      && t.held.At(!Sel(s.index)) == s.held.At(!Sel(s.index))
      && t.rest.At(!Sel(s.index)) == s.rest.At(!Sel(s.index))
    case Begin(idx) =>
      && idx == s.index && t.index == 255 - s.index && t.held == s.held
      && t.rest == s.rest.With(Sel(idx), s.held.At(Sel(idx)))
    case Read(idx, k, v) =>
      && t.index == s.index && t.held == s.held
      && s.rest.At(Sel(idx)) == multiset{Pair(k, v)} + t.rest.At(Sel(idx))
      && t.rest.At(!Sel(idx)) == s.rest.At(!Sel(idx))
    case ReadEnd(idx) =>
      && t.index == s.index && t.held == s.held
      && s.rest.At(Sel(idx)) == multiset{} == t.rest.At(Sel(idx))
      && t.rest.At(!Sel(idx)) == s.rest.At(!Sel(idx))
    case End(idx) =>
      && t.index == s.index && t.held == s.held.With(Sel(idx), multiset{})
      && t.rest.At(!Sel(idx)) == s.rest.At(!Sel(idx))
  }

  /** A reader goes through whole cycles: begin, reads until the end is reported, end. */
  ghost predicate ReaderMoves(p: Phase, e: Event, q: Phase) {
    match e
    case Inc(_, _) => q == p
    case Begin(idx) => p.Idle? && q == Draining(Sel(idx), multiset{}, false)
    case Read(idx, k, v) =>
      p.Draining? && p.table == Sel(idx) && q == Draining(p.table, p.got + multiset{Pair(k, v)}, p.done)
    case ReadEnd(idx) => p.Draining? && p.table == Sel(idx) && q == p.(done := true)
    case End(idx) => p.Draining? && p.table == Sel(idx) && p.done && q.Idle?
  }

  ghost predicate Step(s: State, e: Event, t: State) {
    Effect(s.shm, e, t.shm) && ReaderMoves(s.phase, e, t.phase)
  }

  ghost predicate Run(ss: seq<State>, es: seq<Event>) {
    && |ss| == |es| + 1
    && Shaped(ss[0].shm) && ss[0].phase.Idle?
    && forall i :: 0 <= i < |es| ==> Step(ss[i], es[i], ss[i + 1])
  }

  function Added(es: seq<Event>, k: KeyNo): int {
    if es == [] then 0
    else
      var e := es[|es| - 1];
      Added(es[..|es| - 1], k) + if e.Inc? && e.alarmid == k then e.v else 0
  }

  function Drained(es: seq<Event>, k: KeyNo): int {
    if es == [] then 0
    else
      var e := es[|es| - 1];
      Drained(es[..|es| - 1], k) + if e.Read? && e.k == k then e.v else 0
  }

  /** What both tables hold for k, not counting what the reader has already received from the
      table it is draining. */
  ghost function Held(s: State, k: KeyNo): int {
    match s.phase
    case Idle => Val(s.shm.held.first, k) + Val(s.shm.held.second, k)
    case Draining(a, _, _) => Val(s.shm.rest.At(a), k) + Val(s.shm.held.At(!a), k)
  }

  /** While a table is drained, writers are on the other one, and what was received together
      with what is still to come is exactly what the table holds. */
  ghost predicate Inv(s: State) {
    && Shaped(s.shm)
    && (s.phase.Draining? ==>
          && Sel(s.shm.index) != s.phase.table
          && s.phase.got + s.shm.rest.At(s.phase.table) == s.shm.held.At(s.phase.table)
          && (s.phase.done ==> s.shm.rest.At(s.phase.table) == multiset{}))
  }

  lemma UniqueNone()
    ensures Unique(multiset{})
  {
  }

  lemma UniquePart(a: Counts, b: Counts)
    requires Unique(a + b)
    ensures Unique(b)
  {
    assert forall p :: p in b ==> p in a + b;
  }

  lemma StepKeepsInv(s: State, e: Event, t: State)
    requires Inv(s) && Step(s, e, t)
    ensures Inv(t)
  {
    hide Unique, Incremented, Val;
    if e.Inc? {
      IncrementedVal(s.shm.held.At(Sel(s.shm.index)), e.alarmid, e.v, t.shm.held.At(Sel(s.shm.index)));
    }
    UniqueNone();
    if e.Read? {
      var a := s.phase.table;
      assert s.phase.got + s.shm.rest.At(a) == (s.phase.got + multiset{Pair(e.k, e.v)}) + t.shm.rest.At(a);
    }
  }

  lemma IncConserves(s: State, e: Event, t: State, k: KeyNo)
    requires Inv(s) && Inv(t) && Step(s, e, t) && e.Inc?
    ensures Cong(Held(s, k) + (if e.alarmid == k then e.v else 0), Held(t, k))
  {
    hide Unique, Incremented, Val;
    var a := Sel(s.shm.index);
    IncrementedVal(s.shm.held.At(a), e.alarmid, e.v, t.shm.held.At(a));
  }

  lemma ReadConserves(s: State, e: Event, t: State, k: KeyNo)
    requires Inv(s) && Inv(t) && Step(s, e, t) && e.Read?
    ensures Held(t, k) == Held(s, k) - if e.k == k then e.v else 0
  {
    hide Unique, Incremented, Val;
    var a := s.phase.table;
    UniquePart(s.phase.got, s.shm.rest.At(a));
    assert s.shm.rest.At(a) == t.shm.rest.At(a) + multiset{Pair(e.k, e.v)};
    UniqueRemove(t.shm.rest.At(a), Pair(e.k, e.v));
  }

  lemma TurnConserves(s: State, e: Event, t: State, k: KeyNo)
    requires Inv(s) && Inv(t) && Step(s, e, t) && (e.Begin? || e.ReadEnd? || e.End?)
    ensures Held(t, k) == Held(s, k)
  {
    hide Unique, Incremented, Val;
    assert Absent(multiset{}, k);
  }

  lemma AddedOne(e: Event, k: KeyNo)
    ensures Added([e], k) == if e.Inc? && e.alarmid == k then e.v else 0
    ensures Drained([e], k) == if e.Read? && e.k == k then e.v else 0
  {
    assert [e][..0] == [];
  }

  lemma StepConserves(s: State, e: Event, t: State, k: KeyNo)
    requires Inv(s) && Step(s, e, t)
    ensures Inv(t)
    ensures Cong(Held(s, k) + Added([e], k), Drained([e], k) + Held(t, k))
  {
    hide *;
    StepKeepsInv(s, e, t);
    AddedOne(e, k);
    CongSelf(Held(s, k));
    match e
    case Inc(_, _) => IncConserves(s, e, t, k);
    case Read(_, _, _) => ReadConserves(s, e, t, k);
    case _ => TurnConserves(s, e, t, k);
  }

  /** Nothing is lost or counted twice, in any interleaving of increments with whole reading
      cycles: modulo 2^32, what was there plus what was added is what was read plus what is
      there. */
  lemma {:induction false} Conservation(ss: seq<State>, es: seq<Event>, k: KeyNo)
    requires Run(ss, es)
    ensures Inv(ss[|es|])
    ensures Cong(Held(ss[0], k) + Added(es, k), Drained(es, k) + Held(ss[|es|], k))
    decreases |es|
  {
    hide Held, Step, Cong;
    if es == [] {
      CongSelf(Held(ss[0], k));
    } else {
      var n := |es| - 1;
      Conservation(ss[..n + 1], es[..n], k);
      assert Step(ss[n], es[n], ss[n + 1]);
      StepConserves(ss[n], es[n], ss[n + 1], k);
      assert [es[n]][..0] == [];
      CongChain(Held(ss[0], k) + Added(es[..n], k), Drained(es[..n], k), Held(ss[n], k),
                Added([es[n]], k), Drained([es[n]], k) + Held(ss[n + 1], k));
    }
  }

  /** A reading cycle that was told the end has received every entry of its table exactly once. */
  lemma WholeTableRead(ss: seq<State>, es: seq<Event>)
    requires Run(ss, es) && ss[|es|].phase.Draining? && ss[|es|].phase.done
    ensures ss[|es|].phase.got == ss[|es|].shm.held.At(ss[|es|].phase.table)
  {
    Conservation(ss, es, 0);
  }

  // ---------------------------------------------------------------- the object

  /** c2 is c1 after the counter of k has been set to v. */
  ghost predicate Assigned(c1: Counts, k: KeyNo, v: Int32, c2: Counts) {
    || (exists w: Int32 :: Pair(k, w) in c1 && c2 + multiset{Pair(k, w)} == c1 + multiset{Pair(k, v)})
    || (Absent(c1, k) && c2 == c1 + multiset{Pair(k, v)})
  }

  lemma AssignedVal(c1: Counts, k: KeyNo, v: Int32, c2: Counts)
    requires Unique(c1) && Assigned(c1, k, v, c2)
    ensures Unique(c2) && Val(c2, k) == v
    ensures forall j :: j != k ==> Val(c2, j) == Val(c1, j)
  {
    hide Unique, Val, Pair;
    if w: Int32 :| Pair(k, w) in c1 && c2 + multiset{Pair(k, w)} == c1 + multiset{Pair(k, v)} {
      ReplacedVal(c1, k, w, v, c2);
    } else {
      UniqueInsert(c1, k, v);
    }
  }

  /** c2 is c1 after Erase(k). */
  ghost predicate Erased(c1: Counts, k: KeyNo, c2: Counts) {
    || (exists v: Int32 :: c2 + multiset{Pair(k, v)} == c1)
    || (Absent(c1, k) && c2 == c1)
  }

  /** What a find-then-add caller does to one table. */
  datatype Edit = Put(k: Key, v: Int32) | Bump(b: Key, n: Int32) | Del(d: Key)

  ghost predicate Edited(c1: Counts, e: Edit, c2: Counts) {
    match e
    case Put(k, v) => Assigned(c1, k, v, c2)
    case Bump(b, n) => Incremented(c1, b, n, c2)
    case Del(d) => Erased(c1, d, c2)
  }

  function Apply(m: map<KeyNo, Int32>, e: Edit): map<KeyNo, Int32> {
    match e
    case Put(k, v) => m[k := v]
    case Bump(b, n) => m[b := if b in m then Wrap(m[b] + n) else n]
    case Del(d) => m - {d}
  }

  function ApplyAll(es: seq<Edit>): map<KeyNo, Int32> {
    if es == [] then map[] else Apply(ApplyAll(es[..|es| - 1]), es[|es| - 1])
  }

  /** The table holds exactly the entries of the map, each once. */
  ghost predicate Holds(c: Counts, m: map<KeyNo, Int32>) {
    && Unique(c)
    && (forall p :: p in c ==> p.0 in m && m[p.0] == p.1)
    && (forall k :: k in m ==> Pair(k, m[k]) in c)
  }

  lemma Replaced<P>(c1: multiset<P>, c2: multiset<P>, p: P, q: P)
    requires p in c1 && c2 + multiset{p} == c1 + multiset{q} && c1[p] == 1
    ensures forall r :: r in c2 <==> r == q || (r in c1 && r != p)
  {
    forall r
      ensures r in c2 <==> r == q || (r in c1 && r != p)
    {
      assert (c2 + multiset{p})[r] == (c1 + multiset{q})[r];
    }
  }

  lemma AssignedMembers(c1: Counts, k: KeyNo, v: Int32, c2: Counts)
    requires Unique(c1) && Assigned(c1, k, v, c2)
    ensures forall p :: p in c2 <==> p == Pair(k, v) || (p in c1 && p.0 != k)
  {
    if w: Int32 :| Pair(k, w) in c1 && c2 + multiset{Pair(k, w)} == c1 + multiset{Pair(k, v)} {
      assert c1[Pair(k, w)] == 1 && forall p :: p in c1 && p.0 == k ==> p == Pair(k, w);
      hide Unique;
      Replaced(c1, c2, Pair(k, w), Pair(k, v));
    } else {
      hide Unique;
      MemberOfSum(c1, Pair(k, v));
    }
  }

  lemma PutHolds(c1: Counts, m: map<KeyNo, Int32>, k: KeyNo, v: Int32, c2: Counts)
    requires Holds(c1, m) && Assigned(c1, k, v, c2)
    ensures Holds(c2, m[k := v])
  {
    hide Unique, Val, Assigned;
    AssignedVal(c1, k, v, c2);
    AssignedMembers(c1, k, v, c2);
  }

  /** An increment assigns the sum. */
  lemma BumpHolds(c1: Counts, m: map<KeyNo, Int32>, k: KeyNo, n: Int32, c2: Counts)
    requires Holds(c1, m) && Incremented(c1, k, n, c2)
    ensures Holds(c2, m[k := if k in m then Wrap(m[k] + n) else n])
  {
    hide Unique, Wrap;
    var v := if k in m then Wrap(m[k] + n) else n;
    assert Assigned(c1, k, v, c2);
    PutHolds(c1, m, k, v, c2);
  }

  lemma ErasedMembers(c1: Counts, k: KeyNo, c2: Counts)
    requires Unique(c1) && Erased(c1, k, c2)
    ensures Unique(c2)
    ensures forall p :: p in c2 <==> p in c1 && p.0 != k
  {
    hide Unique, Val;
    if v: Int32 :| c2 + multiset{Pair(k, v)} == c1 {
      UniqueRemove(c2, Pair(k, v));
      MemberOfSum(c2, Pair(k, v));
    }
  }

  lemma DelHolds(c1: Counts, m: map<KeyNo, Int32>, k: KeyNo, c2: Counts)
    requires Holds(c1, m) && Erased(c1, k, c2)
    ensures Holds(c2, m - {k})
  {
    hide Unique, Val, Erased;
    ErasedMembers(c1, k, c2);
  }

  lemma MemberOfSum<P>(c: multiset<P>, q: P)
    ensures forall p :: p in c + multiset{q} <==> p in c || p == q
  {
  }

  /** A table that is only written by callers who look a key up before they add it, and from
      which keys are erased, is a finite map: it holds each key once, with the value last
      written, and no key that was erased since. */
  lemma {:induction false} TableIsMap(cs: seq<Counts>, es: seq<Edit>)
    requires |cs| == |es| + 1 && cs[0] == multiset{}
    requires forall i :: 0 <= i < |es| ==> Edited(cs[i], es[i], cs[i + 1])
    ensures Holds(cs[|es|], ApplyAll(es))
    decreases |es|
  {
    hide Holds, Assigned, Incremented, Erased;
    if es == [] {
      HoldsNothing();
    } else {
      var n := |es| - 1;
      TableIsMap(cs[..n + 1], es[..n]);
      assert Edited(cs[n], es[n], cs[n + 1]);
      match es[n]
      case Put(k, v) => PutHolds(cs[n], ApplyAll(es[..n]), k, v, cs[n + 1]);
      case Bump(b, v) => BumpHolds(cs[n], ApplyAll(es[..n]), b, v, cs[n + 1]);
      case Del(d) => DelHolds(cs[n], ApplyAll(es[..n]), d, cs[n + 1]);
    }
  }

  lemma HoldsNothing()
    ensures Holds(multiset{}, map[])
  {
  }

  /** In a table that holds a map, a Find that answers as its contract says is the map's lookup:
      it succeeds exactly for the keys of the map, with the value last written. */
  lemma FindIsLookup(t: TShmBuffer<Int32>, m: map<KeyNo, Int32>, k: Key, pos: int)
    requires t.Valid() && Holds(t.Contents(), m) && t.Found(k, pos)
    ensures pos >= 0 <==> k in m
    ensures pos >= 0 ==> t.buffer[pos].value == m[k]
  {
    hide Unique, Chained, Live, Holds;
    if pos >= 0 {
      LiveMember(t.buffer[..], Pair(k, t.buffer[pos].value));
      MapHas(t.Contents(), m, k, t.buffer[pos].value);
    } else {
      MapLacks(t.Contents(), m, k);
    }
  }

  lemma MapHas(c: Counts, m: map<KeyNo, Int32>, k: KeyNo, v: Int32)
    requires Holds(c, m) && Pair(k, v) in c
    ensures k in m && m[k] == v
  {
    hide Unique;
  }

  lemma MapLacks(c: Counts, m: map<KeyNo, Int32>, k: KeyNo)
    requires Holds(c, m) && Absent(c, k)
    ensures k !in m
  {
    hide Unique;
  }

  const SHM_INT_SIZE: nat := 81920

  class NMSHM {
    var index: nat  // cshm->index, an unsigned char
    const tab0: TShmBuffer<Int32>
    const tab1: TShmBuffer<Int32>

    ghost predicate Valid()
      reads this, tab0, tab0.buffer, tab1, tab1.buffer
    {
      && index < 256 && tab0 != tab1 && tab0.buffer != tab1.buffer
      && Usable(tab0) && Usable(tab1)
    }

    static ghost predicate Usable(t: TShmBuffer<Int32>)
      reads t, t.buffer
    {
      t.Valid() && t.Form().Total() >= 5 && Unique(t.Contents())
    }

    ghost function Shared(): Shm
      reads this, tab0, tab0.buffer, tab1, tab1.buffer
    {
      Shm(index, Both(tab0.Contents(), tab1.Contents()), Both(tab0.Remaining(), tab1.Remaining()))
    }

    function Table(i: nat): TShmBuffer<Int32> {
      if Sel(i) then tab1 else tab0
    }

    /** The tables as init_shm creates them, where that succeeds. */
    constructor (memory: nat)
      requires memory >= SHM_INT_SIZE
      ensures Valid() && Shared().held == Both(multiset{}, multiset{})
    {
      index := 0;
      tab0 := new TShmBuffer<Int32>(0, memory);
      tab1 := new TShmBuffer<Int32>(0, memory);
      new;
      var r := tab0.Alloc(SHM_INT_SIZE / 4, SHM_INT_SIZE);
      r := tab1.Alloc(SHM_INT_SIZE / 4, SHM_INT_SIZE);
    }

    method BeginReadShm() returns (idx: nat)
      requires Valid()
      modifies this`index, tab0`cursor, tab1`cursor
      ensures Valid() && Effect(old(Shared()), Begin(idx), Shared())
    {
      hide Chained, Live, Unique;
      idx := index;
      index := 255 - idx;
      Table(idx).Begin();
    }

    static method ReadTable(t: TShmBuffer<Int32>) returns (ret: int, alarmid: KeyNo, val: Int32)
      requires t.Valid()
      modifies t`cursor
      ensures t.Valid() && (ret == 0 || ret == -1)
      ensures t.Contents() == old(t.Contents())
      ensures ret == 0 ==> old(t.Remaining()) == multiset{Pair(alarmid, val)} + t.Remaining()
      ensures ret == -1 ==> old(t.Remaining()) == multiset{} == t.Remaining()
    {
      hide Chained, Live, Rest, Pair;
      var pos: nat;
      ret, alarmid, pos := t.Next();
      val := if ret == 0 then t.buffer[pos].value else 0;
    }

    method ReadShm(idx: nat) returns (ret: int, alarmid: KeyNo, val: Int32)
      requires Valid()
      modifies tab0`cursor, tab1`cursor
      ensures Valid() && (ret == 0 || ret == -1)
      ensures ret == 0 ==> Effect(old(Shared()), Read(idx, alarmid, val), Shared())
      ensures ret == -1 ==> Effect(old(Shared()), ReadEnd(idx), Shared())
    {
      hide Unique, Pair, TShmBuffer.Contents, TShmBuffer.Remaining, TShmBuffer.Valid;
      ret, alarmid, val := ReadTable(Table(idx));
    }

    method EndReadShm(idx: nat) returns (ret: int)
      requires Valid()
      modifies tab0, tab0.buffer, tab1, tab1.buffer
      ensures ret == 0 && Valid() && Effect(old(Shared()), End(idx), Shared())
    {
      hide Chained, Live, Rest;
      Table(idx).Clear();
      return 0;
    }

    /** What a call that adds a key comes to.  It fails only for a key that the table does not
        have and has no room for within the memory there is; then the table is lost. */
    static twostate predicate Fails(t: TShmBuffer<Int32>, k: Key, v: Int32)
      reads t, t.buffer
    {
      && t.Lost() && Absent(old(t.Contents()), k)
      && !RoomWithin(old(t.Contents()) + multiset{Pair(k, v)}, old(t.Form()), t.memory)
    }

    /** Adds val to the counter, whichever way the table has it. */
    static method IncTable(t: TShmBuffer<Int32>, alarmid: Key, val: Int32) returns (ret: int)
      requires Usable(t)
      modifies t, t.buffer
      ensures ret == 0 || ret == -1
      ensures t.buffer == old(t.buffer) || fresh(t.buffer)
      ensures ret == 0 ==> Usable(t) && Incremented(old(t.Contents()), alarmid, val, t.Contents())
      ensures ret == -1 ==> Fails(t, alarmid, val)
    {
      hide Chained, Live, Unique, Wrap, Val, Pair, Cong, NoneBetween, RoomWithin, Packed, Shape.After;
      var pos := t.Find(alarmid);
      if pos >= 0 {
        t.Store(pos, alarmid, Wrap(t.buffer[pos].value + val));
        ret := 0;
      } else {
        ghost var f, n := t.Form(), 0;
        ret, n := t.Add(alarmid, val, multiset{});
        AfterLarger(f, n);
      }
      if ret == 0 {
        IncrementedVal(old(t.Contents()), alarmid, val, t.Contents());
      }
    }

    /** Sets the counter to val, whichever way the table has it. */
    static method SetTable(t: TShmBuffer<Int32>, alarmid: Key, val: Int32) returns (ret: int)
      requires Usable(t)
      modifies t, t.buffer
      ensures ret == 0 || ret == -1
      ensures t.buffer == old(t.buffer) || fresh(t.buffer)
      ensures ret == 0 ==> Usable(t) && Assigned(old(t.Contents()), alarmid, val, t.Contents())
      ensures ret == -1 ==> Fails(t, alarmid, val)
    {
      hide Chained, Live, Unique, Val, Pair, NoneBetween, RoomWithin, Packed, Shape.After;
      var pos := t.Find(alarmid);
      if pos >= 0 {
        t.Store(pos, alarmid, val);
        ret := 0;
      } else {
        ghost var f, n := t.Form(), 0;
        ret, n := t.Add(alarmid, val, multiset{});
        AfterLarger(f, n);
      }
      if ret == 0 {
        AssignedVal(old(t.Contents()), alarmid, val, t.Contents());
      }
    }

    method IncShm(alarmid: Key, val: Int32) returns (ret: int)
      requires Valid()
      modifies tab0, tab0.buffer, tab1, tab1.buffer
      ensures ret == 0 || ret == -1
      ensures ret == 0 ==> Valid() && Effect(old(Shared()), Inc(alarmid, val), Shared())
      ensures ret == -1 ==> Fails(Table(index), alarmid, val)
    {
      hide Chained, Live, Rest, Unique, Incremented, RoomWithin;
      ret := IncTable(Table(index), alarmid, val);
    }

    method SetShm(alarmid: Key, val: Int32) returns (ret: int)
      requires Valid()
      modifies tab0, tab0.buffer, tab1, tab1.buffer
      ensures ret == 0 || ret == -1
      ensures index == old(index)
      ensures ret == 0 ==>
                && Valid() && Assigned(old(Table(index).Contents()), alarmid, val, Table(index).Contents())
                && Table(index + 1).Contents() == old(Table(index + 1).Contents())
      ensures ret == -1 ==> Fails(Table(index), alarmid, val)
    {
      hide Chained, Live, Rest, Unique, Assigned, RoomWithin;
      ret := SetTable(Table(index), alarmid, val);
    }
  }
}
