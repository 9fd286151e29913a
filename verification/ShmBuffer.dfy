/** The chained hash table that 3rdlib/TShmBuffer.h lays out in one flat node array.

    Nodes [0, h) are the bucket heads, nodes [h, h + used) the overflow nodes handed out so
    far, and a `next` of 0 ends a chain.  Erasing a node only zeroes its key; such a node is
    handed out again to a later key of the same chain.  A table without room is copied into a
    larger one by adding its live nodes again, and that copying may itself run out of room. */
module ShmBuffer {

  /** One SHM_DATA_STRU.  A key of 0 marks an empty node. */
  datatype Node<T> = Node(keyno: KeyNo, value: T, next: nat)

  /** What the callers pass as a key: a positive int. */
  type Key = k: int | 0 < k < 0x8000_0000 witness 1

  /** What a node may hold: a key, or 0. */
  type KeyNo = k: int | 0 <= k < 0x8000_0000

  /** The (key, value) pairs that a table holds. */
  type Entries<T(==)> = multiset<(KeyNo, T)>

  function Hash(keyno: nat, h: nat): (b: nat)
    requires 0 < h
    ensures b < h
  {
    keyno % h
  }

  // ---------------------------------------------------------------- contents

  function Pair<T>(keyno: KeyNo, value: T): (KeyNo, T) { (keyno, value) }

  ghost function Entry<T>(n: Node<T>): Entries<T> {
    if n.keyno > 0 then multiset{(n.keyno, n.value)} else multiset{}
  }

  /** The (key, value) pairs held by the live nodes of s. */
  ghost function Live<T>(s: seq<Node<T>>): Entries<T> {
    if s == [] then multiset{} else Live(s[..|s| - 1]) + Entry(s[|s| - 1])
  }

  lemma {:induction false} LiveAppend<T>(a: seq<Node<T>>, b: seq<Node<T>>)
    ensures Live(a + b) == Live(a) + Live(b)
    decreases |b|
  {
    if b == [] {
      assert a + b == a;
    } else {
      assert (a + b)[..|a + b| - 1] == a + b[..|b| - 1];
      LiveAppend(a, b[..|b| - 1]);
    }
  }

  lemma LiveSingle<T>(n: Node<T>)
    ensures Live([n]) == Entry(n)
  {
    assert [n][..0] == [];
  }

  /** Overwriting one node exchanges its entry and leaves every other entry in place. */
  lemma LiveUpdate<T>(s: seq<Node<T>>, i: nat, n: Node<T>)
    requires i < |s|
    ensures Live(s[i := n]) + Entry(s[i]) == Live(s) + Entry(n)
    ensures Entry(s[i]) <= Live(s)
    ensures Entry(s[i]) == Entry(n) ==> Live(s[i := n]) == Live(s)
  {
    var a, b := s[..i], s[i + 1..];
    assert s == a + [s[i]] + b && s[i := n] == a + [n] + b;
    LiveAppend(a + [s[i]], b); LiveAppend(a, [s[i]]); LiveSingle(s[i]);
    LiveAppend(a + [n], b); LiveAppend(a, [n]); LiveSingle(n);
  }

  lemma {:induction false} LiveMember<T>(s: seq<Node<T>>, p: (KeyNo, T))
    ensures p in Live(s) <==> p.0 > 0 && exists i :: 0 <= i < |s| && s[i].keyno == p.0 && s[i].value == p.1
  {
    if s != [] {
      var t := s[..|s| - 1];
      LiveMember(t, p);
      assert forall i :: 0 <= i < |t| ==> t[i] == s[i];
    }
  }

  lemma LiveNoKey<T>(s: seq<Node<T>>, k: nat)
    requires forall i :: 0 <= i < |s| ==> s[i].keyno != k
    ensures forall p :: p in Live(s) ==> p.0 != k
  {
    forall p | p in Live(s)
      ensures p.0 != k
    {
      LiveMember(s, p);
    }
  }

  lemma {:induction false} LiveAllZero<T>(s: seq<Node<T>>)
    requires forall i :: 0 <= i < |s| ==> s[i].keyno == 0
    ensures Live(s) == multiset{}
  {
    if s != [] {
      LiveAllZero(s[..|s| - 1]);
    }
  }

  lemma {:induction false} LiveAllLive<T>(s: seq<Node<T>>)
    requires forall i :: 0 <= i < |s| ==> s[i].keyno > 0
    ensures |Live(s)| == |s|
  {
    if s != [] {
      LiveAllLive(s[..|s| - 1]);
    }
  }

  lemma LiveAround<T>(s: seq<Node<T>>, p: nat)
    requires p < |s|
    ensures Live(s[..p + 1]) == Live(s[..p]) + Entry(s[p])
    ensures s[p].keyno == 0 ==> Live(s[..p + 1]) == Live(s[..p])
    ensures Live(s) == Live(s[..p + 1]) + Live(s[p + 1..])
  {
    hide Live;
    assert s[..p + 1] == s[..p] + [s[p]] && s == s[..p + 1] + s[p + 1..];
    LiveAppend(s[..p], [s[p]]);
    LiveSingle(s[p]);
    LiveAppend(s[..p + 1], s[p + 1..]);
  }

  lemma LiveNil<T>()
    ensures Live<T>([]) == multiset{}
  {
  }

  /** What a scan that stands at index c has still to meet. */
  ghost function Rest<T>(s: seq<Node<T>>, c: int): Entries<T> {
    if c < 0 then Live(s) else if c > |s| then multiset{} else Live(s[c..])
  }

  lemma RestStep<T>(s: seq<Node<T>>, c: nat)
    requires c < |s|
    ensures Rest(s, c) == Entry(s[c]) + Rest(s, c + 1)
  {
    assert s[c..] == [s[c]] + s[c + 1..];
    LiveAppend([s[c]], s[c + 1..]);
    LiveSingle(s[c]);
  }

  lemma RestStart<T>(s: seq<Node<T>>, c: int)
    requires c < 0
    ensures Rest(s, c) == Rest(s, 0)
  {
    assert s[0..] == s;
  }

  lemma LiveThreeParts<T>(a: seq<Node<T>>, b: seq<Node<T>>, c: seq<Node<T>>)
    ensures Live(a + b + c) == Live(a) + Live(b) + Live(c)
  {
    LiveAppend(a + b, c);
    LiveAppend(a, b);
  }

  lemma {:induction false} LiveAtMost<T>(s: seq<Node<T>>)
    ensures |Live(s)| <= |s|
    ensures |Live(s)| == |s| ==> forall i :: 0 <= i < |s| ==> s[i].keyno > 0
  {
    if s != [] {
      LiveAtMost(s[..|s| - 1]);
    }
  }

  // ---------------------------------------------------------------- shape

  /** The chain invariant.  owner[i] is the chain that node i lies on; the nodes of one chain
      are linked in increasing index order, so `next` is the least later node with the same
      owner, or 0 when there is none.  Nodes not handed out yet are all zero. */
  ghost predicate Chained<T>(s: seq<Node<T>>, h: nat, owner: seq<nat>, zero: T)
  {
    && 0 < h <= |owner| <= |s|
    && (forall i :: 0 <= i < |owner| ==> owner[i] < h)
    && (forall i :: 0 <= i < h ==> owner[i] == i)
    && (forall i :: 0 <= i < |owner| && s[i].next != 0 ==> i < s[i].next < |owner|)
    && (forall i, j {:trigger s[i].next, owner[j]} :: 0 <= i < j < |owner| && s[i].next == j ==>
          owner[i] == owner[j])
    && (forall i, j :: 0 <= i < j < |owner| && owner[i] == owner[j] ==>
          s[i].next != 0 && s[i].next <= j)
    && (forall i :: 0 <= i < |owner| && s[i].keyno > 0 ==> owner[i] == Hash(s[i].keyno, h))
    && (forall i :: |owner| <= i < |s| ==> s[i] == Node(0, zero, 0))
  }

  /** The nodes met when the links are followed from node i. */
  ghost function Walk<T>(s: seq<Node<T>>, i: nat): seq<nat>
    requires i < |s|
    decreases |s| - i
  {
    if i < s[i].next < |s| then [i] + Walk(s, s[i].next) else [i]
  }

  lemma {:induction false} WalkIsOwned<T>(s: seq<Node<T>>, h: nat, owner: seq<nat>, zero: T, i: nat, j: nat)
    requires Chained(s, h, owner, zero) && i < |owner|
    ensures j in Walk(s, i) <==> i <= j < |owner| && owner[j] == owner[i]
    ensures forall x, y :: 0 <= x < y < |Walk(s, i)| ==> Walk(s, i)[x] < Walk(s, i)[y]
    decreases |s| - i
  {
    if s[i].next != 0 {
      var q := s[i].next;
      WalkIsOwned(s, h, owner, zero, q, j);
      var w := Walk(s, q);
      assert w[0] == q;
      assert Walk(s, i) == [i] + w;
      assert j in Walk(s, i) <==> j == i || j in w;
    }
  }

  /** Every handed-out node lies on exactly one chain, that of its owner, and each chain is
      walked in strictly increasing index order, hence in finitely many steps. */
  lemma ChainsPartition<T>(s: seq<Node<T>>, h: nat, owner: seq<nat>, zero: T, b: nat, j: nat)
    requires Chained(s, h, owner, zero) && b < h
    ensures j in Walk(s, b) <==> j < |owner| && owner[j] == b
    ensures forall x, y :: 0 <= x < y < |Walk(s, b)| ==> Walk(s, b)[x] < Walk(s, b)[y]
    ensures forall x :: 1 <= x < |Walk(s, b)| ==> h <= Walk(s, b)[x] < |owner|
  {
    WalkIsOwned(s, h, owner, zero, b, j);
    var w := Walk(s, b);
    forall x | 1 <= x < |w|
      ensures h <= w[x] < |owner|
    {
      WalkIsOwned(s, h, owner, zero, b, w[x]);
      assert w[0] == b && w[x] in w;
    }
  }

  /** A zeroed table has every chain reduced to its head, and holds nothing. */
  lemma ChainedFresh<T>(s: seq<Node<T>>, h: nat, owner: seq<nat>, zero: T)
    requires 0 < h <= |s| && |owner| == h
    requires forall i :: 0 <= i < h ==> owner[i] == i
    requires forall i :: 0 <= i < |s| ==> s[i] == Node(0, zero, 0)
    ensures Chained(s, h, owner, zero) && Live(s) == multiset{}
  {
    LiveAllZero(s);
  }

  lemma ChainedOwners<T>(s: seq<Node<T>>, h: nat, owner: seq<nat>, zero: T)
    requires Chained(s, h, owner, zero)
    ensures forall i :: 0 <= i < |owner| ==> owner[i] < |owner|
  {
  }

  /** Filling a node of the right chain keeps the shape. */
  lemma ChainedFill<T>(s: seq<Node<T>>, h: nat, owner: seq<nat>, zero: T, i: nat, n: Node<T>)
    requires Chained(s, h, owner, zero) && i < |owner|
    requires n.next == s[i].next && (n.keyno > 0 ==> Hash(n.keyno, h) == owner[i])
    ensures Chained(s[i := n], h, owner, zero)
  {
  }

  /** Linking the first unused node behind the last node of a chain keeps the shape. */
  lemma ChainedAppend<T>(s: seq<Node<T>>, h: nat, owner: seq<nat>, zero: T, last: nat)
    requires Chained(s, h, owner, zero)
    requires last < |owner| < |s| && s[last].next == 0
    ensures Chained(s[last := s[last].(next := |owner|)], h, owner + [owner[last]], zero)
    ensures s[last := s[last].(next := |owner|)][|owner|] == Node(0, zero, 0)
  {
    var t := s[last := s[last].(next := |owner|)];
    var o := owner + [owner[last]];
    forall i, j | 0 <= i < j < |o| && o[i] == o[j]
      ensures t[i].next != 0 && t[i].next <= j
    {
      assert o[i] == owner[i];
    }
  }

  lemma UnusedHoldNothing<T>(s: seq<Node<T>>, h: nat, owner: seq<nat>, zero: T, c: nat)
    requires Chained(s, h, owner, zero) && |owner| <= c
    ensures Rest(s, c) == multiset{}
  {
    if c <= |s| { LiveAllZero(s[c..]); }
  }

  // ---------------------------------------------------------------- room

  /** hash_size and data_size. */
  datatype Shape = Shape(h: nat, d: nat) {
    function Total(): nat { h + d }

    /** What a rehash allocates. */
    function Grown(): Shape { Shape(h * 12 / 10, (h + d) * 12 / 10 - h * 12 / 10) }

    function After(rehashes: nat): Shape {
      if rehashes == 0 then this else After(rehashes - 1).Grown()
    }
  }

  /** The buckets that entries belong to. */
  ghost function Buckets<T>(c: Entries<T>, h: nat): set<nat>
    requires 0 < h
  {
    set p | p in c :: Hash(p.0, h)
  }

  /** The entries fit: the heads take one for each bucket, and the overflow area the others. */
  ghost predicate Room<T>(c: Entries<T>, f: Shape) {
    0 < f.h && |c| <= |Buckets(c, f.h)| + f.d
  }

  lemma {:induction false} BucketsFew<T>(c: Entries<T>, h: nat)
    requires 0 < h
    ensures |Buckets(c, h)| <= |c|
  {
    if p :| p in c {
      var b := c - multiset{p};
      BucketsFew(b, h);
      BucketsJoin(b, multiset{p}, h);
      assert c == b + multiset{p} && Buckets(multiset{p}, h) == {Hash(p.0, h)};
    } else {
      assert Buckets(c, h) == {};
    }
  }

  lemma BucketsJoin<T>(a: Entries<T>, b: Entries<T>, h: nat)
    requires 0 < h
    ensures Buckets(a + b, h) == Buckets(a, h) + Buckets(b, h)
  {
    forall p | p in a + b
      ensures Hash(p.0, h) in Buckets(a, h) + Buckets(b, h)
    {
      assert p in a || p in b;
    }
    assert forall p :: p in a || p in b ==> p in a + b;
  }

  /** Entries among others that fit do fit. */
  lemma RoomForPart<T>(a: Entries<T>, b: Entries<T>, f: Shape)
    requires Room(a + b, f)
    ensures Room(a, f)
  {
    BucketsJoin(a, b, f.h);
    BucketsFew(b, f.h);
    hide Buckets;
    assert |Buckets(a, f.h) + Buckets(b, f.h)| <= |Buckets(a, f.h)| + |Buckets(b, f.h)|;
  }

  // ---------------------------------------------------------------- growth

  /** The overflow area grows at every rehash, whatever the number of buckets, exactly when it
      has at least five nodes; below that the rounding can eat the whole growth. */
  lemma OverflowGrows(d: nat)
    ensures (forall h: nat :: 0 < h ==> Shape(h, d).Grown().d > d) <==> d >= 5
  {
    if d < 5 {
      assert Shape(5, d).Grown().d == d;
    }
  }

  /** A rehash makes no table smaller, and leaves exactly those of fewer than five nodes as
      they are. */
  lemma TinyTableIsStuck(f: Shape)
    ensures f.Grown() == f <==> f.Total() < 5
    ensures f.Grown().h >= f.h && f.Grown().d >= f.d
  {
  }

  lemma {:induction false} AfterSum(f: Shape, i: nat, j: nat)
    ensures f.After(i).After(j) == f.After(i + j)
  {
    if j > 0 {
      AfterSum(f, i, j - 1);
    }
  }

  /** Whatever has at least five nodes grows with every rehash. */
  lemma {:induction false} AfterLarger(f: Shape, n: nat)
    ensures f.After(n).h >= f.h + if f.h >= 5 then n else 0
    ensures f.After(n).d >= f.d + if f.d >= 5 then n else 0
    ensures f.After(n).Total() >= f.Total() + if f.Total() >= 5 then n else 0
    ensures f.h < 5 ==> f.After(n).h == f.h
    ensures f.h >= 5 && f.d == 0 ==> f.After(n).d == 0
    ensures f.Total() < 5 ==> f.After(n) == f
  {
    if n > 0 {
      AfterLarger(f, n - 1);
    }
  }

  lemma AfterMonotone(f: Shape, i: nat, j: nat)
    requires i <= j
    ensures f.After(i).Total() <= f.After(j).Total() && f.After(i).d <= f.After(j).d
  {
    AfterSum(f, i, j - i);
    AfterLarger(f.After(i), j - i);
  }

  ghost predicate NoneBetween<T>(c: Entries<T>, f: Shape, lo: nat, hi: nat) {
    forall i :: lo <= i < hi ==> !Room(c, f.After(i))
  }

  lemma NoneForMore<T>(a: Entries<T>, b: Entries<T>, f: Shape, lo: nat, hi: nat)
    requires NoneBetween(a, f, lo, hi)
    ensures NoneBetween(a + b, f, lo, hi)
  {
    forall i | lo <= i < hi
      ensures !Room(a + b, f.After(i))
    {
      if Room(a + b, f.After(i)) { RoomForPart(a, b, f.After(i)); }
    }
  }

  lemma NoneYet<T>(c: Entries<T>, f: Shape)
    ensures NoneBetween(c, f, 1, 1)
  {
  }

  lemma NoneFrom<T>(c: Entries<T>, f: Shape, lo: nat, n: nat)
    requires NoneBetween(c, f, 1, n) && lo <= 1 && (lo == 0 ==> !Room(c, f))
    ensures NoneBetween(c, f, lo, n)
  {
  }

  lemma Unrehashed<T>(c: Entries<T>, f: Shape, lo: nat)
    ensures NoneBetween(c, f, lo, 0) && f.After(0) == f
  {
  }

  lemma FirstRehash(f: Shape, nhash: nat, nrec: nat)
    requires nhash == f.h * 12 / 10 && nrec == (f.h + f.d) * 12 / 10
    ensures f.h <= nhash <= nrec && f.After(1) == Shape(nhash, nrec - nhash)
  {
    assert f.After(1) == f.After(0).Grown();
  }

  lemma NoneJoin<T>(c: Entries<T>, f: Shape, lo: nat, i: nat, n: nat)
    requires NoneBetween(c, f, lo, i) && NoneBetween(c, f.After(i), 0, n)
    ensures NoneBetween(c, f, lo, i + n)
  {
    hide Room;
    forall j | i <= j < i + n
      ensures !Room(c, f.After(j))
    {
      AfterSum(f, i, j - i);
      assert !Room(c, f.After(i).After(j - i));
    }
  }

  /** Some number of rehashes makes room for the entries. */
  ghost predicate RoomComes<T>(c: Entries<T>, f: Shape) {
    exists n: nat :: n >= 1 && Room(c, f.After(n))
  }

  /** The same within segments of at most `memory` nodes. */
  ghost predicate RoomWithin<T>(c: Entries<T>, f: Shape, memory: nat) {
    exists n: nat :: n >= 1 && f.After(n).Total() <= memory && Room(c, f.After(n))
  }

  /** The first rehash that makes room decides. */
  lemma FirstDecides<T>(c: Entries<T>, f: Shape, n: nat, memory: nat)
    requires n >= 1 && NoneBetween(c, f, 1, n)
    requires f.After(n).Total() <= memory ==> Room(c, f.After(n))
    ensures RoomWithin(c, f, memory) <==> f.After(n).Total() <= memory
  {
    hide Room;
    if m: nat :| m >= 1 && f.After(m).Total() <= memory && Room(c, f.After(m)) {
      AfterMonotone(f, n, if m < n then n else m);
    }
  }

  /** Enough memory is all that a growing table needs. */
  lemma EnoughMemory<T>(c: Entries<T>, f: Shape)
    ensures RoomComes(c, f) <==> exists memory: nat :: RoomWithin(c, f, memory)
  {
    hide Room;
    if n: nat :| n >= 1 && Room(c, f.After(n)) {
      assert RoomWithin(c, f, f.After(n).Total());
    }
  }

  // ---------------------------------------------------------------- when room comes

  ghost function Keys<T>(c: Entries<T>): set<KeyNo> {
    set p | p in c :: p.0
  }

  /** How many entries repeat a key. */
  ghost function Repeats<T>(c: Entries<T>): int { |c| - |Keys(c)| }

  lemma {:induction false} HashesFew(s: set<KeyNo>, h: nat)
    requires 0 < h
    ensures |set k | k in s :: Hash(k, h)| <= |s|
  {
    if k :| k in s {
      HashesFew(s - {k}, h);
      assert (set x | x in s :: Hash(x, h)) == (set x | x in s - {k} :: Hash(x, h)) + {Hash(k, h)};
    } else {
      assert (set x | x in s :: Hash(x, h)) == {};
    }
  }

  /** Buckets never tell more entries apart than keys do, and just as many once there are more
      buckets than keys. */
  lemma BucketsOfKeys<T>(c: Entries<T>, h: nat)
    requires 0 < h
    ensures |Buckets(c, h)| <= |Keys(c)|
    ensures h >= 0x8000_0000 ==> |Buckets(c, h)| == |Keys(c)|
  {
    assert Buckets(c, h) == set k | k in Keys(c) :: Hash(k, h) by {
      assert forall p :: p in c ==> p.0 in Keys(c);
    }
    HashesFew(Keys(c), h);
    if h >= 0x8000_0000 {
      assert forall k: KeyNo :: Hash(k, h) == k;
      assert Buckets(c, h) == Keys(c);
    }
  }

  lemma RoomForRepeats<T>(c: Entries<T>, f: Shape, n: nat)
    requires f.h >= 5
    ensures Room(c, f.After(n)) ==> Repeats(c) <= f.After(n).d
    ensures Repeats(c) <= f.After(n).d ==> Room(c, f.After(n + 0x8000_0000))
  {
    AfterLarger(f, n);
    AfterLarger(f, n + 0x8000_0000);
    AfterMonotone(f, n, n + 0x8000_0000);
    hide Buckets, Keys;
    BucketsOfKeys(c, f.After(n).h);
    BucketsOfKeys(c, f.After(n + 0x8000_0000).h);
  }

  /** With at least five buckets, room comes exactly when the overflow area comes to hold all
      entries that repeat a key. */
  lemma RoomComesForRepeats<T>(c: Entries<T>, f: Shape)
    requires f.h >= 5
    ensures RoomComes(c, f) <==> exists n: nat :: n >= 1 && Repeats(c) <= f.After(n).d
  {
    hide Room, Repeats;
    if n: nat :| n >= 1 && Room(c, f.After(n)) {
      RoomForRepeats(c, f, n);
    }
    if n: nat :| n >= 1 && Repeats(c) <= f.After(n).d {
      RoomForRepeats(c, f, n);
      assert n + 0x8000_0000 >= 1;
    }
  }

  lemma OverflowReaches(f: Shape, n: nat)
    requires f.d >= 5 || (f.h < 5 && f.Total() >= 5)
    ensures f.After(n + 1).d >= n
  {
    AfterLarger(f, n + 1);
  }

  /** How often five divides n. */
  function Fives(n: nat): nat { if n > 0 && n % 5 == 0 then 1 + Fives(n / 5) else 0 }

  lemma {:induction false} FivesOfSixfold(n: nat)
    ensures Fives(6 * n) == Fives(n)
  {
    if n > 0 && n % 5 == 0 {
      FivesOfSixfold(n / 5);
      assert 6 * n / 5 == 6 * (n / 5);
    }
  }

  lemma FourGrown(h: nat)
    ensures h % 5 != 0 ==> Shape(h, 4).Grown().d == 5
    ensures h % 5 == 0 ==> Shape(h, 4).Grown() == Shape(6 * (h / 5), 4)
  {
    TwelveTenths(h / 5, h % 5);
    TwelveTenths(h / 5, h % 5 + 4);
  }

  lemma TwelveTenths(q: nat, r: nat)
    ensures (5 * q + r) * 12 / 10 == 6 * q + r * 12 / 10
  {
    assert (5 * q + r) * 12 == 10 * (6 * q) + r * 12;
  }

  /** Four overflow nodes become five as soon as five does not divide the number of buckets, and
      a rehash that leaves them four takes one of its fives away. */
  lemma {:induction false} FourGrow(f: Shape) returns (n: nat)
    requires f.h >= 5 && f.d == 4
    ensures n == Fives(f.h) + 1 && f.After(n).d >= 5
    decreases Fives(f.h)
  {
    assert f.After(1) == f.After(0).Grown() == f.Grown();
    FourGrown(f.h);
    hide Shape.Grown, Shape.After;
    if f.h % 5 != 0 {
      n := 1;
    } else {
      FivesOfSixfold(f.h / 5);
      var m := FourGrow(f.Grown());
      AfterSum(f, 1, m);
      n := 1 + m;
    }
  }

  lemma RoomComesLater<T>(c: Entries<T>, f: Shape, n: nat)
    requires RoomComes(c, f.After(n))
    ensures RoomComes(c, f)
  {
    hide Room;
    var m: nat :| m >= 1 && Room(c, f.After(n).After(m));
    AfterSum(f, n, m);
    assert Room(c, f.After(n + m));
  }

  /** What becomes of a table of each shape.  Of an overflow area of one to three nodes behind
      five or more buckets nothing more is said than RoomComesForRepeats: whether each of them
      comes to have four nodes is open. */
  lemma RoomComesWhen<T>(c: Entries<T>, f: Shape)
    requires f.h > 0
    ensures f.Total() < 5 ==> (RoomComes(c, f) <==> Room(c, f))
    ensures f.d >= 4 && f.Total() >= 5 ==> RoomComes(c, f)
    ensures f.h < 5 && f.Total() >= 5 ==> RoomComes(c, f)
    ensures f.h >= 5 && f.d == 0 ==> (RoomComes(c, f) <==> Repeats(c) <= 0)
    ensures f.h >= 5 && Repeats(c) <= f.d ==> RoomComes(c, f)
    decreases f.d == 4
  {
    AfterLarger(f, 1);
    if f.Total() < 5 {
      forall n: nat
        ensures f.After(n) == f
      {
        AfterLarger(f, n);
      }
      assert Room(c, f) ==> Room(c, f.After(1));
    } else if f.d >= 5 || f.h < 5 {
      OverflowReaches(f, |c|);
      AfterLarger(f, |c| + 1);
      assert Room(c, f.After(|c| + 1));
    } else if f.d == 4 {
      var n := FourGrow(f);
      AfterLarger(f, n);
      RoomComesWhen(c, f.After(n));
      RoomComesLater(c, f, n);
    }
    if f.h >= 5 {
      hide RoomComes, Room, Repeats;
      RoomComesForRepeats(c, f);
      if f.d == 0 {
        forall n: nat
          ensures f.After(n).d == 0
        {
          AfterLarger(f, n);
        }
      }
      assert Repeats(c) <= f.d ==> Repeats(c) <= f.After(1).d;
    }
  }

  // ---------------------------------------------------------------- tables without gaps

  /** No handed-out overflow node is empty, nor is the head of its chain. */
  ghost predicate Packed<T>(s: seq<Node<T>>, h: nat, owner: seq<nat>) {
    && |owner| <= |s|
    && forall i :: h <= i < |owner| ==> s[i].keyno > 0 && owner[i] < |s| && s[owner[i]].keyno > 0
  }

  ghost function LiveHeads<T>(s: seq<Node<T>>, h: nat): set<nat>
    requires h <= |s|
  {
    set b | 0 <= b < h && s[b].keyno > 0
  }

  lemma LiveHeadsNone<T>(s: seq<Node<T>>)
    ensures |Live(s[..0])| == |LiveHeads(s, 0)|
  {
    assert LiveHeads(s, 0) == {};
  }

  lemma LiveHeadsNext<T>(s: seq<Node<T>>, h: nat)
    requires h < |s|
    ensures |LiveHeads(s, h + 1)| == |LiveHeads(s, h)| + if s[h].keyno > 0 then 1 else 0
  {
    assert LiveHeads(s, h + 1) == LiveHeads(s, h) + if s[h].keyno > 0 then {h} else {};
  }

  lemma LiveNext<T>(s: seq<Node<T>>, h: nat)
    requires h < |s|
    ensures |Live(s[..h + 1])| == |Live(s[..h])| + if s[h].keyno > 0 then 1 else 0
  {
    assert s[..h + 1][..h] == s[..h];
  }

  lemma {:induction false} LiveHeadsCount<T>(s: seq<Node<T>>, h: nat)
    requires h <= |s|
    ensures |Live(s[..h])| == |LiveHeads(s, h)|
    decreases h
  {
    if h == 0 {
      LiveHeadsNone(s);
    } else {
      hide *;
      LiveHeadsCount(s, h - 1);
      LiveNext(s, h - 1);
      LiveHeadsNext(s, h - 1);
    }
  }

  /** How many entries there are: the live heads, and the live overflow nodes. */
  lemma ChainedCount<T>(s: seq<Node<T>>, h: nat, owner: seq<nat>, zero: T)
    requires Chained(s, h, owner, zero)
    ensures |Live(s)| == |LiveHeads(s, h)| + |Live(s[h..|owner|])|
  {
    assert 0 < h <= |owner| <= |s|;
    LiveAllZero(s[|owner|..]);
    hide *;
    LiveHeadsCount(s, h);
    LiveCut(s, h, |owner|);
  }

  lemma LiveCut<T>(s: seq<Node<T>>, i: nat, j: nat)
    requires i <= j <= |s|
    ensures Live(s) == Live(s[..i]) + Live(s[i..j]) + Live(s[j..])
  {
    hide *;
    assert s == s[..i] + s[i..j] + s[j..];
    LiveThreeParts(s[..i], s[i..j], s[j..]);
  }

  /** Every live head is a bucket of the entries; without gaps there are no others. */
  lemma HeadsAreBuckets<T>(s: seq<Node<T>>, h: nat, owner: seq<nat>, zero: T)
    requires Chained(s, h, owner, zero)
    ensures LiveHeads(s, h) <= Buckets(Live(s), h)
    ensures Packed(s, h, owner) ==> LiveHeads(s, h) == Buckets(Live(s), h)
  {
    forall b | b in LiveHeads(s, h)
      ensures b in Buckets(Live(s), h)
    {
      LiveMember(s, Pair(s[b].keyno, s[b].value));
      assert Pair(s[b].keyno, s[b].value) in Live(s) && owner[b] == b;
    }
    forall p | p in Live(s) && Packed(s, h, owner)
      ensures Hash(p.0, h) in LiveHeads(s, h)
    {
      LiveMember(s, p);
      var i :| 0 <= i < |s| && s[i].keyno == p.0 && s[i].value == p.1;
      assert i < |owner| && owner[i] == Hash(p.0, h);
    }
  }

  /** A table has room for what it holds, and without gaps it has used just what that takes. */
  lemma RoomInUse<T>(s: seq<Node<T>>, h: nat, owner: seq<nat>, zero: T)
    requires Chained(s, h, owner, zero)
    ensures Room(Live(s), Shape(h, |s| - h))
    ensures Packed(s, h, owner) ==> |Live(s)| == |Buckets(Live(s), h)| + |owner| - h
  {
    assert 0 < h <= |owner| <= |s|;
    OverflowCount(s, h, owner, zero);
    HeadsAreBuckets(s, h, owner, zero);
    ChainedCount(s, h, owner, zero);
    hide Live, Chained, LiveHeads, Buckets, Packed;
    SubsetFewer(LiveHeads(s, h), Buckets(Live(s), h));
  }

  lemma OverflowCount<T>(s: seq<Node<T>>, h: nat, owner: seq<nat>, zero: T)
    requires Chained(s, h, owner, zero)
    ensures |Live(s[h..|owner|])| <= |owner| - h
    ensures Packed(s, h, owner) ==> |Live(s[h..|owner|])| == |owner| - h
  {
    var y := s[h..|owner|];
    LiveAtMost(y);
    if Packed(s, h, owner) {
      hide Live, Chained;
      LiveAllLive(y);
    }
  }

  /** One more entry fits exactly when a node is unused or its head is empty. */
  lemma OneMoreFits<T>(s: seq<Node<T>>, h: nat, owner: seq<nat>, zero: T, e: (KeyNo, T))
    requires Chained(s, h, owner, zero) && Packed(s, h, owner)
    ensures Room(Live(s) + multiset{e}, Shape(h, |s| - h)) <==> |owner| < |s| || s[Hash(e.0, h)].keyno == 0
  {
    assert 0 < h <= |owner| <= |s|;
    RoomInUse(s, h, owner, zero);
    HeadsAreBuckets(s, h, owner, zero);
    BucketsMore(Live(s), e, h);
    assert Hash(e.0, h) in LiveHeads(s, h) <==> s[Hash(e.0, h)].keyno > 0;
    hide Live, LiveHeads, Buckets, Packed, Chained, Hash;
  }

  lemma BucketsMore<T>(c: Entries<T>, e: (KeyNo, T), h: nat)
    requires 0 < h
    ensures |Buckets(c + multiset{e}, h)| == |Buckets(c, h)| + if Hash(e.0, h) in Buckets(c, h) then 0 else 1
  {
    var b := Hash(e.0, h);
    BucketsJoin(c, multiset{e}, h);
    assert Buckets(multiset{e}, h) == {b};
    hide Buckets, Hash;
    var known := Buckets(c, h);
    assert b in known ==> known + {b} == known;
  }

  /** While a node of the chain is empty or one is unused there is room, whatever gaps there
      are. */
  lemma RoomWhileFree<T>(s: seq<Node<T>>, h: nat, owner: seq<nat>, zero: T, e: (KeyNo, T), i: nat)
    requires Chained(s, h, owner, zero) && e.0 > 0
    requires |owner| < |s| || (i < |owner| && owner[i] == Hash(e.0, h) && s[i].keyno == 0)
    ensures Room(Live(s) + multiset{e}, Shape(h, |s| - h))
  {
    assert 0 < h <= |owner| <= |s|;
    if |owner| < |s| {
      RoomForOneMore(s, h, owner, zero, e);
    } else {
      var n := s[i].(keyno := e.0, value := e.1);
      ChainedFill(s, h, owner, zero, i, n);
      LiveUpdate(s, i, n);
      hide Chained, Live, Room;
      RoomInUse(s[i := n], h, owner, zero);
      assert Live(s[i := n]) + multiset{} == Live(s) + multiset{e};
      assert Live(s[i := n]) == Live(s) + multiset{e};
    }
  }

  lemma RoomForOneMore<T>(s: seq<Node<T>>, h: nat, owner: seq<nat>, zero: T, e: (KeyNo, T))
    requires Chained(s, h, owner, zero) && |owner| < |s|
    ensures Room(Live(s) + multiset{e}, Shape(h, |s| - h))
  {
    assert 0 < h <= |owner| <= |s|;
    ChainedCount(s, h, owner, zero);
    OverflowCount(s, h, owner, zero);
    HeadsAreBuckets(s, h, owner, zero);
    BucketsMore(Live(s), e, h);
    hide Live, Chained, LiveHeads, Buckets;
    SubsetFewer(LiveHeads(s, h), Buckets(Live(s), h));
  }

  lemma PackedFill<T>(s: seq<Node<T>>, h: nat, owner: seq<nat>, i: nat, n: Node<T>)
    requires Packed(s, h, owner) && i < |s| && n.keyno > 0
    ensures Packed(s[i := n], h, owner)
  {
  }

  /** Linking a node to a chain with a live head and filling it leaves no gap. */
  lemma PackedLink<T>(s: seq<Node<T>>, h: nat, owner: seq<nat>, b: nat, t: seq<Node<T>>)
    requires |owner| < |s| == |t| && (forall j :: 0 <= j < |owner| ==> owner[j] < |owner|)
    requires Packed(s, h, owner) && b < |owner| && s[b].keyno > 0
    requires t[|owner|].keyno > 0 && forall j :: 0 <= j < |owner| && s[j].keyno > 0 ==> t[j].keyno > 0
    ensures Packed(t, h, owner + [b])
  {
  }

  lemma {:induction false} SubsetFewer(a: set<nat>, b: set<nat>)
    requires a <= b
    ensures |a| <= |b|
  {
    assert b == a + (b - a);
  }

  // ---------------------------------------------------------------- the table

  class TShmBuffer<T(==)> {
    const zero: T       // the value made of zero bytes
    const memory: nat   // how many nodes the largest segment to be had can hold
    var buffer: array<Node<T>>
    var hashSize: nat
    var dataSize: nat
    var usedSize: nat
    var totalSize: int
    var cursor: int  // m_pNode as an index, -1 for the null pointer
    ghost var owner: seq<nat>

    ghost predicate Valid()
      reads this, buffer
    {
      && 0 < hashSize && usedSize <= dataSize
      && buffer.Length == hashSize + dataSize <= memory
      && |owner| == hashSize + usedSize
      && Chained(buffer[..], hashSize, owner, zero)
    }

    /** The segment was given back and no other could be had. */
    ghost predicate Lost()
      reads this
    {
      hashSize == 0
    }

    ghost function Form(): Shape
      reads this
    {
      Shape(hashSize, dataSize)
    }

    ghost function Contents(): Entries<T>
      reads this, buffer
    {
      Live(buffer[..])
    }

    /** No handed-out overflow node is empty, nor is the head of its chain. */
    ghost predicate NoGap()
      reads this, buffer
      requires Valid()
    {
      Packed(buffer[..], hashSize, owner)
    }

    /** Adding keyno needs a rehash: no empty node on its chain and no unused node left. */
    ghost predicate Crowded(keyno: nat)
      reads this, buffer
      requires Valid()
    {
      && usedSize >= dataSize
      && forall i :: 0 <= i < hashSize + usedSize && owner[i] == Hash(keyno, hashSize) ==> buffer[i].keyno > 0
    }

    constructor (z: T, largest: nat)
      ensures zero == z && memory == largest && Lost() && cursor == -1 && fresh(buffer)
    {
      zero, memory := z, largest;
      buffer := new Node<T>[0];
      hashSize, dataSize, usedSize, totalSize, cursor := 0, 0, 0, 0, -1;
      owner := [];
    }

    method Alloc(nhash: nat, nrec: nat) returns (ret: int)
      requires 0 < nhash <= nrec
      modifies this
      ensures ret == if nrec <= memory then 0 else -1
      ensures ret == 0 ==> Valid() && fresh(buffer) && Form() == Shape(nhash, nrec - nhash)
      ensures ret == 0 ==> usedSize == 0 && totalSize == 0 && Contents() == multiset{} && NoGap()
      ensures ret == -1 ==> Form() == old(Form()) && buffer == old(buffer)
      ensures cursor == old(cursor)
    {
      hide Chained, Live;
      if nrec > memory {
        return -1;
      }
      var z := zero;
      buffer := new Node<T>[nrec](_ => Node(0, z, 0));
      hashSize, dataSize, usedSize, totalSize := nhash, nrec - nhash, 0, 0;
      owner := seq(nhash, i => i);
      ChainedFresh(buffer[..], hashSize, owner, zero);
      return 0;
    }

    /** Gives the segment back. */
    method Destroy()
      modifies this
      ensures Lost() && fresh(buffer) && cursor == old(cursor)
    {
      buffer := new Node<T>[0];
      hashSize := 0;
    }

    /** pos is where the first node of the whole array is that holds the key; it is negative when
        no entry has the key. */
    ghost predicate Found(keyno: Key, pos: int)
      reads this, buffer
      requires Valid()
    {
      && -1 <= pos < hashSize + usedSize
      && (pos >= 0 ==> owner[pos] == Hash(keyno, hashSize) && buffer[pos].keyno == keyno)
      && (pos >= 0 ==> forall i :: 0 <= i < pos ==> buffer[i].keyno != keyno)
      && (pos < 0 ==> forall p :: p in Contents() ==> p.0 != keyno)
    }

    /** Walks one chain.  The walk goes up the array, so the node found is the first one of the
        whole array that holds the key; when it fails no node holds the key. */
    method Find(keyno: Key) returns (pos: int)
      requires Valid()
      ensures Found(keyno, pos)
    {
      var p := Hash(keyno, hashSize);
      while true
        invariant 0 <= p < |owner| && owner[p] == Hash(keyno, hashSize)
        invariant forall i :: 0 <= i < p ==> buffer[i].keyno != keyno
        decreases |owner| - p
      {
        if buffer[p].keyno == keyno {
          return p;
        }
        if buffer[p].next == 0 {
          break;
        }
        p := buffer[p].next;
      }
      LiveNoKey(buffer[..], keyno);
      return -1;
    }

    /** Overwrites the key and value of node p with an entry of p's own chain, or empties it. */
    method SetNode(p: nat, keyno: KeyNo, value: T)
      requires Valid() && p < hashSize + usedSize
      requires keyno > 0 ==> Hash(keyno, hashSize) == owner[p]
      modifies buffer
      ensures Valid() && (keyno > 0 && old(NoGap()) ==> NoGap())
      ensures buffer[..] == old(buffer[..])[p := old(buffer[p]).(keyno := keyno, value := value)]
      ensures Contents() + Entry(old(buffer[p])) == old(Contents()) + Entry(buffer[p])
    {
      hide Chained, Live, Packed;
      ghost var s := buffer[..];
      buffer[p] := buffer[p].(keyno := keyno, value := value);
      assert buffer[..] == s[p := buffer[p]];
      LiveUpdate(s, p, buffer[p]);
      ChainedFill(s, hashSize, owner, zero, p, buffer[p]);
      if keyno > 0 && old(NoGap()) { PackedFill(s, hashSize, owner, p, buffer[p]); }
    }

    /** Writes through the pointer that Find gave for keyno. */
    method Store(p: nat, keyno: Key, value: T)
      requires Valid() && p < hashSize + usedSize
      requires buffer[p].keyno == keyno && owner[p] == Hash(keyno, hashSize)
      modifies buffer
      ensures Valid() && Pair(keyno, old(buffer[p].value)) in old(Contents())
      ensures Contents() + multiset{Pair(keyno, old(buffer[p].value))} == old(Contents()) + multiset{Pair(keyno, value)}
    {
      hide Chained, Live;
      LiveMember(buffer[..], Pair(keyno, buffer[p].value));
      SetNode(p, keyno, value);
    }

    /** Zeroes the key of the first node holding it.  The recorded size is left as it was. */
    method Erase(keyno: Key) returns (ret: int)
      requires Valid()
      modifies buffer
      ensures Valid()
      ensures ret == 0 || ret == -1
      ensures ret == 0 ==> exists v :: Contents() + multiset{Pair(keyno, v)} == old(Contents())
      ensures ret == -1 ==> Contents() == old(Contents()) && forall p :: p in Contents() ==> p.0 != keyno
    {
      var p := Find(keyno);
      if p >= 0 {
        SetNode(p, 0, buffer[p].value);
        assert Contents() + multiset{Pair(keyno, old(buffer[p]).value)} == old(Contents());
        return 0;
      }
      return -1;
    }

    // ------------------------------------------------------------ adding

    lemma HasRoom()
      requires Valid()
      ensures Room(Contents(), Form())
    {
      RoomInUse(buffer[..], hashSize, owner, zero);
    }

    /** A table without gaps has to be rehashed for a further entry exactly when that does not
        fit in with the others. */
    lemma CrowdedLacksRoom(keyno: Key, data: T)
      requires Valid() && NoGap()
      ensures Crowded(keyno) <==> !Room(Contents() + multiset{Pair(keyno, data)}, Form())
    {
      var b := Hash(keyno, hashSize);
      OneMoreFits(buffer[..], hashSize, owner, zero, Pair(keyno, data));
      assert owner[b] == b;
      assert buffer[b].keyno > 0 ==>
          forall i :: 0 <= i < hashSize + usedSize && owner[i] == b ==> buffer[i].keyno > 0 by {
        assert forall i :: 0 <= i < hashSize ==> owner[i] == i;
        assert forall i :: hashSize <= i < |owner| ==> buffer[..][i].keyno > 0;
      }
    }

    /** With gaps, too, lack of room makes a rehash necessary. */
    lemma LacksRoomIsCrowded(keyno: Key, data: T)
      requires Valid() && !Room(Contents() + multiset{Pair(keyno, data)}, Form())
      ensures Crowded(keyno)
    {
      hide Chained, Live, Room;
      var s, e := buffer[..], Pair(keyno, data);
      if usedSize < dataSize { RoomWhileFree(s, hashSize, owner, zero, e, 0); }
      forall i | 0 <= i < hashSize + usedSize && owner[i] == Hash(keyno, hashSize)
        ensures buffer[i].keyno > 0
      {
        if s[i].keyno == 0 { RoomWhileFree(s, hashSize, owner, zero, e, i); }
      }
    }

    /** A table whose nodes are all live has to be rehashed whatever is added. */
    lemma FullIsCrowded(keyno: Key)
      requires Valid() && |Contents()| == hashSize + dataSize
      ensures Crowded(keyno)
    {
      var s := buffer[..];
      assert usedSize < dataSize ==> s[|owner|].keyno == 0;
      LiveAtMost(s);
      assert forall i :: 0 <= i < |s| ==> s[i] == buffer[i];
    }

    /** Some node of the key's chain is empty. */
    ghost predicate HasEmpty(keyno: Key)
      requires Valid()
      reads this, buffer
    {
      exists i :: 0 <= i < |owner| && owner[i] == keyno % hashSize && buffer[i].keyno == 0
    }

    /** Walks chain b to its first empty node, or to its last node when it has none. */
    method FindSlot(keyno: Key) returns (last: nat, empty: bool)
      requires Valid()
      ensures last < |owner| && owner[last] == Hash(keyno, hashSize)
      ensures (empty <==> buffer[last].keyno == 0) && (empty <==> HasEmpty(keyno))
      ensures !empty ==> buffer[last].next == 0 && buffer[Hash(keyno, hashSize)].keyno > 0
      ensures !empty && usedSize >= dataSize <==> Crowded(keyno)
    {
      ghost var b := Hash(keyno, hashSize);
      last := Hash(keyno, hashSize);
      while true
        invariant last < |owner| && owner[last] == b
        invariant forall i :: 0 <= i < last && owner[i] == b ==> buffer[i].keyno > 0
        decreases |owner| - last
      {
        if buffer[last].keyno == 0 {
          return last, true;
        }
        if buffer[last].next == 0 {
          assert owner[b] == b;
          return last, false;
        }
        last := buffer[last].next;
      }
    }

    /** Takes the first unused node and links it behind the last node of a chain. */
    method Link(last: nat) returns (newone: nat)
      requires Valid() && usedSize < dataSize
      requires last < |owner| && buffer[last].next == 0
      modifies this`usedSize, this`owner, buffer
      ensures Valid() && usedSize == old(usedSize) + 1
      ensures newone == old(hashSize + usedSize) && owner == old(owner) + [old(owner)[last]]
      ensures Contents() == old(Contents()) && buffer[newone] == Node(0, zero, 0)
      ensures buffer[..] == old(buffer[..])[last := old(buffer[last]).(next := newone)]
    {
      hide Chained, Live, Rest;
      ghost var s, o := buffer[..], owner;
      newone := hashSize + usedSize;
      buffer[last] := buffer[last].(next := newone);
      assert buffer[..] == s[last := s[last].(next := newone)];
      usedSize := usedSize + 1;
      owner := o + [o[last]];
      ChainedAppend(s, hashSize, o, zero, last);
      LiveUpdate(s, last, s[last].(next := newone));
    }

    /** Fills an empty node of the key's chain, or a newly linked one behind `last`. */
    method Place(keyno: Key, data: T, last: nat, empty: bool)
      requires Valid() && last < |owner| && owner[last] == Hash(keyno, hashSize)
      requires empty <==> buffer[last].keyno == 0
      requires !empty ==> buffer[last].next == 0 && usedSize < dataSize && buffer[owner[last]].keyno > 0
      modifies this`usedSize, this`owner, buffer
      ensures Valid() && (old(NoGap()) ==> NoGap())
      ensures Contents() == old(Contents()) + multiset{Pair(keyno, data)}
      ensures usedSize == old(usedSize) + if empty then 0 else 1
    {
      hide Chained, Live, Rest, Packed;
      ghost var s, o := buffer[..], owner;
      ChainedOwners(s, hashSize, o, zero);
      var newone := last;
      if !empty {
        newone := Link(last);
      }
      SetNode(newone, keyno, data);
      if !empty && old(NoGap()) {
        PackedLink(s, hashSize, o, o[last], buffer[..]);
      }
    }

    /** Adds an entry, reusing an empty node of the chain, else taking an unused node, else
        rehashing first, `rehashes` times in all; the first rehash that makes room is the last.
        The rehashing stops when no larger segment can be had, and then the table is lost.  A
        table of fewer than five nodes does not grow, so that rehashing it stops only if it has
        room; `pending` is what a running rehash has still to add. */
    method Add(keyno: Key, data: T, ghost pending: Entries<T>) returns (ret: int, ghost rehashes: nat)
      requires Valid()
      requires Form().Total() < 5 ==> Room(Contents() + multiset{Pair(keyno, data)} + pending, Form())
      modifies this, buffer
      ensures ret == 0 || ret == -1
      ensures rehashes > 0 <==> old(Crowded(keyno))
      ensures NoneBetween(old(Contents()) + multiset{Pair(keyno, data)}, old(Form()),
                          if old(NoGap()) then 0 else 1, rehashes)
      ensures ret == 0 <==> old(Form()).After(rehashes).Total() <= memory
      ensures ret == 0 <==>
        rehashes == 0 || RoomWithin(old(Contents()) + multiset{Pair(keyno, data)}, old(Form()), memory)
      ensures ret == 0 ==> Valid() && Form() == old(Form()).After(rehashes)
      ensures ret == 0 ==> Contents() == old(Contents()) + multiset{Pair(keyno, data)}
      ensures ret == 0 ==> totalSize == if rehashes > 0 then |Contents()| else old(totalSize) + 1
      ensures ret == 0 && (rehashes > 0 || old(NoGap())) ==> NoGap()
      ensures rehashes == 0 ==> usedSize == old(usedSize) + if old(HasEmpty(keyno)) then 0 else 1
      ensures ret == -1 ==> Lost()
      ensures (buffer == old(buffer) || fresh(buffer)) && cursor == old(cursor)
      decreases memory - Form().Total(), if Crowded(keyno) then 2 else 0
    {
      hide Chained, Live, Rest, Crowded, Room, Packed, Shape.After, Shape.Grown, NoneBetween, RoomWithin, HasEmpty;
      ghost var f, c, e := Form(), Contents(), multiset{Pair(keyno, data)};
      var last, empty := FindSlot(keyno);
      if !empty && usedSize >= dataSize {
        if NoGap() { CrowdedLacksRoom(keyno, data); }
        ghost var lo := if NoGap() then 0 else 1;
        assert c + (e + pending) == c + e + pending;
        ret, rehashes := Realloc(e + pending);
        NoneForMore(c, e, f, 1, rehashes);
        if ret < 0 {
          FirstDecides(c + e, f, rehashes, memory);
          NoneFrom(c + e, f, lo, rehashes);
          return;
        }
        ghost var more: nat;
        AfterLarger(f, rehashes);
        if f.Total() < 5 {
          RoomForPart(c + e, pending, f);
          CrowdedLacksRoom(keyno, data);
        }
        ret, more := Add(keyno, data, pending);
        NoneJoin(c + e, f, 1, rehashes, more);
        AfterSum(f, rehashes, more);
        rehashes := rehashes + more;
        if ret == 0 { HasRoom(); }
        FirstDecides(c + e, f, rehashes, memory);
        NoneFrom(c + e, f, lo, rehashes);
        return;
      }
      Place(keyno, data, last, empty);
      totalSize := totalSize + 1;
      ret, rehashes := 0, 0;
      Unrehashed(c + e, f, if old(NoGap()) then 0 else 1);
    }

    /** Copies the table aside, allocates a larger one and adds the live nodes to it. */
    method Realloc(ghost pending: Entries<T>) returns (ret: int, ghost rehashes: nat)
      requires Valid()
      requires Form().Total() < 5 ==> Room(Contents() + pending, Form())
      modifies this
      ensures ret == 0 || ret == -1
      ensures rehashes >= 1 && NoneBetween(old(Contents()), old(Form()), 1, rehashes)
      ensures ret == 0 <==> old(Form()).After(rehashes).Total() <= memory
      ensures ret == 0 ==> Valid() && NoGap() && fresh(buffer) && Form() == old(Form()).After(rehashes)
      ensures ret == 0 ==> Contents() == old(Contents()) && totalSize == |Contents()|
      ensures ret == -1 ==> Lost() && fresh(buffer)
      ensures cursor == old(cursor)
      decreases memory - Form().Total(), 1
    {
      hide Chained, Live, Rest, Room, Packed, Shape.After, Shape.Grown, NoneBetween, Crowded, RoomWithin;
      var tmp := buffer[..];
      ghost var f := Form();
      var nhash, nrec := hashSize * 12 / 10, (hashSize + dataSize) * 12 / 10;
      Destroy();
      FirstRehash(f, nhash, nrec);
      rehashes := 1;
      ret := Alloc(nhash, nrec);
      NoneYet(Live(tmp), f);
      if ret < 0 {
        return;
      }
      var p := 0;
      assert tmp[..|tmp|] == tmp && tmp[..0] == [];
      LiveNil<T>();
      NoneYet(Live(tmp[..0]), f);
      while p < |tmp|
        invariant 0 <= p <= |tmp|
        invariant Valid() && fresh(buffer) && NoGap() && ret == 0
        invariant rehashes >= 1 && Form() == f.After(rehashes)
        invariant NoneBetween(Live(tmp[..p]), f, 1, rehashes)
        invariant Contents() == Live(tmp[..p]) && totalSize == |Contents()|
        invariant cursor == old(cursor)
      {
        LiveAround(tmp, p);
        if tmp[p].keyno > 0 {
          ghost var c, e, later := Contents(), multiset{Pair(tmp[p].keyno, tmp[p].value)}, Live(tmp[p + 1..]);
          AfterLarger(f, rehashes);
          if f.Total() < 5 {
            assert Live(tmp) + pending == c + e + (later + pending);
            RoomForPart(c + e, later + pending, f);
            CrowdedLacksRoom(tmp[p].keyno, tmp[p].value);
          }
          NoneForMore(c, e, f, 1, rehashes);
          ghost var more: nat;
          ret, more := Add(tmp[p].keyno, tmp[p].value, later + pending);
          NoneJoin(c + e, f, 1, rehashes, more);
          AfterSum(f, rehashes, more);
          rehashes := rehashes + more;
          if ret < 0 {
            NoneForMore(c + e, later, f, 1, rehashes);
            return;
          }
        }
        p := p + 1;
      }
    }

    /** Why a table of fewer than five nodes must have room: without it, Add finds the table
        crowded again after any number of rehashes, however much memory there is. */
    method RehashTiny(keyno: Key, data: T, times: nat)
      requires Valid() && Form().Total() < 5
      requires !Room(Contents() + multiset{Pair(keyno, data)}, Form())
      modifies this
      ensures Valid() && Crowded(keyno) && (buffer == old(buffer) || fresh(buffer))
      ensures Form() == old(Form()) && Contents() == old(Contents())
    {
      hide Chained, Live, Room, Packed, Crowded, NoneBetween, Shape.After;
      LacksRoomIsCrowded(keyno, data);
      for i := 0 to times
        invariant Valid() && Crowded(keyno) && (buffer == old(buffer) || fresh(buffer))
        invariant Form() == old(Form()) && Contents() == old(Contents())
      {
        HasRoom();
        assert Contents() + multiset{} == Contents();
        var r;
        ghost var n: nat;
        r, n := Realloc(multiset{});
        AfterLarger(old(Form()), n);
        LacksRoomIsCrowded(keyno, data);
      }
    }

    method Clear()
      requires Valid()
      modifies this`usedSize, this`totalSize, this`owner, buffer
      ensures Valid() && Contents() == multiset{} && NoGap()
      ensures usedSize == 0 && totalSize == 0
    {
      hide Chained, Live;
      forall i | 0 <= i < buffer.Length {
        buffer[i] := Node(0, zero, 0);
      }
      usedSize, totalSize := 0, 0;
      owner := seq(hashSize, i => i);
      ChainedFresh(buffer[..], hashSize, owner, zero);
    }

    // ------------------------------------------------------------ iterating

    /** The entries a scan from the cursor has still to deliver. */
    ghost function Remaining(): Entries<T>
      reads this, buffer
    {
      Rest(buffer[..], cursor)
    }

    method Begin()
      modifies this`cursor
      ensures Remaining() == Contents()
    {
      cursor := -1;
    }

    /** Delivers one remaining entry, or reports that none remains. */
    method Next() returns (ret: int, keyno: KeyNo, pos: nat)
      requires Valid()
      modifies this`cursor
      ensures ret == 0 || ret == -1
      ensures ret == 0 ==> pos < buffer.Length && keyno == buffer[pos].keyno > 0
                           && old(Remaining()) == multiset{Pair(keyno, buffer[pos].value)} + Remaining()
      ensures ret == -1 ==> old(Remaining()) == multiset{} == Remaining()
    {
      hide Chained, Live, Rest;
      ghost var s := buffer[..];
      if cursor < 0 {
        RestStart(s, cursor);
        cursor := 0;
      }
      while cursor < hashSize + usedSize
        invariant 0 <= cursor
        invariant Rest(s, cursor) == old(Remaining())
      {
        RestStep(s, cursor);
        if buffer[cursor].keyno > 0 {
          pos, keyno := cursor, buffer[cursor].keyno;
          cursor := cursor + 1;
          return 0, keyno, pos;
        }
        cursor := cursor + 1;
      }
      UnusedHoldNothing(s, hashSize, owner, zero, cursor);
      return -1, 0, 0;
    }
  }

  // ---------------------------------------------------------------- tables that never have room

  /** One bucket and no overflow node: when that is taken, every further Add rehashes for ever. */
  method StuckTable<T(==)>(z: T, memory: nat, times: nat) returns (t: TShmBuffer<T>)
    requires memory >= 1
    ensures fresh(t) && fresh(t.buffer) && t.Valid() && t.Crowded(8)
    ensures t.Contents() == multiset{Pair(7, z)} && t.Form() == Shape(1, 0)
  {
    hide Chained, Live, Packed, NoneBetween, RoomWithin;
    t := new TShmBuffer<T>(z, memory);
    var r := t.Alloc(1, 1);
    ghost var e, n := Pair(7, z), 0;
    BucketsMore(multiset{}, e, 1);
    t.CrowdedLacksRoom(7, z);
    assert multiset{} + multiset{e} == multiset{e} == multiset{e} + multiset{};
    r, n := t.Add(7, z, multiset{});
    t.FullIsCrowded(8);
    t.CrowdedLacksRoom(8, z);
    t.RehashTiny(8, z, times);
  }

  /** Five buckets and no overflow node: the buckets grow, but a key that is added again never
      finds room, and the table is lost whatever memory there is. */
  method RepeatedKey<T(==)>(z: T, memory: nat) returns (ret: int)
    requires memory >= 5
    ensures ret == -1
  {
    hide Chained, Live, Packed, NoneBetween, Buckets, Room, RoomWithin;
    var t := new TShmBuffer<T>(z, memory);
    var r := t.Alloc(5, 5);
    ghost var e, n := Pair(7, z), 0;
    OneFits(e, Shape(5, 0));
    t.CrowdedLacksRoom(7, z);
    assert multiset{} + multiset{e} == multiset{e} == multiset{e} + multiset{};
    r, n := t.Add(7, z, multiset{});
    assert t.Form() == Shape(5, 0);
    RepeatedNeverFits(e, memory);
    assert t.Contents() == multiset{e};
    t.CrowdedLacksRoom(7, z);
    ret, n := t.Add(7, z, multiset{});
  }

  lemma RepeatedNeverFits<T>(e: (KeyNo, T), memory: nat)
    ensures !Room(multiset{e} + multiset{e}, Shape(5, 0))
    ensures !RoomWithin(multiset{e} + multiset{e}, Shape(5, 0), memory)
  {
    var c := multiset{e} + multiset{e};
    assert |c| == 2 && Keys(c) == {e.0} && Buckets(c, 5) == {Hash(e.0, 5)};
    assert Repeats(c) == 1;
    RoomComesWhen(c, Shape(5, 0));
    EnoughMemory(c, Shape(5, 0));
  }

  lemma OneFits<T>(e: (KeyNo, T), f: Shape)
    requires f.h > 0
    ensures Room(multiset{e}, f)
  {
    BucketsMore(multiset{}, e, f.h);
    assert multiset{} + multiset{e} == multiset{e};
  }
}
