/** The intrusive circular doubly linked lists of lib/list.h.  A list is a ring of nodes of
    which one serves as head; the ghost arguments name the ring a call works on as the
    sequence of its nodes, starting with the head. */
module Rings {

  /** A list_head together with the structure it is embedded in. */
  class Node<T> {
    var next: Node?<T>
    var prev: Node?<T>
    var data: T

    /** INIT_LIST_HEAD */
    constructor (d: T)
      ensures Ring([this]) && data == d
    {
      data := d;
      next := this;
      prev := this;
    }
  }

  /** The positions behind and in front of position i on a ring of n. */
  function Succ(i: nat, n: nat): nat { if i + 1 < n then i + 1 else 0 }

  function Pred(i: nat, n: nat): int { if i > 0 then i - 1 else n - 1 }

  ghost predicate Distinct<T>(s: seq<T>) {
    forall i, j :: 0 <= i < j < |s| ==> s[i] != s[j]
  }

  /** s lists, in order, all nodes of one well-formed ring. */
  ghost predicate Ring<T>(s: seq<Node<T>>)
    reads s
  {
    && |s| > 0 && Distinct(s)
    && (forall i {:trigger s[i].next} :: 0 <= i < |s| ==> s[i].next == s[Succ(i, |s|)])
    && (forall i {:trigger s[i].prev} :: 0 <= i < |s| ==> s[i].prev == s[Pred(i, |s|)])
  }

  ghost predicate Apart<T>(s: seq<Node<T>>, t: seq<Node<T>>) {
    forall x :: x in s ==> x !in t
  }

  ghost function Without<T>(s: seq<T>, k: nat): (r: seq<T>)
    requires k < |s|
    ensures |r| == |s| - 1
  {
    s[..k] + s[k + 1..]
  }

  ghost function With<T>(s: seq<T>, k: nat, x: T): (r: seq<T>)
    requires k <= |s|
    ensures |r| == |s| + 1
  {
    s[..k] + [x] + s[k..]
  }

  lemma DistinctWith<T>(s: seq<T>, k: nat, x: T)
    requires Distinct(s) && k <= |s| && x !in s
    ensures Distinct(With(s, k, x))
  {
  }

  /** Putting x at position k makes it the neighbour of the nodes there, and of no other. */
  lemma WithNeighbours<T>(s: seq<T>, k: nat, x: T, i: nat)
    requires 0 < k <= |s| && i <= |s|
    ensures var t := With(s, k, x);
      i == k ==> t[i] == x && t[Succ(i, |t|)] == s[if k < |s| then k else 0] && t[Pred(i, |t|)] == s[k - 1]
    ensures var t, j := With(s, k, x), if i < k then i else i - 1;
      i != k ==>
        && t[i] == s[j]
        && t[Succ(i, |t|)] == (if j == k - 1 then x else s[Succ(j, |s|)])
        && t[Pred(i, |t|)] == (if j == (if k < |s| then k else 0) then x else s[Pred(j, |s|)])
  {
  }

  lemma DistinctWithout<T>(s: seq<T>, k: nat)
    requires Distinct(s) && k < |s|
    ensures Distinct(Without(s, k)) && s[k] !in Without(s, k)
  {
  }

  lemma DistinctJoin<T>(h: Node<T>, l: Node<T>, ys: seq<Node<T>>, xs: seq<Node<T>>)
    requires Distinct([h] + xs) && Distinct([l] + ys) && Apart([l] + ys, [h] + xs)
    ensures Distinct([h] + ys + xs) && l !in [h] + ys + xs
  {
    var s, r, t := [l] + ys, [h] + xs, [h] + ys + xs;
    forall i | 0 <= i < |t|
      ensures t[i] != l
      ensures forall j :: i < j < |t| ==> t[i] != t[j]
    {
      if 1 <= i <= |ys| {
        assert t[i] == s[i] && s[i] in s && s[0] != s[i];
        forall j | i < j < |t|
          ensures t[i] != t[j]
        {
          if j <= |ys| { assert t[j] == s[j]; } else { assert t[j] == r[j - |ys|] && t[j] in r; }
        }
      } else {
        var k := if i == 0 then 0 else i - |ys|;
        assert t[i] == r[k] && r[k] in r && s[0] in s;
        forall j | i < j < |t|
          ensures t[i] != t[j]
        {
          if 1 <= j <= |ys| { assert t[j] == s[j] && s[j] in s; } else { assert t[j] == r[j - |ys|]; }
        }
      }
    }
  }

  /** Every node is its neighbours' neighbour. */
  lemma RingMirrors<T>(s: seq<Node<T>>, x: Node<T>)
    requires Ring(s) && x in s
    ensures x.next != null && x.prev != null && x.next in s && x.prev in s
    ensures x.next.prev == x && x.prev.next == x
  {
    var i :| 0 <= i < |s| && s[i] == x;
    var n, p := Succ(i, |s|), Pred(i, |s|);
    assert s[i].next == s[n] && s[i].prev == s[p];
    assert s[n].prev == s[i] && s[p].next == s[i];
    hide Ring, Succ, Pred;
    assert s[n] in s && s[p] in s;
  }

  /** The same ring, listed from another of its nodes. */
  lemma RingRotate<T>(s: seq<Node<T>>, k: nat)
    requires Ring(s) && k < |s|
    ensures Ring(s[k..] + s[..k])
  {
    var t := s[k..] + s[..k];
    forall i | 0 <= i < |t|
      ensures t[i].next == t[Succ(i, |t|)]
      ensures t[i].prev == t[Pred(i, |t|)]
    {
      var j := if i + k < |s| then i + k else i + k - |s|;
      assert t[i] == s[j];
      assert s[j].next == s[Succ(j, |s|)];
      assert s[j].prev == s[Pred(j, |s|)];
    }
  }

  // ---------------------------------------------------------------- operations

  ghost function Nodes<T>(s: seq<Node<T>>): set<Node<T>> {
    set x | x in s
  }

  /** __list_add */
  method LinkBetween<T>(new1: Node<T>, prev: Node<T>, next: Node<T>)
    requires new1 != prev && new1 != next
    modifies new1`next, new1`prev, prev`next, next`prev
    ensures new1.prev == prev && new1.next == next
    ensures next.prev == new1 && prev.next == new1
  {
    next.prev := new1;
    new1.next := next;
    new1.prev := prev;
    prev.next := new1;
  }

  /** __list_del */
  method Bridge<T>(prev: Node<T>, next: Node<T>)
    modifies prev`next, next`prev
    ensures next.prev == prev && prev.next == next
  {
    next.prev := prev;
    prev.next := next;
  }

  /** Links new1 in front of node k of the ring, or behind the last node when k == |s|. */
  method InsertAt<T>(new1: Node<T>, prev: Node<T>, next: Node<T>, ghost s: seq<Node<T>>, ghost k: nat)
    requires Ring(s) && new1 !in s && 0 < k <= |s|
    requires prev == s[k - 1] && next == s[if k < |s| then k else 0]
    modifies new1`next, new1`prev, Nodes(s)`next, Nodes(s)`prev
    ensures Ring(With(s, k, new1))
  {
    LinkBetween(new1, prev, next);
    DistinctWith(s, k, new1);
    hide Distinct, With;
    forall i | 0 <= i <= |s|
      ensures var t := With(s, k, new1); t[i].next == t[Succ(i, |t|)] && t[i].prev == t[Pred(i, |t|)]
    {
      WithNeighbours(s, k, new1, i);
      if i != k {
        ghost var j := if i < k then i else i - 1;
        assert old(s[j].next) == s[Succ(j, |s|)] && old(s[j].prev) == s[Pred(j, |s|)];
      }
    }
  }

  method ListAddHead<T>(new1: Node<T>, head: Node<T>, ghost xs: seq<Node<T>>)
    requires Ring([head] + xs) && new1 !in [head] + xs
    modifies new1`next, new1`prev, Nodes([head] + xs)`next, Nodes([head] + xs)`prev
    ensures Ring([head, new1] + xs)
  {
    ghost var s := [head] + xs;
    assert s[0].next == s[if |s| > 1 then 1 else 0];
    InsertAt(new1, head, head.next, s, 1);
    assert s[..1] + [new1] + s[1..] == [head, new1] + xs;
  }

  method ListAddTail<T>(new1: Node<T>, head: Node<T>, ghost xs: seq<Node<T>>)
    requires Ring([head] + xs) && new1 !in [head] + xs
    modifies new1`next, new1`prev, Nodes([head] + xs)`next, Nodes([head] + xs)`prev
    ensures Ring([head] + xs + [new1])
  {
    ghost var s := [head] + xs;
    assert s[0].prev == s[|s| - 1];
    InsertAt(new1, head.prev, head, s, |s|);
    assert s[..|s|] + [new1] + s[|s|..] == [head] + xs + [new1];
  }

  /** Among the others, the neighbours of a node are its neighbours on the whole ring, except
      that node k is passed over. */
  lemma WithoutNeighbours<T>(s: seq<T>, k: nat, i: nat)
    requires k < |s| && i < |s| - 1
    ensures var t, j := Without(s, k), if i < k then i else i + 1;
      && t[i] == s[j] && j != k
      && t[Succ(i, |t|)] == (if Succ(j, |s|) == k then s[Succ(k, |s|)] else s[Succ(j, |s|)])
      && t[Pred(i, |t|)] == (if Pred(j, |s|) == k then s[Pred(k, |s|)] else s[Pred(j, |s|)])
  {
  }

  /** The unlinking that the del and move calls begin with.  The rest of the ring closes up; an
      entry that is a ring of its own stays one. */
  method Unlink<T>(entry: Node<T>, ghost s: seq<Node<T>>, ghost k: nat)
    requires Ring(s) && k < |s| && s[k] == entry
    modifies Nodes(s)`next, Nodes(s)`prev
    ensures if |s| > 1 then Ring(Without(s, k)) else Ring([entry])
  {
    assert entry.next == s[Succ(k, |s|)];
    assert entry.prev == s[Pred(k, |s|)];
    Bridge(entry.prev, entry.next);
    if |s| > 1 {
      DistinctWithout(s, k);
      hide Distinct, Without;
      forall i | 0 <= i < |s| - 1
        ensures var t := Without(s, k); t[i].next == t[Succ(i, |t|)] && t[i].prev == t[Pred(i, |t|)]
      {
        WithoutNeighbours(s, k, i);
        ghost var j := if i < k then i else i + 1;
        assert old(s[j].next) == s[Succ(j, |s|)] && old(s[j].prev) == s[Pred(j, |s|)];
      }
    }
  }

  /** The rest of the ring, if there is one, closes up; the removed node keeps no pointers. */
  method ListDel<T>(entry: Node<T>, ghost s: seq<Node<T>>, ghost k: nat)
    requires Ring(s) && k < |s| && s[k] == entry
    modifies Nodes(s)`next, Nodes(s)`prev
    ensures |s| > 1 ==> Ring(Without(s, k))
    ensures entry.next == null && entry.prev == null
  {
    Unlink(entry, s, k);
    entry.next := null;
    entry.prev := null;
  }

  /** The rest of the ring, if there is one, closes up; the removed node becomes a ring of its
      own, as a node may be that is removed again. */
  method ListDelInit<T>(entry: Node<T>, ghost s: seq<Node<T>>, ghost k: nat)
    requires Ring(s) && k < |s| && s[k] == entry
    modifies Nodes(s)`next, Nodes(s)`prev
    ensures |s| > 1 ==> Ring(Without(s, k))
    ensures Ring([entry])
  {
    Unlink(entry, s, k);
    entry.next := entry;
    entry.prev := entry;
  }

  /** Moves an entry to the front: of another ring, or of its own.  An entry that is a ring of its own may be
      moved, as it is when it is added for the first time. */
  method ListMove<T>(entry: Node<T>, head: Node<T>, ghost s: seq<Node<T>>, ghost k: nat, ghost xs: seq<Node<T>>)
    requires Ring(s) && k < |s| && s[k] == entry
    requires Without(s, k) == [head] + xs || (Ring([head] + xs) && Apart(s, [head] + xs))
    modifies Nodes(s)`next, Nodes(s)`prev, Nodes([head] + xs)`next, Nodes([head] + xs)`prev
    ensures Ring([head, entry] + xs)
    ensures |s| > 1 && Without(s, k) != [head] + xs ==> Ring(Without(s, k))
  {
    Unlink(entry, s, k);
    ListAddHead(entry, head, xs);
  }

  /** Moves an entry to the end: of another ring, or of its own, likewise. */
  method ListMoveTail<T>(entry: Node<T>, head: Node<T>, ghost s: seq<Node<T>>, ghost k: nat, ghost xs: seq<Node<T>>)
    requires Ring(s) && k < |s| && s[k] == entry
    requires Without(s, k) == [head] + xs || (Ring([head] + xs) && Apart(s, [head] + xs))
    modifies Nodes(s)`next, Nodes(s)`prev, Nodes([head] + xs)`next, Nodes([head] + xs)`prev
    ensures Ring([head] + xs + [entry])
    ensures |s| > 1 && Without(s, k) != [head] + xs ==> Ring(Without(s, k))
  {
    Unlink(entry, s, k);
    ListAddTail(entry, head, xs);
  }

  method ListEmpty<T>(head: Node<T>, ghost xs: seq<Node<T>>) returns (empty: bool)
    requires Ring([head] + xs)
    ensures empty <==> xs == []
  {
    ghost var s := [head] + xs;
    assert s[0].next == s[if |s| > 1 then 1 else 0];
    return head.next == head;
  }

  /** Puts all entries of one list in front of another; the emptied list is made empty. */
  method ListSpliceInit<T>(list: Node<T>, head: Node<T>, ghost ys: seq<Node<T>>, ghost xs: seq<Node<T>>)
    requires Ring([list] + ys) && Ring([head] + xs) && Apart([list] + ys, [head] + xs)
    modifies Nodes([list] + ys)`next, Nodes([list] + ys)`prev, Nodes([head] + xs)`next, Nodes([head] + xs)`prev
    ensures Ring([list]) && Ring([head] + ys + xs)
  {
    var empty := ListEmpty(list, ys);
    if !empty {
      DistinctJoin(head, list, ys, xs);
      Splice(list, head, ys, xs);
      list.next := list;
      list.prev := list;
    } else {
      assert [head] + ys + xs == [head] + xs && [list] + ys == [list];
    }
  }

  /** __list_splice: the head of the source list is left out, its pointers are stale. */
  method Splice<T>(list: Node<T>, head: Node<T>, ghost ys: seq<Node<T>>, ghost xs: seq<Node<T>>)
    requires Ring([list] + ys) && Ring([head] + xs) && Apart([list] + ys, [head] + xs) && ys != []
    modifies Nodes([list] + ys)`next, Nodes([list] + ys)`prev, Nodes([head] + xs)`next, Nodes([head] + xs)`prev
    ensures Ring([head] + ys + xs)
  {
    ghost var s, r, t := [list] + ys, [head] + xs, [head] + ys + xs;
    var first := list.next;
    var last := list.prev;
    var at := head.next;
    assert s[0].next == s[1] && s[0].prev == s[|s| - 1];
    assert r[0].next == r[if |r| > 1 then 1 else 0];
    first.prev := head;
    head.next := first;
    last.next := at;
    at.prev := last;
    DistinctJoin(head, list, ys, xs);
    forall i | 0 <= i < |t|
      ensures t[i].next == t[Succ(i, |t|)]
      ensures t[i].prev == t[Pred(i, |t|)]
    {
      if 1 <= i <= |ys| {
        assert t[i] == s[i];
        assert old(s[i].next) == s[Succ(i, |s|)];
        assert old(s[i].prev) == s[i - 1];
      } else {
        var j := if i == 0 then 0 else i - |ys|;
        assert t[i] == r[j];
        assert old(r[j].next) == r[Succ(j, |r|)];
        assert old(r[j].prev) == r[Pred(j, |r|)];
      }
    }
  }
}
