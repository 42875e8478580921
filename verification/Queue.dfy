// queue.h: circular doubly linked lists, a head and the linked nodes.
module Queue {
  import opened Sequences

  // A QUEUE embedded in a struct; data is the rest of that struct (QUEUE_DATA).
  class Node<T> {
    var next: Node<T>
    var prev: Node<T>
    var data: T

    // QUEUE_INIT
    constructor (data: T)
      ensures this.data == data && next == this && prev == this
    {
      this.data, next, prev := data, this, this;
    }
  }

  datatype Cell<T> = Cell(next: Node<T>, prev: Node<T>)

  type Mem<T> = map<Node<T>, Cell<T>>

  ghost function MemOf<T>(ns: set<Node<T>>): Mem<T>
    reads ns`next, ns`prev
  {
    map n | n in ns :: Cell(n.next, n.prev)
  }

  // The nodes around the ring: the head stands before the first and after the last.
  ghost function Nth<T>(h: Node<T>, s: seq<Node<T>>, i: int): Node<T> { if 0 <= i < |s| then s[i] else h }

  ghost predicate LinkAt<T>(m: Mem<T>, h: Node<T>, s: seq<Node<T>>, i: int) {
    var x, y := Nth(h, s, i), Nth(h, s, i + 1);
    x in m && y in m && m[x].next == y && m[y].prev == x
  }

  // In memory m, the list with head h holds the nodes s in order.
  ghost predicate List<T>(m: Mem<T>, h: Node<T>, s: seq<Node<T>>) {
    h !in s && Distinct(s) && forall i {:trigger LinkAt(m, h, s, i)} :: -1 <= i < |s| ==> LinkAt(m, h, s, i)
  }

  function PutNext<T>(m: Mem<T>, x: Node<T>, y: Node<T>): Mem<T> { if x in m then m[x := m[x].(next := y)] else m }

  function PutPrev<T>(m: Mem<T>, x: Node<T>, y: Node<T>): Mem<T> { if x in m then m[x := m[x].(prev := y)] else m }

  // Two positions of a ring hold different nodes.
  lemma NthApart<T>(h: Node<T>, s: seq<Node<T>>, i: int, j: int)
    requires h !in s && Distinct(s) && i != j && ((-1 <= i < |s| && -1 <= j < |s|) || (0 <= i <= |s| && 0 <= j <= |s|))
    ensures Nth(h, s, i) != Nth(h, s, j)
  {}

  lemma ListFrame<T>(m: Mem<T>, m': Mem<T>, h: Node<T>, s: seq<Node<T>>)
    requires List(m, h, s) && h in m' && (h in m ==> m'[h] == m[h])
    requires forall n :: n in s && n in m ==> n in m' && m'[n] == m[n]
    ensures List(m', h, s)
  {
    forall i | -1 <= i < |s| ensures LinkAt(m', h, s, i) {
      assert LinkAt(m, h, s, i);
    }
  }

  // QUEUE_REMOVE
  function RemoveMem<T>(m: Mem<T>, q: Node<T>): Mem<T>
    requires q in m
  {
    var m1 := PutNext(m, m[q].prev, m[q].next);
    PutPrev(m1, m1[q].next, m1[q].prev)
  }

  lemma RemoveLink<T>(m: Mem<T>, h: Node<T>, s: seq<Node<T>>, k: nat, i: int)
    requires List(m, h, s) && k < |s| && -1 <= i < |s| - 1
    ensures s[k] in m && LinkAt(RemoveMem(m, s[k]), h, s[..k] + s[k + 1..], i)
  {
    var q, s' := s[k], s[..k] + s[k + 1..];
    assert LinkAt(m, h, s, k - 1) && LinkAt(m, h, s, k);
    NthApart(h, s, k - 1, k);
    NthApart(h, s, k, k + 1);
    var j := if i < k then i else i + 1;
    assert LinkAt(m, h, s, j);
    assert i != k - 1 ==> Nth(h, s', i) == Nth(h, s, j) && Nth(h, s', i + 1) == Nth(h, s, j + 1);
    if i != k - 1 {
      NthApart(h, s, j, k - 1);
      NthApart(h, s, j + 1, k + 1);
    } else {
      assert Nth(h, s', i) == Nth(h, s, k - 1) && Nth(h, s', i + 1) == Nth(h, s, k + 1);
    }
  }

  lemma RemoveList<T>(m: Mem<T>, h: Node<T>, s: seq<Node<T>>, k: nat)
    requires List(m, h, s) && k < |s|
    ensures s[k] in m && List(RemoveMem(m, s[k]), h, s[..k] + s[k + 1..])
  {
    var s' := s[..k] + s[k + 1..];
    assert LinkAt(m, h, s, k);
    forall i | -1 <= i < |s'| ensures LinkAt(RemoveMem(m, s[k]), h, s', i) {
      RemoveLink(m, h, s, k, i);
    }
  }

  // QUEUE_INSERT_HEAD (tail = false) and QUEUE_INSERT_TAIL (tail = true)
  function InsertMem<T>(m: Mem<T>, h: Node<T>, q: Node<T>, tail: bool): Mem<T>
    requires h in m && q in m
  {
    if tail then
      var m1 := PutNext(m, q, h);
      var m2 := PutPrev(m1, q, m1[h].prev);
      var m3 := PutNext(m2, m2[q].prev, q);
      PutPrev(m3, h, q)
    else
      var m1 := PutNext(m, q, m[h].next);
      var m2 := PutPrev(m1, q, h);
      var m3 := PutPrev(m2, m2[q].next, q);
      PutNext(m3, h, q)
  }

  function Inserted<T>(s: seq<T>, q: T, tail: bool): seq<T> { if tail then s + [q] else [q] + s }

  lemma InsertLink<T>(m: Mem<T>, h: Node<T>, s: seq<Node<T>>, q: Node<T>, tail: bool, i: int)
    requires List(m, h, s) && h in m && q in m && q !in s && q != h && -1 <= i <= |s|
    ensures LinkAt(InsertMem(m, h, q, tail), h, Inserted(s, q, tail), i)
  {
    var s' := Inserted(s, q, tail);
    var j := if tail then i else i - 1;
    assert LinkAt(m, h, s, -1) && LinkAt(m, h, s, |s| - 1);
    if -1 <= j < |s| {
      assert LinkAt(m, h, s, j);
    }
    if tail {
      assert i < |s| ==> Nth(h, s', i) == Nth(h, s, i);
      assert i + 1 < |s| ==> Nth(h, s', i + 1) == Nth(h, s, i + 1);
      if i < |s| - 1 {
        NthApart(h, s, i, |s| - 1);
      }
    } else {
      assert i > 0 ==> Nth(h, s', i) == Nth(h, s, j);
      assert i >= 0 ==> Nth(h, s', i + 1) == Nth(h, s, j + 1);
      if i > 0 {
        NthApart(h, s, j + 1, 0);
      }
    }
  }

  lemma InsertList<T>(m: Mem<T>, h: Node<T>, s: seq<Node<T>>, q: Node<T>, tail: bool)
    requires List(m, h, s) && q in m && q !in s && q != h
    ensures h in m && List(InsertMem(m, h, q, tail), h, Inserted(s, q, tail))
  {
    assert LinkAt(m, h, s, -1);
    forall i | -1 <= i <= |s| ensures LinkAt(InsertMem(m, h, q, tail), h, Inserted(s, q, tail), i) {
      InsertLink(m, h, s, q, tail, i);
    }
  }

  // QUEUE_SPLIT
  function SplitMem<T>(m: Mem<T>, h: Node<T>, q: Node<T>, n: Node<T>): Mem<T>
    requires h in m && q in m && n in m
  {
    var m1 := PutPrev(m, n, m[h].prev);
    var m2 := PutNext(m1, m1[n].prev, n);
    var m3 := PutNext(m2, n, q);
    var m4 := PutPrev(m3, h, m3[q].prev);
    var m5 := PutNext(m4, m4[h].prev, h);
    PutPrev(m5, q, n)
  }

  lemma SplitLink<T>(m: Mem<T>, h: Node<T>, a: seq<Node<T>>, b: seq<Node<T>>, n: Node<T>, i: int)
    requires List(m, h, a + b) && b != [] && n in m && n !in a + b && n != h && h in m && b[0] in m
    ensures -1 <= i < |a| ==> LinkAt(SplitMem(m, h, b[0], n), h, a, i)
    ensures -1 <= i < |b| ==> LinkAt(SplitMem(m, h, b[0], n), n, b, i)
  {
    var s, k := a + b, |a|;
    assert LinkAt(m, h, s, |s| - 1) && LinkAt(m, h, s, k - 1);
    NthApart(h, s, k - 1, |s| - 1);
    if -1 <= i < |a| {
      assert LinkAt(m, h, s, i);
      assert Nth(h, a, i) == Nth(h, s, i) && (i < k - 1 ==> Nth(h, a, i + 1) == Nth(h, s, i + 1));
      NthApart(h, s, i, |s| - 1);
      if i != k - 1 {
        NthApart(h, s, i, k - 1);
        NthApart(h, s, i + 1, k);
      }
    }
    if -1 <= i < |b| {
      assert LinkAt(m, h, s, k + i);
      assert i >= 0 ==> Nth(n, b, i) == Nth(h, s, k + i);
      assert i + 1 < |b| ==> Nth(n, b, i + 1) == Nth(h, s, k + i + 1);
      if i >= 0 {
        NthApart(h, s, k + i, k - 1);
        NthApart(h, s, k + i + 1, k);
      }
      if i < |b| - 1 {
        NthApart(h, s, k + i, |s| - 1);
      }
    }
  }

  lemma SplitList<T>(m: Mem<T>, h: Node<T>, a: seq<Node<T>>, b: seq<Node<T>>, n: Node<T>)
    requires List(m, h, a + b) && b != [] && n in m && n !in a + b && n != h
    ensures h in m && b[0] in m
    ensures List(SplitMem(m, h, b[0], n), h, a) && List(SplitMem(m, h, b[0], n), n, b)
  {
    assert LinkAt(m, h, a + b, -1) && LinkAt(m, h, a + b, |a|);
    DistinctParts(a, b);
    forall i | -1 <= i < |a| ensures LinkAt(SplitMem(m, h, b[0], n), h, a, i) {
      SplitLink(m, h, a, b, n, i);
    }
    forall i | -1 <= i < |b| ensures LinkAt(SplitMem(m, h, b[0], n), n, b, i) {
      SplitLink(m, h, a, b, n, i);
    }
  }

  // QUEUE_ADD
  function AddMem<T>(m: Mem<T>, h: Node<T>, n: Node<T>): Mem<T>
    requires h in m && n in m
  {
    var m1 := PutNext(m, m[h].prev, m[n].next);
    var m2 := PutPrev(m1, m1[n].next, m1[h].prev);
    var m3 := PutPrev(m2, h, m2[n].prev);
    PutNext(m3, m3[h].prev, h)
  }

  lemma AddLink<T>(m: Mem<T>, h: Node<T>, a: seq<Node<T>>, n: Node<T>, b: seq<Node<T>>, i: int)
    requires List(m, h, a) && List(m, n, b) && h in m && n in m && h != n && h !in b && n !in a
    requires (forall x :: x in a ==> x !in b) && -1 <= i < |a| + |b|
    ensures LinkAt(AddMem(m, h, n), h, a + b, i)
  {
    var s, k := a + b, |a|;
    assert LinkAt(m, h, a, -1) && LinkAt(m, h, a, k - 1) && LinkAt(m, n, b, -1) && LinkAt(m, n, b, |b| - 1);
    if i < k {
      assert LinkAt(m, h, a, i);
      assert Nth(h, s, i) == Nth(h, a, i) && (i < k - 1 ==> Nth(h, s, i + 1) == Nth(h, a, i + 1));
      if i < k - 1 {
        NthApart(h, a, i, k - 1);
      }
    } else {
      assert LinkAt(m, n, b, i - k);
      assert Nth(h, s, i) == b[i - k] && (i < |s| - 1 ==> Nth(h, s, i + 1) == b[i - k + 1]);
      if i < |s| - 1 {
        NthApart(n, b, i - k, |b| - 1);
        NthApart(n, b, i - k + 1, 0);
      }
    }
  }

  lemma AddList<T>(m: Mem<T>, h: Node<T>, a: seq<Node<T>>, n: Node<T>, b: seq<Node<T>>)
    requires List(m, h, a) && List(m, n, b) && h != n && h !in b && n !in a && forall x :: x in a ==> x !in b
    ensures h in m && n in m && List(AddMem(m, h, n), h, a + b)
  {
    assert LinkAt(m, h, a, -1) && LinkAt(m, n, b, -1);
    DistinctJoin(a, b);
    forall i | -1 <= i < |a + b| ensures LinkAt(AddMem(m, h, n), h, a + b, i) {
      AddLink(m, h, a, n, b, i);
    }
  }

  // The nodes outside a list are not touched when the list changes.
  ghost predicate Untouched<T>(m: Mem<T>, m': Mem<T>, h: Node<T>, s: seq<Node<T>>, q: Node<T>) {
    m'.Keys == m.Keys && forall x :: x in m && x != h && x !in s && x != q ==> m'[x] == m[x]
  }

  lemma NthIn<T>(h: Node<T>, s: seq<Node<T>>, i: int)
    ensures Nth(h, s, i) == h || Nth(h, s, i) in s
  {}

  lemma RemoveFrame<T>(m: Mem<T>, h: Node<T>, s: seq<Node<T>>, k: nat)
    requires List(m, h, s) && k < |s|
    ensures s[k] in m && Untouched(m, RemoveMem(m, s[k]), h, s, h)
  {
    assert LinkAt(m, h, s, k - 1) && LinkAt(m, h, s, k);
    NthApart(h, s, k - 1, k);
    NthIn(h, s, k - 1);
    NthIn(h, s, k + 1);
  }

  lemma InsertFrame<T>(m: Mem<T>, h: Node<T>, s: seq<Node<T>>, q: Node<T>, tail: bool)
    requires List(m, h, s) && q in m && q !in s && q != h
    ensures h in m && Untouched(m, InsertMem(m, h, q, tail), h, s, q)
  {
    assert LinkAt(m, h, s, -1) && LinkAt(m, h, s, |s| - 1);
    NthIn(h, s, |s| - 1);
    NthIn(h, s, 0);
  }

  // ---- the macros on the nodes ----

  method PutNextAt<T>(x: Node<T>, y: Node<T>, ghost ns: set<Node<T>>)
    requires x in ns
    modifies x`next
    ensures MemOf(ns) == PutNext(old(MemOf(ns)), x, y)
  {
    x.next := y;
  }

  method PutPrevAt<T>(x: Node<T>, y: Node<T>, ghost ns: set<Node<T>>)
    requires x in ns
    modifies x`prev
    ensures MemOf(ns) == PutPrev(old(MemOf(ns)), x, y)
  {
    x.prev := y;
  }

  // QUEUE_EMPTY
  method Empty<T>(h: Node<T>, ghost ns: set<Node<T>>, ghost s: seq<Node<T>>) returns (empty: bool)
    requires h in ns && List(MemOf(ns), h, s)
    ensures empty <==> s == []
  {
    assert LinkAt(MemOf(ns), h, s, -1);
    empty := h == h.next;
  }

  // QUEUE_HEAD
  method Head<T>(h: Node<T>, ghost ns: set<Node<T>>, ghost s: seq<Node<T>>) returns (q: Node<T>)
    requires h in ns && List(MemOf(ns), h, s) && s != []
    ensures q == s[0] && q in ns
  {
    assert LinkAt(MemOf(ns), h, s, -1);
    q := h.next;
  }

  // QUEUE_INIT
  method Init<T>(q: Node<T>, ghost ns: set<Node<T>>)
    requires q in ns
    modifies q`next, q`prev
    ensures List(MemOf(ns), q, []) && MemOf(ns) == PutPrev(PutNext(old(MemOf(ns)), q, q), q, q)
  {
    PutNextAt(q, q, ns);
    PutPrevAt(q, q, ns);
    assert LinkAt(MemOf(ns), q, [], -1);
  }

  // QUEUE_REMOVE
  method Remove<T>(q: Node<T>, ghost ns: set<Node<T>>, ghost h: Node<T>, ghost s: seq<Node<T>>, ghost k: nat)
    requires List(MemOf(ns), h, s) && k < |s| && s[k] == q
    modifies ns`next, ns`prev
    ensures List(MemOf(ns), h, s[..k] + s[k + 1..]) && Untouched(old(MemOf(ns)), MemOf(ns), h, s, h)
  {
    hide List, Untouched;
    ghost var m := MemOf(ns);
    RemoveList(m, h, s, k);
    RemoveFrame(m, h, s, k);
    RemoveEnds(m, h, s, k);
    PutNextAt(q.prev, q.next, ns);
    PutPrevAt(q.next, q.prev, ns);
    assert MemOf(ns) == RemoveMem(m, q);
  }

  lemma RemoveEnds<T>(m: Mem<T>, h: Node<T>, s: seq<Node<T>>, k: nat)
    requires List(m, h, s) && k < |s|
    ensures var q := s[k]; q in m && m[q].next in m && m[q].prev in m && m[q].prev != q && m[q].next != q
  {
    assert LinkAt(m, h, s, k - 1) && LinkAt(m, h, s, k);
    NthApart(h, s, k - 1, k);
    NthApart(h, s, k, k + 1);
  }

  // QUEUE_INSERT_HEAD and QUEUE_INSERT_TAIL
  method InsertAt<T>(h: Node<T>, q: Node<T>, tail: bool, ghost ns: set<Node<T>>, ghost s: seq<Node<T>>)
    requires List(MemOf(ns), h, s) && q in ns && q !in s && q != h
    modifies ns`next, ns`prev
    ensures List(MemOf(ns), h, Inserted(s, q, tail)) && Untouched(old(MemOf(ns)), MemOf(ns), h, s, q)
  {
    hide List, Untouched;
    ghost var m := MemOf(ns);
    InsertList(m, h, s, q, tail);
    InsertFrame(m, h, s, q, tail);
    HeadEnds(m, h, s);
    if tail {
      PutNextAt(q, h, ns);
      PutPrevAt(q, h.prev, ns);
      PutNextAt(q.prev, q, ns);
      PutPrevAt(h, q, ns);
    } else {
      PutNextAt(q, h.next, ns);
      PutPrevAt(q, h, ns);
      PutPrevAt(q.next, q, ns);
      PutNextAt(h, q, ns);
    }
    assert MemOf(ns) == InsertMem(m, h, q, tail);
  }

  lemma HeadEnds<T>(m: Mem<T>, h: Node<T>, s: seq<Node<T>>)
    requires List(m, h, s)
    ensures h in m && m[h].next in m && m[h].prev in m
    ensures s != [] ==> m[h].next == s[0] && m[h].prev == s[|s| - 1]
    ensures s == [] ==> m[h].next == h && m[h].prev == h
  {
    assert LinkAt(m, h, s, -1) && LinkAt(m, h, s, |s| - 1);
  }

  // QUEUE_SPLIT: n becomes the head of the part of the list from q on.
  method Split<T>(h: Node<T>, q: Node<T>, n: Node<T>, ghost ns: set<Node<T>>, ghost a: seq<Node<T>>,
    ghost b: seq<Node<T>>)
    requires List(MemOf(ns), h, a + b) && b != [] && q == b[0] && n in ns && n !in a + b && n != h
    modifies ns`next, ns`prev
    ensures List(MemOf(ns), h, a) && List(MemOf(ns), n, b)
  {
    hide List;
    ghost var m := MemOf(ns);
    SplitList(m, h, a, b, n);
    SplitEnds(m, h, a, b);
    PutPrevAt(n, h.prev, ns);
    PutNextAt(n.prev, n, ns);
    PutNextAt(n, q, ns);
    PutPrevAt(h, q.prev, ns);
    PutNextAt(h.prev, h, ns);
    PutPrevAt(q, n, ns);
    assert MemOf(ns) == SplitMem(m, h, q, n);
  }

  lemma SplitEnds<T>(m: Mem<T>, h: Node<T>, a: seq<Node<T>>, b: seq<Node<T>>)
    requires List(m, h, a + b) && b != []
    ensures h in m && b[0] in m && m[h].prev in m && m[b[0]].prev in m
    ensures m[h].prev == b[|b| - 1]
  {
    assert LinkAt(m, h, a + b, |a + b| - 1) && LinkAt(m, h, a + b, |a| - 1);
  }

  // QUEUE_MOVE: the whole list gets the new head n, and h becomes empty.
  method Move<T>(h: Node<T>, n: Node<T>, ghost ns: set<Node<T>>, ghost s: seq<Node<T>>)
    requires List(MemOf(ns), h, s) && h in ns && n in ns && n !in s && n != h
    modifies ns`next, ns`prev
    ensures List(MemOf(ns), h, []) && List(MemOf(ns), n, s)
  {
    var empty := Empty(h, ns, s);
    if empty {
      ghost var m := MemOf(ns);
      Init(n, ns);
      ListFrame(m, MemOf(ns), h, []);
    } else {
      var q := Head(h, ns, s);
      assert [] + s == s;
      Split(h, q, n, ns, [], s);
    }
  }

  // QUEUE_ADD: the nodes of n follow those of h.
  method Add<T>(h: Node<T>, n: Node<T>, ghost ns: set<Node<T>>, ghost a: seq<Node<T>>, ghost b: seq<Node<T>>)
    requires List(MemOf(ns), h, a) && List(MemOf(ns), n, b) && h != n && h !in b && n !in a
      && forall x :: x in a ==> x !in b
    modifies ns`next, ns`prev
    ensures List(MemOf(ns), h, a + b)
  {
    hide List;
    ghost var m := MemOf(ns);
    AddList(m, h, a, n, b);
    HeadEnds(m, h, a);
    HeadEnds(m, n, b);
    PutNextAt(h.prev, n.next, ns);
    PutPrevAt(n.next, h.prev, ns);
    PutPrevAt(h, n.prev, ns);
    PutNextAt(h.prev, h, ns);
    assert MemOf(ns) == AddMem(m, h, n);
  }
}
