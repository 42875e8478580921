// The values behind heap-inl.h: nodes in level order, the memory they occupy,
// and the order of their keys. Nothing here reads the heap of objects.
module HeapShape {
  import opened Sequences

  class Node {
    const key: int
    var left: Node?
    var right: Node?
    var parent: Node?

    constructor (key: int)
      ensures this.key == key
    {
      this.key := key;
    }
  }

  datatype Cell = Cell(left: Node?, right: Node?, parent: Node?) {
    function Kid(d: bool): Node? { if d then right else left }

    function SetKid(d: bool, p: Node?): Cell { if d then this.(right := p) else this.(left := p) }
  }

  type Mem = map<Node, Cell>

  function At(s: seq<Node>, i: int): Node? { if 0 <= i < |s| then s[i] else null }

  // The node whose index is i, in a complete binary tree stored in level order.
  function CellOf(s: seq<Node>, i: nat): Cell {
    Cell(At(s, 2 * i + 1), At(s, 2 * i + 2), if i == 0 then null else At(s, Up(i)))
  }

  function Up(i: nat): nat { if i == 0 then 0 else (i - 1) / 2 }

  ghost predicate Placed(m: Mem, s: seq<Node>, i: nat) {
    i < |s| ==> s[i] in m && m[s[i]] == CellOf(s, i)
  }

  // The nodes of s are linked as a complete binary tree.
  ghost predicate Complete(m: Mem, s: seq<Node>) {
    && Distinct(s)
    && (forall i: nat {:trigger Placed(m, s, i)} :: Placed(m, s, i))
    && (forall n :: n in m ==> n in s) && (forall n :: n in s ==> n in m)
  }

  // A node is at least its parent.
  predicate Edge(s: seq<Node>, k: nat) {
    0 < k < |s| ==> s[Up(k)].key <= s[k].key
  }

  ghost predicate Ordered(s: seq<Node>) {
    forall k: nat :: Edge(s, k)
  }

  // A node is at least its grandparent.
  predicate Bridge(s: seq<Node>, k: nat) {
    0 < k < |s| && 0 < Up(k) ==> s[Up(Up(k))].key <= s[k].key
  }

  // Ordered but for the edges at i; the order still holds across i.
  ghost predicate OrderedBut(s: seq<Node>, i: nat) {
    && (forall k: nat :: k != i && Up(k) != i ==> Edge(s, k))
    && (forall k: nat :: Up(k) == i ==> Bridge(s, k))
  }

  // Ordered but for the edge above i.
  ghost predicate OrderedBelow(s: seq<Node>, i: nat) {
    && (forall k: nat :: k != i ==> Edge(s, k))
    && (forall k: nat :: Up(k) == i ==> Bridge(s, k))
  }

  function SetKid(m: Mem, p: Node?, d: bool, kid: Node?): Mem {
    if p in m then m[p := m[p].SetKid(d, kid)] else m
  }

  function SetParent(m: Mem, p: Node?, parent: Node?): Mem {
    if p in m then m[p := m[p].(parent := parent)] else m
  }

  ghost predicate Apart(s: seq<Node?>) {
    forall i, j :: 0 <= i < j < |s| && s[i] != null ==> s[i] != s[j]
  }

  // The order of the nodes once the nodes at i and j have traded places.
  function Traded(s: seq<Node>, i: nat, j: nat): seq<Node>
    requires i < |s| && j < |s|
  {
    s[i := s[j]][j := s[i]]
  }

  lemma DistinctAt(s: seq<Node>, i: int, j: int)
    requires Distinct(s) && At(s, i) != null && i != j
    ensures At(s, i) != At(s, j)
  {}

  lemma SwapApart(s: seq<Node>, j: nat)
    requires Distinct(s) && 0 < j < |s|
    ensures var i, sib := Up(j), Beside(j);
      Apart([s[i], s[j], At(s, sib), At(s, 2 * j + 1), At(s, 2 * j + 2), Above(s, i)])
  {
    var i, sib := Up(j), Beside(j);
    var x := [i, j, sib, 2 * j + 1, 2 * j + 2, if i == 0 then -1 else Up(i)];
    var a := [s[i], s[j], At(s, sib), At(s, 2 * j + 1), At(s, 2 * j + 2), Above(s, i)];
    forall u, v | 0 <= u < v < |a| && a[u] != null ensures a[u] != a[v] {
      assert a[u] == At(s, x[u]) && a[v] == At(s, x[v]);
      assert x[u] != x[v];
      DistinctAt(s, x[u], x[v]);
    }
  }

  function Above(s: seq<Node>, i: nat): Node? { if i == 0 then null else At(s, Up(i)) }

  function Beside(j: nat): int { if j % 2 == 1 then j + 1 else j - 1 }

  // What heap_node_swap of s[j] with its parent writes.
  ghost predicate Swapped(m: Mem, m': Mem, s: seq<Node>, j: nat)
    requires 0 < j < |s|
  {
    var i, sib, d := Up(j), Beside(j), j % 2 == 0;
    var p, c, l, r, g := s[i], s[j], At(s, 2 * j + 1), At(s, 2 * j + 2), Above(s, i);
    && m'.Keys == m.Keys && p in m && c in m
    && m'[c] == Cell(null, null, g).SetKid(d, p).SetKid(!d, At(s, sib)) && m'[p] == Cell(l, r, c)
    && (sib < |s| ==> s[sib] in m && m'[s[sib]] == m[s[sib]].(parent := c))
    && (l != null ==> l in m && m'[l] == m[l].(parent := p))
    && (r != null ==> r in m && m'[r] == m[r].(parent := p))
    && (g != null ==> g in m && m'[g] == m[g].SetKid(i % 2 == 0, c))
    && (forall n :: n in m && n != p && n != c && n != At(s, sib) && n != l && n != r && n != g ==> m'[n] == m[n])
  }

  lemma SwapReady(m: Mem, s: seq<Node>, j: nat)
    requires Complete(m, s) && 0 < j < |s|
    ensures var i, sib, d := Up(j), Beside(j), j % 2 == 0;
      var l, r, g := At(s, 2 * j + 1), At(s, 2 * j + 2), Above(s, i);
      && s[i] in m && s[j] in m && (sib < |s| ==> s[sib] in m)
      && (l != null ==> l in m) && (r != null ==> r in m)
      && (g != null ==> g in m && (m[g].left != s[i]) == (i % 2 == 0))
      && m[s[i]].Kid(d) == s[j] && m[s[i]].Kid(!d) == At(s, sib) && m[s[i]].parent == g && m[s[j]] == Cell(l, r, s[i])
  {
    var i, sib := Up(j), Beside(j);
    assert Placed(m, s, i) && Placed(m, s, j) && Placed(m, s, sib) && Placed(m, s, 2 * j + 1)
      && Placed(m, s, 2 * j + 2) && Placed(m, s, Up(i));
    if i > 0 {
      DistinctAt(s, i, Beside(i));
    }
    hide Complete, Distinct;
  }

  // Every node is where the traded order says: the two nodes themselves, the nodes
  // that point up to them, the node that points down to them, and all others.
  lemma SwapPair(m: Mem, m': Mem, s: seq<Node>, j: nat, k: nat)
    requires 0 < j < |s| && Swapped(m, m', s, j) && (k == j || k == Up(j))
    ensures Placed(m', Traded(s, Up(j), j), k)
  {}

  lemma SwapBelow(m: Mem, m': Mem, s: seq<Node>, j: nat, k: nat)
    requires 0 < j < |s| && Swapped(m, m', s, j) && Placed(m, s, k)
    requires k == Beside(j) || k == 2 * j + 1 || k == 2 * j + 2
    ensures Placed(m', Traded(s, Up(j), j), k)
  {}

  lemma SwapAbove(m: Mem, m': Mem, s: seq<Node>, j: nat, k: nat)
    requires 0 < j < |s| && Swapped(m, m', s, j) && Placed(m, s, k) && 0 < Up(j) && k == Up(Up(j))
    ensures Placed(m', Traded(s, Up(j), j), k)
  {}

  lemma SwapFar(m: Mem, m': Mem, s: seq<Node>, j: nat, k: nat)
    requires 0 < j < |s| && Swapped(m, m', s, j) && Placed(m, s, k) && Distinct(s)
    requires k != j && k != Beside(j) && k != 2 * j + 1 && k != 2 * j + 2 && k != Up(j) && k != Up(Up(j))
    ensures Placed(m', Traded(s, Up(j), j), k)
  {
    hide Distinct;
    if k < |s| {
      DistinctAt(s, k, Up(j));
      DistinctAt(s, k, j);
      DistinctAt(s, k, Beside(j));
      DistinctAt(s, k, 2 * j + 1);
      DistinctAt(s, k, 2 * j + 2);
      DistinctAt(s, k, Up(Up(j)));
    }
  }

  lemma SwapComplete(m: Mem, m': Mem, s: seq<Node>, j: nat)
    requires Complete(m, s) && 0 < j < |s| && Swapped(m, m', s, j)
    ensures Complete(m', Traded(s, Up(j), j))
  {
    var i, s' := Up(j), Traded(s, Up(j), j);
    forall k: nat ensures Placed(m', s', k) {
      assert Placed(m, s, k);
      if k == i || k == j {
        SwapPair(m, m', s, j, k);
      } else if k == Beside(j) || k == 2 * j + 1 || k == 2 * j + 2 {
        SwapBelow(m, m', s, j, k);
      } else if k == Up(i) {
        SwapAbove(m, m', s, j, k);
      } else {
        SwapFar(m, m', s, j, k);
      }
    }
    TradedSame(s, i, j);
  }

  lemma TradedSame(s: seq<Node>, i: nat, j: nat)
    requires i < j < |s|
    ensures Distinct(s) ==> Distinct(Traded(s, i, j))
    ensures forall n :: n in s ==> n in Traded(s, i, j)
    ensures forall n :: n in Traded(s, i, j) ==> n in s
  {
    var s' := Traded(s, i, j);
    forall k | 0 <= k < |s| ensures s[k] in s' {
      assert s'[if k == i then j else if k == j then i else k] == s[k];
    }
  }

  // A node added behind the last one.
  lemma AppendComplete(m: Mem, s: seq<Node>, n: Node)
    requires Complete(m, s) && n !in m
    ensures Complete(SetKid(m[n := Cell(null, null, Above(s, |s|))], Above(s, |s|), |s| % 2 == 0, n), s + [n])
  {
    var p, s' := Above(s, |s|), s + [n];
    var m' := SetKid(m[n := Cell(null, null, p)], p, |s| % 2 == 0, n);
    assert p != null ==> Placed(m, s, Up(|s|));
    forall k: nat ensures Placed(m', s', k) {
      assert Placed(m, s, k);
      assert k < |s| ==> s'[k] == s[k] && s[k] != n;
    }
    assert n in s';
  }

  // The last node taken away.
  lemma DropComplete(m: Mem, s: seq<Node>)
    requires Complete(m, s) && s != []
    ensures var k := |s| - 1; Complete(SetKid(m, Above(s, k), k % 2 == 0, null) - {s[k]}, s[..k])
  {
    var l := |s| - 1;
    var p, s' := Above(s, l), s[..l];
    var m' := SetKid(m, p, l % 2 == 0, null) - {s[l]};
    assert Placed(m, s, Up(l)) && Placed(m, s, l);
    forall k: nat ensures Placed(m', s', k) {
      assert Placed(m, s, k);
      assert k < l ==> s'[k] == s[k] && s[k] != s[l];
    }
    forall n | n in m' ensures n in s' {
      var i :| 0 <= i < |s| && s[i] == n;
      assert s'[i] == n;
    }
  }

  // e takes over the place and the fields of s[i].
  ghost predicate Replaced(m: Mem, m': Mem, s: seq<Node>, i: nat, e: Node)
    requires i < |s|
  {
    var l, r, p := At(s, 2 * i + 1), At(s, 2 * i + 2), Above(s, i);
    && m'.Keys == m.Keys - {s[i]} + {e} && m'[e] == Cell(l, r, p)
    && (l != null ==> l in m && l in m' && m'[l] == m[l].(parent := e))
    && (r != null ==> r in m && r in m' && m'[r] == m[r].(parent := e))
    && (p != null ==> p in m && p in m' && m'[p] == m[p].SetKid(i % 2 == 0, e))
    && (forall n :: n in m && n != s[i] && n != l && n != r && n != p ==> m'[n] == m[n])
  }

  lemma ReplaceReady(m: Mem, s: seq<Node>, i: nat, e: Node)
    requires Complete(m, s) && i < |s| && e !in m
    ensures var l, r, p := At(s, 2 * i + 1), At(s, 2 * i + 2), Above(s, i);
      && Apart([s[i], e, l, r, p]) && s[i] in m && m[s[i]] == Cell(l, r, p)
      && (l != null ==> l in m) && (r != null ==> r in m)
      && (p != null ==> p in m && (m[p].left != s[i]) == (i % 2 == 0))
  {
    assert Placed(m, s, i) && Placed(m, s, 2 * i + 1) && Placed(m, s, 2 * i + 2) && Placed(m, s, Up(i));
    var a := [s[i], e, At(s, 2 * i + 1), At(s, 2 * i + 2), Above(s, i)];
    var x := [i, -1, 2 * i + 1, 2 * i + 2, if i == 0 then -1 else Up(i)];
    forall u, v | 0 <= u < v < |a| && a[u] != null ensures a[u] != a[v] {
      if u != 1 && v != 1 {
        assert a[u] == At(s, x[u]) && a[v] == At(s, x[v]);
        DistinctAt(s, x[u], x[v]);
      }
    }
    if i > 0 {
      DistinctAt(s, i, Beside(i));
    }
    hide Complete, Distinct;
  }

  lemma ReplaceAt(m: Mem, m': Mem, s: seq<Node>, i: nat, e: Node, k: nat)
    requires i < |s| && Replaced(m, m', s, i, e) && Placed(m, s, k) && Distinct(s)
    ensures Placed(m', s[i := e], k)
  {
    if k < |s| && k != i {
      assert s[k] != s[i];
      assert k != 2 * i + 1 && k != 2 * i + 2 && (i == 0 || k != Up(i)) ==>
        s[k] != At(s, 2 * i + 1) && s[k] != At(s, 2 * i + 2) && s[k] != Above(s, i);
    }
    hide Distinct;
  }

  lemma ReplaceComplete(m: Mem, m': Mem, s: seq<Node>, i: nat, e: Node)
    requires Complete(m, s) && i < |s| && e !in m && Replaced(m, m', s, i, e)
    ensures Complete(m', s[i := e])
  {
    var s' := s[i := e];
    forall k: nat ensures Placed(m', s', k) {
      assert Placed(m, s, k);
      ReplaceAt(m, m', s, i, e, k);
    }
    forall n | n in m' ensures n in s' {
      if n == e {
        assert s'[i] == n;
      } else {
        var j :| 0 <= j < |s| && s[j] == n;
        assert s'[j] == n;
      }
    }
  }

  // The order of the keys through one swap.
  lemma SiftUpStep(s: seq<Node>, i: nat)
    requires OrderedBelow(s, i) && 0 < i < |s| && s[i].key < s[Up(i)].key
    ensures OrderedBelow(Traded(s, Up(i), i), Up(i))
  {
    var p, t := Up(i), Traded(s, Up(i), i);
    forall k: nat | k != p ensures Edge(t, k) {
      assert Edge(s, k) || k == i;
      assert k != i && Up(k) == i ==> Bridge(s, k);
    }
    forall k: nat | Up(k) == p ensures Bridge(t, k) {
      assert Edge(s, p);
      assert k != i ==> Edge(s, k);
    }
  }

  lemma SiftDownStep(s: seq<Node>, i: nat, c: nat)
    requires OrderedBut(s, i) && 0 < c < |s| && Up(c) == i && s[c].key < s[i].key
    requires forall k: nat :: 0 < k < |s| && Up(k) == i ==> s[c].key <= s[k].key
    ensures OrderedBut(Traded(s, i, c), c) && Edge(Traded(s, i, c), c)
  {
    var t := Traded(s, i, c);
    forall k: nat | k != c && Up(k) != c ensures Edge(t, k) {
      assert k != i && Up(k) != i ==> Edge(s, k);
      assert Bridge(s, c);
    }
    forall k: nat | Up(k) == c ensures Bridge(t, k) {
      assert Edge(s, k);
    }
  }
}
