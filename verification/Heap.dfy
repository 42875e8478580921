// heap-inl.h: a binary min-heap of linked nodes, addressed by the bits of its size.
module MinHeap {
  import opened HeapShape
  import opened Sequences

  // Walking from slot x (counted from 1) with the low bits of path, first bit first.
  function Descend(x: nat, path: nat, k: nat): nat
    decreases k
  {
    if k == 0 then x else Descend(2 * x + path % 2, path / 2, k - 1)
  }

  lemma {:induction false} DescendGrows(x: nat, path: nat, k: nat)
    ensures Descend(x, path, k) >= x && (k > 0 && x > 0 ==> Descend(x, path, k) >= 2 * x + path % 2)
    decreases k
  {
    if k > 0 {
      DescendGrows(2 * x + path % 2, path / 2, k - 1);
    }
  }

  class Heap {
    var min: Node?
    var nelts: nat
    ghost var nodes: set<Node>
    ghost var order: seq<Node>

    ghost function Mem(): Mem
      reads this`nodes, nodes
    {
      map n | n in nodes :: Cell(n.left, n.right, n.parent)
    }

    // The nodes form the complete binary tree with level order s.
    ghost predicate Linked(s: seq<Node>)
      reads this`min, this`nodes, nodes
    {
      Complete(Mem(), s) && min == At(s, 0)
    }

    ghost predicate Valid()
      reads this, nodes
    {
      Linked(order) && nelts == |order| && Ordered(order)
    }

    // heap_init
    constructor ()
      ensures Valid() && nodes == {} && order == []
    {
      min, nelts, nodes, order := null, 0, {}, [];
    }

    lemma Fields(s: seq<Node>, i: nat)
      requires Linked(s)
      ensures i < |s| ==>
        && s[i] in nodes && s[i].left == At(s, 2 * i + 1) && s[i].right == At(s, 2 * i + 2)
        && s[i].parent == Above(s, i)
      ensures min == At(s, 0) && Distinct(s)
      ensures forall n :: n in nodes ==> n in s
      ensures forall n :: n in s ==> n in nodes
    {
      assert Placed(Mem(), s, i);
      assert forall n :: n in nodes ==> n in Mem();
    }

    lemma Relinked(s: seq<Node>)
      requires Complete(Mem(), s) && min == At(s, 0)
      ensures Linked(s)
    {}

    method PutKid(x: Node, d: bool, v: Node?)
      requires x in nodes
      modifies x`left, x`right
      ensures Mem() == SetKid(old(Mem()), x, d, v)
    {
      if d {
        x.right := v;
      } else {
        x.left := v;
      }
    }

    method PutParent(x: Node, v: Node?)
      requires x in nodes
      modifies x`parent
      ensures Mem() == SetParent(old(Mem()), x, v)
    {
      x.parent := v;
    }

    // The node in the slot numbered x.
    method NodeIn(p: Node?, d: bool, ghost s: seq<Node>, ghost x: nat) returns (n: Node)
      requires Linked(s) && 1 <= x <= |s| && p == Above(s, x - 1) && (x > 1 ==> d == ((x - 1) % 2 == 0))
      ensures n == s[x - 1]
    {
      hide Linked, Distinct;
      Fields(s, x - 1);
      Fields(s, Up(x - 1));
      n := if p == null then min else if d then p.right else p.left;
    }

    // The two walks of heap_insert and heap_remove: the slot numbered n, given as
    // a parent and a side; the slot numbered 1 is heap->min.
    method Slot(n: nat, ghost s: seq<Node>) returns (p: Node?, d: bool)
      requires Linked(s) && 1 <= n <= |s| + 1 && n < 0x1_0000_0000
      ensures p == Above(s, n - 1) && (n > 1 ==> d == ((n - 1) % 2 == 0))
    {
      hide Linked, Distinct;
      var path, k := PathTo(n);
      p, d := null, false;
      ghost var x: nat := 1;
      while k > 0
        invariant 1 <= x <= n && Descend(x, path, k) == n
        invariant p == Above(s, x - 1) && (x > 1 ==> d == ((x - 1) % 2 == 0))
        decreases k
      {
        DescendGrows(x, path, k);
        p := NodeIn(p, d, s, x);
        d := path % 2 == 1;
        x := 2 * x + path % 2;
        path := path / 2;
        k := k - 1;
        DescendGrows(x, path, k);
      }
    }

    // The writes of heap_node_swap, up to the parent links of the nodes around.
    method SwapFields(parent: Node, child: Node) returns (sibling: Node?)
      requires parent != child && parent.parent != parent && parent.parent != child
        && (parent.left == child) != (parent.right == child)
      modifies parent, child
      ensures child.left == (if old(parent.left) == child then parent else old(parent.left))
      ensures child.right == (if old(parent.left) == child then old(parent.right) else parent)
      ensures child.parent == old(parent.parent)
      ensures sibling == if old(parent.left) == child then child.right else child.left
      ensures parent.left == old(child.left) && parent.right == old(child.right) && parent.parent == child
    {
      parent.left, child.left := child.left, parent.left;
      parent.right, child.right := child.right, parent.right;
      parent.parent, child.parent := child.parent, parent.parent;
      parent.parent := child;
      if child.left == child {
        child.left := parent;
        sibling := child.right;
      } else {
        child.right := parent;
        sibling := child.left;
      }
    }

    // The writes of heap_node_swap; sib, l, r and g are the nodes around the two.
    method SwapLinks(parent: Node, child: Node, ghost sib: Node?, ghost l: Node?, ghost r: Node?, ghost g: Node?)
      requires Apart([parent, child, sib, l, r, g])
      requires parent in nodes && child in nodes && sib in nodes + {null} && l in nodes + {null}
        && r in nodes + {null} && g in nodes + {null}
      requires (parent.left == child && parent.right == sib) || (parent.left == sib && parent.right == child)
      requires parent.parent == g && child.left == l && child.right == r
      modifies `min, nodes
      ensures min == if g == null then child else old(min)
      ensures child.left == (if old(parent.left) == child then parent else sib)
      ensures child.right == (if old(parent.left) == child then sib else parent) && child.parent == g
      ensures parent.left == l && parent.right == r && parent.parent == child
      ensures sib != null ==> sib.parent == child && sib.left == old(sib.left) && sib.right == old(sib.right)
      ensures l != null ==> l.parent == parent && l.left == old(l.left) && l.right == old(l.right)
      ensures r != null ==> r.parent == parent && r.left == old(r.left) && r.right == old(r.right)
      ensures g != null ==>
        && g.parent == old(g.parent)
        && g.left == (if old(g.left) == parent then child else old(g.left))
        && g.right == (if old(g.left) == parent then old(g.right) else child)
      ensures forall n :: n in nodes && n != parent && n != child && n != sib && n != l && n != r && n != g ==>
        unchanged(n)
    {
      ghost var a := [parent, child, sib, l, r, g];
      assert a[0] == parent && a[1] == child && a[2] == sib && a[3] == l && a[4] == r && a[5] == g;
      var sibling := SwapFields(parent, child);
      if sibling != null {
        sibling.parent := child;
      }
      if parent.left != null {
        parent.left.parent := parent;
      }
      if parent.right != null {
        parent.right.parent := parent;
      }
      if child.parent == null {
        min := child;
      } else if child.parent.left == parent {
        child.parent.left := child;
      } else {
        child.parent.right := child;
      }
    }

    // heap_node_swap of s[j] and its parent
    method NodeSwap(parent: Node, child: Node, ghost s: seq<Node>, ghost j: nat)
      requires Linked(s) && 0 < j < |s| && child == s[j] && parent == s[Up(j)]
      modifies `min, nodes
      ensures Linked(Traded(s, Up(j), j))
    {
      ghost var m := Mem();
      SwapReady(m, s, j);
      SwapApart(s, j);
      SwapLinks(parent, child, At(s, Beside(j)), At(s, 2 * j + 1), At(s, 2 * j + 2), Above(s, Up(j)));
      SwapComplete(m, Mem(), s, j);
    }

    method Enter(n: Node, parent: Node?)
      requires n !in nodes
      modifies `nodes, n
      ensures nodes == old(nodes) + {n} && n !in old(Mem()) && Mem() == old(Mem())[n := Cell(null, null, parent)]
    {
      n.left, n.right, n.parent := null, null, null;
      n.parent := parent;
      nodes := nodes + {n};
    }

    ghost method Leave(n: Node)
      modifies `nodes
      ensures nodes == old(nodes) - {n} && Mem() == old(Mem()) - {n}
    {
      nodes := nodes - {n};
    }

    // The end of heap_insert and of heap_remove: n moves up while it is less than its parent.
    method SiftUp(n: Node, ghost s0: seq<Node>, ghost i0: nat) returns (ghost s: seq<Node>)
      requires Linked(s0) && i0 < |s0| && s0[i0] == n && OrderedBelow(s0, i0)
      modifies `min, nodes
      ensures Linked(s) && Ordered(s) && |s| == |s0| && multiset(s) == multiset(s0)
    {
      hide Linked, Distinct;
      s := s0;
      ghost var i: nat := i0;
      Fields(s, i);
      while n.parent != null && n.key < n.parent.key
        invariant Linked(s) && i < |s| == |s0| && s[i] == n && OrderedBelow(s, i) && multiset(s) == multiset(s0)
        invariant n.parent == Above(s, i)
        decreases i
      {
        Fields(s, Up(i));
        NodeSwap(n.parent, n, s, i);
        SiftUpStep(s, i);
        s, i := Traded(s, Up(i), i), Up(i);
        Fields(s, i);
      }
      assert Edge(s, i);
    }

    // heap_insert up to and including "Insert the new node".
    method AppendLast(newnode: Node, ghost s: seq<Node>)
      requires Linked(s) && nelts == |s| < 0xFFFF_FFFF && newnode !in nodes
      modifies `min, `nelts, `nodes, nodes, newnode
      ensures Linked(s + [newnode]) && nodes == old(nodes) + {newnode} && nelts == |s| + 1
    {
      hide Distinct, Complete, Mem;
      var p, d := Slot(1 + nelts, s);
      Fields(s, Up(|s|));
      Keys();
      AppendComplete(Mem(), s, newnode);
      assert s != [] ==> At(s + [newnode], 0) == s[0];
      Enter(newnode, p);
      if p == null {
        min := newnode;
      } else {
        PutKid(p, d, newnode);
      }
      nelts := nelts + 1;
    }

    lemma Keys()
      ensures Mem().Keys == nodes
    {}

    // heap_insert
    method Insert(newnode: Node)
      requires Valid() && newnode !in nodes && nelts < 0xFFFF_FFFF
      modifies this, nodes, newnode
      ensures Valid() && nodes == old(nodes) + {newnode}
      ensures multiset(order) == multiset(old(order)) + multiset{newnode}
    {
      hide Linked, Ordered, OrderedBelow;
      ghost var s := order;
      AppendLast(newnode, s);
      AppendOrdered(s, newnode);
      order := SiftUp(newnode, s + [newnode], |s|);
    }

    // e, already out of the tree, takes over the place and the fields of n.
    method TakePlace(n: Node, e: Node, ghost l: Node?, ghost r: Node?, ghost p: Node?)
      requires Apart([n, e, l, r, p]) && n in nodes && l in nodes + {null} && r in nodes + {null} && p in nodes + {null}
      requires n.left == l && n.right == r && n.parent == p
      modifies `min, nodes, e
      ensures min == if p == null then e else old(min)
      ensures e.left == l && e.right == r && e.parent == p
      ensures l != null ==> l.parent == e && l.left == old(l.left) && l.right == old(l.right)
      ensures r != null ==> r.parent == e && r.left == old(r.left) && r.right == old(r.right)
      ensures p != null ==>
        && p.parent == old(p.parent)
        && p.left == (if old(p.left) == n then e else old(p.left))
        && p.right == (if old(p.left) == n then old(p.right) else e)
      ensures forall k :: k in nodes && k != n && k != e && k != l && k != r && k != p ==> unchanged(k)
    {
      ghost var a := [n, e, l, r, p];
      assert a[0] == n && a[1] == e && a[2] == l && a[3] == r && a[4] == p;
      e.left := n.left;
      e.right := n.right;
      e.parent := n.parent;
      if e.left != null {
        e.left.parent := e;
      }
      if e.right != null {
        e.right.parent := e;
      }
      if n.parent == null {
        min := e;
      } else if n.parent.left == n {
        n.parent.left := e;
      } else {
        n.parent.right := e;
      }
    }

    method Supplant(n: Node, e: Node, ghost s: seq<Node>, ghost i: nat)
      requires Linked(s) && i < |s| && s[i] == n && e !in nodes
      modifies `min, `nodes, nodes, e
      ensures Linked(s[i := e]) && nodes == old(nodes) - {n} + {e}
    {
      ghost var m := Mem();
      ReplaceReady(m, s, i, e);
      TakePlace(n, e, At(s, 2 * i + 1), At(s, 2 * i + 2), Above(s, i));
      nodes := nodes - {n} + {e};
      ReplaceComplete(m, Mem(), s, i, e);
    }

    // "Unlink the max node" of heap_remove, for the slot given as a parent and a side.
    method ClearSlot(p: Node?, d: bool) returns (child: Node?)
      requires p != null ==> p in nodes
      modifies `min, nodes`left, nodes`right
      ensures Mem() == SetKid(old(Mem()), p, d, null)
      ensures child == old(if p == null then min else if d then p.right else p.left)
      ensures min == if p == null then null else old(min)
    {
      if p == null {
        child := min;
        min := null;
      } else {
        child := if d then p.right else p.left;
        PutKid(p, d, null);
      }
    }

    // heap_remove up to and including "Unlink the max node".
    method CutLast(ghost s: seq<Node>) returns (child: Node)
      requires Linked(s) && 1 <= |s| == nelts < 0x1_0000_0000
      modifies `min, `nelts, `nodes, nodes
      ensures child == s[|s| - 1] && nodes == old(nodes) - {child} && nelts == |s| - 1
      ensures Linked(s[..|s| - 1]) && child != min
    {
      hide Complete, Distinct, Mem;
      var p, d := Slot(nelts, s);
      Fields(s, Up(|s| - 1));
      Fields(s, |s| - 1);
      DropComplete(Mem(), s);
      ghost var t := s[..|s| - 1];
      assert p == null <==> |s| == 1;
      assert |s| > 1 ==> p in nodes && At(t, 0) == s[0];
      assert |s| == 1 ==> At(t, 0) == null;
      hide *;
      nelts := nelts - 1;
      child := ClearSlot(p, d);
      Leave(child);
      Relinked(t);
      Fields(t, 0);
    }

    // The choice in one pass of the walk down: the node itself or its least child.
    method Smallest(child: Node, ghost s: seq<Node>, ghost i: nat) returns (smallest: Node, ghost c: nat)
      requires Linked(s) && i < |s| && s[i] == child
      ensures c < |s| && smallest == s[c]
        && (if smallest == child then c == i else c > i && Up(c) == i && smallest.key < child.key)
      ensures forall k: nat :: 0 < k < |s| && Up(k) == i ==> smallest.key <= s[k].key
    {
      Fields(s, i);
      Fields(s, 2 * i + 1);
      Fields(s, 2 * i + 2);
      hide Linked, Distinct;
      smallest, c := child, i;
      if child.left != null && child.left.key < smallest.key {
        smallest, c := child.left, 2 * i + 1;
      }
      if child.right != null && child.right.key < smallest.key {
        smallest, c := child.right, 2 * i + 2;
      }
      assert forall k: nat :: 0 < k && Up(k) == i ==> k == 2 * i + 1 || k == 2 * i + 2;
    }

    // The walk down of heap_remove.
    method SiftDown(child: Node, ghost s0: seq<Node>, ghost i0: nat) returns (ghost s: seq<Node>, ghost i: nat)
      requires Linked(s0) && i0 < |s0| && s0[i0] == child && OrderedBut(s0, i0)
      modifies `min, nodes
      ensures Linked(s) && |s| == |s0| && multiset(s) == multiset(s0)
      ensures i < |s| && s[i] == child && OrderedBelow(s, i)
    {
      hide Linked;
      s, i := s0, i0;
      while true
        invariant Linked(s) && i < |s| == |s0| && s[i] == child && OrderedBut(s, i) && multiset(s) == multiset(s0)
        decreases |s| - i
      {
        var smallest;
        ghost var c: nat;
        smallest, c := Smallest(child, s, i);
        if smallest == child {
          break;
        }
        Fields(s, c);
        NodeSwap(child, smallest, s, c);
        SiftDownStep(s, i, c);
        s, i := Traded(s, i, c), c;
      }
      forall k: nat | k != i ensures Edge(s, k) {}
    }

    // heap_remove once the last node is off the tree and is not the node to remove.
    method FillGap(node: Node, child: Node, ghost s: seq<Node>, ghost i: nat) returns (ghost t: seq<Node>)
      requires s != [] && child == s[|s| - 1] && i < |s| - 1 && s[i] == node
      requires Linked(s[..|s| - 1]) && child !in nodes && Ordered(s)
      modifies `min, `nodes, nodes, child
      ensures nodes == old(nodes) - {node} + {child}
      ensures Linked(t) && Ordered(t) && |t| == |s| - 1 && multiset(t) == multiset(s) - multiset{node}
    {
      hide Linked;
      ghost var s1 := s[..|s| - 1];
      assert s == s1 + [child];
      ReplaceOrdered(s, i, child);
      Supplant(node, child, s1, i);
      ghost var j;
      t, j := SiftDown(child, s1[i := child], i);
      t := SiftUp(child, t, j);
    }

    // heap_remove of a node of a heap that is not empty. The source's test whether the
    // node cut off is heap->min never holds: cutting it off has already cleared heap->min.
    method RemoveNode(node: Node)
      requires Linked(order) && nelts == |order| && Ordered(order) && nelts < 0x1_0000_0000 && node in nodes
      modifies this, nodes
      ensures Linked(order) && nelts == |order| && Ordered(order)
      ensures nodes == old(nodes) - {node} && nelts == old(nelts) - 1
      ensures multiset(order) == multiset(old(order)) - multiset{node}
    {
      hide *;
      ghost var s := order;
      Fields(s, 0);
      var child := CutLast(s);
      if child == node {
        LastGone(s);
        order := s[..|s| - 1];
      } else {
        order := FillGap(node, child, s, IndexOf(s, node));
      }
    }

    // heap_remove
    method Remove(node: Node?)
      requires Valid() && nelts < 0x1_0000_0000 && (nelts > 0 ==> node in nodes)
      modifies this, nodes
      ensures Valid() && nodes == old(nodes) - {node}
      ensures old(nelts) > 0 ==> multiset(order) == multiset(old(order)) - multiset{node}
    {
      if nelts == 0 {
        Fields(order, 0);
        return;
      }
      RemoveNode(node);
    }

    // heap_dequeue
    method Dequeue()
      requires Valid() && nelts < 0x1_0000_0000
      modifies this, nodes
      ensures Valid() && nodes == old(nodes) - {old(min)}
      ensures old(nelts) > 0 ==> multiset(order) == multiset(old(order)) - multiset{old(order)[0]}
    {
      Fields(order, 0);
      Remove(min);
    }
  }

  ghost function IndexOf(s: seq<Node>, n: Node): (i: nat)
    requires n in s
    ensures i < |s| && s[i] == n
  {
    var i :| 0 <= i < |s| && s[i] == n; i
  }

  lemma LastGone(s: seq<Node>)
    requires s != [] && Ordered(s)
    ensures var t := s[..|s| - 1]; Ordered(t) && multiset(t) == multiset(s) - multiset{s[|s| - 1]}
  {
    assert s == s[..|s| - 1] + [s[|s| - 1]];
    PrefixOrdered(s, |s| - 1);
  }

  lemma PrefixOrdered(s: seq<Node>, n: nat)
    requires Ordered(s) && n <= |s|
    ensures Ordered(s[..n])
  {
    forall k: nat ensures Edge(s[..n], k) {
      assert Edge(s, k);
    }
  }

  lemma ReplaceOrdered(s: seq<Node>, i: nat, e: Node)
    requires Ordered(s) && i < |s| - 1
    ensures OrderedBut(s[..|s| - 1][i := e], i)
  {
    var t := s[..|s| - 1][i := e];
    forall k: nat | k != i && Up(k) != i ensures Edge(t, k) {
      assert Edge(s, k);
    }
    forall k: nat | Up(k) == i ensures Bridge(t, k) {
      assert Edge(s, k) && Edge(s, i);
    }
  }

  lemma {:induction false} RootLeast(s: seq<Node>, k: nat)
    requires Ordered(s) && k < |s|
    ensures s[0].key <= s[k].key
  {
    if k > 0 {
      assert Edge(s, k);
      RootLeast(s, Up(k));
    }
  }

  ghost predicate SortedKeys(s: seq<Node>) {
    forall i, j :: 0 <= i < j < |s| ==> s[i].key <= s[j].key
  }

  // Draining a heap with heap_min and heap_dequeue gives its nodes in key order.
  method Drain(h: Heap) returns (out: seq<Node>)
    requires h.Valid() && h.nelts < 0x1_0000_0000
    modifies h, h.nodes
    ensures h.Valid() && h.order == []
    ensures SortedKeys(out) && multiset(out) == multiset(old(h.order))
  {
    out := [];
    while h.min != null
      invariant h.Valid() && h.nelts < 0x1_0000_0000 && h.nodes <= old(h.nodes)
      invariant SortedKeys(out) && multiset(out) + multiset(h.order) == multiset(old(h.order))
      invariant forall x, y :: x in out && y in h.order ==> x.key <= y.key
      decreases |h.order|
    {
      ghost var s, o := h.order, out;
      h.Fields(s, 0);
      var n := h.min;
      h.Dequeue();
      DrainStep(s, h.order, o, n);
      out := out + [n];
    }
    h.Fields(h.order, 0);
  }

  lemma DrainStep(s: seq<Node>, s': seq<Node>, out: seq<Node>, n: Node)
    requires s != [] && s[0] == n && Ordered(s) && multiset(s') == multiset(s) - multiset{n}
    requires SortedKeys(out) && forall x, y :: x in out && y in s ==> x.key <= y.key
    ensures |s'| == |s| - 1 && SortedKeys(out + [n])
    ensures multiset(out + [n]) + multiset(s') == multiset(out) + multiset(s)
    ensures forall x, y :: x in out + [n] && y in s' ==> x.key <= y.key
  {
    assert n in multiset(s) && |multiset(s')| == |multiset(s)| - 1;
    forall y | y in s' ensures n.key <= y.key && y in s {
      assert y in multiset(s') && y in multiset(s);
      var k :| 0 <= k < |s| && s[k] == y;
      RootLeast(s, k);
    }
    assert n in s;
  }

  lemma AppendOrdered(s: seq<Node>, n: Node)
    requires Ordered(s)
    ensures OrderedBelow(s + [n], |s|)
  {
    forall k: nat | k != |s| ensures Edge(s + [n], k) {
      assert Edge(s, k);
    }
  }

  lemma Halve(w: nat, n: nat)
    ensures (2 * w) * (n / 2) <= w * n
  {
    assert w * n == w * (2 * (n / 2)) + w * (n % 2);
  }

  // The bits of n below its leading one, the highest of them first; they fit an unsigned int.
  method PathTo(n0: nat) returns (path: nat, k: nat)
    requires 1 <= n0 < 0x1_0000_0000
    ensures Descend(1, path, k) == n0 && path < n0
  {
    var n := n0;
    path, k := 0, 0;
    ghost var w: nat := 1;
    while n >= 2
      invariant 1 <= n && Descend(n, path, k) == n0
      invariant path < w && w * n <= n0
    {
      Halve(w, n);
      w := 2 * w;
      path := 2 * path + n % 2;
      k := k + 1;
      n := n / 2;
    }
  }
}
