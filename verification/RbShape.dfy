// The values behind the red-black macros of tree.h: shapes of linked nodes,
// contexts (a shape with one subtree missing), in-order sequences and the
// colour rules. Nothing here reads the heap.
module RbShape {
  class Node {
    const key: int
    var left: Node?
    var right: Node?
    var parent: Node?
    var red: bool

    constructor (key: int)
      ensures this.key == key
    {
      this.key := key;
    }

    // The child in direction d: false is left, true is right.
    function Kid(d: bool): Node?
      reads this
    {
      if d then right else left
    }
  }

  datatype Shape = Leaf | Branch(l: Shape, n: Node, red: bool, r: Shape) {
    function Root(): Node? { if Leaf? then null else n }

    predicate Red() { Branch? && red }

    function Sub(d: bool): Shape
      requires Branch?
    {
      if d then r else l
    }

    function InOrder(): seq<Node> { if Leaf? then [] else l.InOrder() + [n] + r.InOrder() }

    ghost function Nodes(): set<Node> { if Leaf? then {} else l.Nodes() + {n} + r.Nodes() }

    ghost predicate Distinct() {
      Branch? ==> l.Distinct() && r.Distinct() && n !in l.Nodes() && n !in r.Nodes() && l.Nodes() !! r.Nodes()
    }

    function Height(): nat { if Leaf? then 0 else 1 + if l.Height() < r.Height() then r.Height() else l.Height() }
  }

  // A branch whose first subtree is the one in direction d.
  function Mk(d: bool, near: Shape, n: Node, red: bool, far: Shape): Shape {
    if d then Branch(far, n, red, near) else Branch(near, n, red, far)
  }

  // The path from a missing subtree to the root: the missing subtree is the
  // child of n in direction d, sib is the other child of n.
  datatype Context = Top | Hole(d: bool, up: Context, n: Node, red: bool, sib: Shape) {
    function Parent(): Node? { if Top? then null else n }

    predicate Red() { Hole? && red }

    function Plug(t: Shape): Shape { if Top? then t else up.Plug(Mk(d, t, n, red, sib)) }

    ghost function Nodes(): set<Node> { if Top? then {} else sib.Nodes() + {n} + up.Nodes() }

    ghost predicate Distinct() {
      Hole? ==> sib.Distinct() && up.Distinct() && n !in sib.Nodes() && n !in up.Nodes() && sib.Nodes() !! up.Nodes()
    }

    function Before(): seq<Node> {
      if Top? then [] else if d then up.Before() + sib.InOrder() + [n] else up.Before()
    }

    function After(): seq<Node> {
      if Top? then [] else if d then up.After() else [n] + sib.InOrder() + up.After()
    }

    function Depth(): nat { if Top? then 0 else 1 + up.Depth() }
  }

  // The path inner followed by the path outer.
  function Compose(inner: Context, outer: Context): Context {
    if inner.Top? then outer else inner.(up := Compose(inner.up, outer))
  }

  ghost predicate Sorted(s: seq<Node>) {
    forall i, j :: 0 <= i < j < |s| ==> s[i].key < s[j].key
  }

  // Every path from the root of t to a leaf meets h black nodes, and no red
  // node has a red child.
  predicate Coloured(t: Shape, h: int) {
    match t
    case Leaf => h == 0
    case Branch(l, _, red, r) =>
      if red then Coloured(l, h) && Coloured(r, h) && !l.Red() && !r.Red()
      else Coloured(l, h - 1) && Coloured(r, h - 1)
  }

  // t is a subtree one black node short, or with a red root that painting black repairs.
  predicate Short(t: Shape, h: int) {
    if t.Red() then Coloured(t.(red := false), h + 1) else Coloured(t, h)
  }

  // The colour rules of a whole tree: they hold for some black height, and the root is black.
  ghost predicate Balanced(t: Shape) {
    !t.Red() && exists h :: Coloured(t, h)
  }

  // Plugging a shape of black height h into c breaks no rule above the hole;
  // the root of the whole tree is black.
  predicate Fits(c: Context, h: int) {
    match c
    case Top => true
    case Hole(_, up, _, red, sib) =>
      Coloured(sib, h) && if red then !sib.Red() && up.Hole? && !up.Red() && Fits(up, h) else Fits(up, h + 1)
  }

  lemma {:induction false} PlugInOrder(c: Context, t: Shape)
    ensures c.Plug(t).InOrder() == c.Before() + t.InOrder() + c.After()
  {
    if c.Hole? {
      PlugInOrder(c.up, Mk(c.d, t, c.n, c.red, c.sib));
      Regroup(c.up.Before(), t.InOrder(), c.n, c.sib.InOrder(), c.up.After());
    }
  }

  lemma Regroup(a: seq<Node>, i: seq<Node>, n: Node, s: seq<Node>, b: seq<Node>)
    ensures a + (s + [n] + i) + b == (a + s + [n]) + i + b
    ensures a + (i + [n] + s) + b == a + i + ([n] + s + b)
  {}

  lemma {:induction false} PlugCompose(inner: Context, outer: Context, t: Shape)
    ensures Compose(inner, outer).Plug(t) == outer.Plug(inner.Plug(t))
  {
    if inner.Hole? {
      PlugCompose(inner.up, outer, Mk(inner.d, t, inner.n, inner.red, inner.sib));
    }
  }

  lemma {:induction false} PlugColoured(c: Context, t: Shape, h: int) returns (H: int)
    requires Coloured(t, h) && Fits(c, h)
    requires t.Red() ==> c.Hole? && !c.Red()
    ensures Coloured(c.Plug(t), H) && !c.Plug(t).Red()
  {
    if c.Top? {
      H := h;
    } else {
      H := PlugColoured(c.up, Mk(c.d, t, c.n, c.red, c.sib), if c.red then h else h + 1);
    }
  }

  lemma {:induction false} ColouredHeight(t: Shape, h: int)
    requires Coloured(t, h)
    ensures h >= 0
  {
    if t.Branch? {
      ColouredHeight(t.l, if t.red then h else h - 1);
    }
  }

  lemma {:induction false} PlugRoot(c: Context, t: Shape, t': Shape)
    requires c.Hole?
    ensures c.Plug(t).Root() == c.Plug(t').Root()
  {
    if c.up.Hole? {
      PlugRoot(c.up, Mk(c.d, t, c.n, c.red, c.sib), Mk(c.d, t', c.n, c.red, c.sib));
    }
  }

  lemma TurnInOrder(d: bool, a: Shape, x: Node, rx: bool, b: Shape, y: Node, ry: bool, r: Shape)
    ensures Mk(d, Mk(d, a, x, rx, b), y, ry, r).InOrder() == Mk(d, a, x, rx, Mk(d, b, y, ry, r)).InOrder()
  {
    var i, j, k := a.InOrder(), b.InOrder(), r.InOrder();
    if d {
      assert k + [y] + (j + [x] + i) == (k + [y] + j) + [x] + i;
    } else {
      assert (i + [x] + j) + [y] + k == i + [x] + (j + [y] + k);
    }
  }

  lemma SameInOrder(c: Context, t: Shape, t': Shape)
    requires t.InOrder() == t'.InOrder()
    ensures c.Plug(t).InOrder() == c.Plug(t').InOrder()
  {
    PlugInOrder(c, t);
    PlugInOrder(c, t');
  }

  ghost predicate Around(s: seq<Node>, k: int, s': seq<Node>) {
    (forall n :: n in s ==> n.key < k) && (forall n :: n in s' ==> k < n.key)
  }

  // The step of a search: if the focus and the keys around it are known, so is the next focus.
  lemma SearchStep(c: Context, t: Shape, d: bool, k: int, h: int) returns (h': int)
    requires t.Branch? && Around(c.Before(), k, c.After()) && Sorted(c.Plug(t).InOrder())
    requires if d then t.n.key < k else k < t.n.key
    requires Coloured(t, h) && Fits(c, h) && (t.Red() ==> c.Hole? && !c.Red())
    ensures var c', t' := Hole(d, c, t.n, t.red, t.Sub(!d)), t.Sub(d);
      && c'.Plug(t') == c.Plug(t) && Around(c'.Before(), k, c'.After())
      && Coloured(t', h') && Fits(c', h') && (t'.Red() ==> !c'.Red())
  {
    h' := if t.red then h else h - 1;
    PlugInOrder(c, t);
    SortedParts(c.Before() + t.InOrder(), c.After());
    SortedParts(c.Before(), t.InOrder());
    SortedParts(t.l.InOrder() + [t.n], t.r.InOrder());
    SortedParts(t.l.InOrder(), [t.n]);
    assert t.n in [t.n] && t.n in t.l.InOrder() + [t.n];
  }

  lemma SortedParts(s: seq<Node>, s': seq<Node>)
    requires Sorted(s + s')
    ensures Sorted(s) && Sorted(s')
    ensures forall x, y :: x in s && y in s' ==> x.key < y.key
  {
    forall i | 0 <= i < |s| ensures s[i] == (s + s')[i] {}
    forall i | 0 <= i < |s'| ensures s'[i] == (s + s')[|s| + i] {}
  }

  lemma SortedInsert(s: seq<Node>, e: Node, s': seq<Node>)
    requires Sorted(s + s') && Around(s, e.key, s')
    ensures Sorted(s + [e] + s')
  {
    var w, w' := s + s', s + [e] + s';
    forall i, j | 0 <= i < j < |w'| ensures w'[i].key < w'[j].key {
      assert i != |s| ==> w'[i] == w[if i < |s| then i else i - 1];
      assert j != |s| ==> w'[j] == w[if j < |s| then j else j - 1];
    }
  }

  lemma {:induction false} InOrderNodes(t: Shape)
    ensures forall n :: n in t.InOrder() ==> n in t.Nodes()
    ensures forall n :: n in t.Nodes() ==> n in t.InOrder()
  {
    if t.Branch? {
      InOrderNodes(t.l);
      InOrderNodes(t.r);
    }
  }

  // Hanging a node where its search ended keeps the order, and its key is new.
  lemma InsertSpot(c: Context, e: Node)
    requires Sorted(c.Plug(Leaf).InOrder()) && Around(c.Before(), e.key, c.After())
    ensures Sorted(c.Plug(Branch(Leaf, e, true, Leaf)).InOrder())
    ensures forall n :: n in c.Plug(Leaf).Nodes() ==> n.key != e.key
  {
    PlugInOrder(c, Leaf);
    PlugInOrder(c, Branch(Leaf, e, true, Leaf));
    InOrderNodes(c.Plug(Leaf));
    assert c.Before() + [] + c.After() == c.Before() + c.After();
    assert Leaf.InOrder() + [e] + Leaf.InOrder() == [e];
    SortedInsert(c.Before(), e, c.After());
  }

  // The colour rules through the last two rotations of a removal: near and far are
  // the children of the black sibling, t is one black node short.
  lemma NearNephew(c: Context, d: bool, s: Node, near: Shape, far: Shape, h: int)
    requires c.Hole? && c.sib == Mk(d, near, s, false, far) && near.Red() && !far.Red() && Fits(c, h + 1)
    ensures var s' := Mk(!d, Mk(!d, far, s, true, near.Sub(!d)), near.n, false, near.Sub(d));
      && Fits(c.(sib := s'), h + 1) && s'.InOrder() == c.sib.InOrder()
  {
    assert near == Mk(!d, near.Sub(!d), near.n, true, near.Sub(d));
    TurnInOrder(!d, far, s, true, near.Sub(!d), near.n, false, near.Sub(d));
    assert Coloured(c.sib, h + 1) && Coloured(near, h) && Coloured(far, h);
    assert Coloured(near.Sub(d), h) && Coloured(near.Sub(!d), h) && !near.Sub(d).Red() && !near.Sub(!d).Red();
  }

  lemma FarNephew(c: Context, t: Shape, s: Node, near: Shape, far: Shape, h: int) returns (H: int)
    requires c.Hole? && c.sib == Mk(c.d, near, s, false, far) && far.Red() && Coloured(t, h) && Fits(c, h + 1)
    ensures var u := Mk(c.d, Mk(c.d, t, c.n, false, near), s, c.red, far.(red := false));
      && Coloured(u, H) && Fits(c.up, H) && (u.Red() ==> c.up.Hole? && !c.up.Red())
      && c.up.Plug(u).InOrder() == c.Plug(t).InOrder()
  {
    H := if c.red then h + 1 else h + 2;
    var u := Mk(c.d, Mk(c.d, t, c.n, false, near), s, c.red, far.(red := false));
    assert Coloured(c.sib, h + 1) && Coloured(near, h) && Coloured(far, h);
    assert Coloured(far.(red := false), h + 1) && Coloured(Mk(c.d, t, c.n, false, near), h + 1);
    TurnInOrder(c.d, t, c.n, false, near, s, c.red, far);
    assert far.(red := false).InOrder() == far.InOrder();
    SameInOrder(c.up, Mk(c.d, t, c.n, c.red, c.sib), u);
  }

  // Where a node sits in a tree, with the colour rules split at that place.
  lemma {:induction false} Locate(c: Context, t: Shape, h: int, n: Node) returns (c': Context, t': Shape, h': int)
    requires n in t.Nodes() && Coloured(t, h) && Fits(c, h) && (t.Red() ==> c.Hole? && !c.Red())
    ensures t'.Branch? && t'.n == n && c'.Plug(t') == c.Plug(t)
    ensures Coloured(t', h') && Fits(c', h') && (t'.Red() ==> c'.Hole? && !c'.Red())
    decreases t
  {
    if n == t.n {
      return c, t, h;
    }
    var d := n !in t.l.Nodes();
    c', t', h' := Locate(Hole(d, c, t.n, t.red, t.Sub(!d)), t.Sub(d), if t.red then h else h - 1, n);
  }

  // All links of the path go left.
  predicate LeftSpine(c: Context) {
    c.Hole? ==> !c.d && LeftSpine(c.up)
  }

  lemma {:induction false} LeftSpineBefore(c: Context)
    requires LeftSpine(c)
    ensures c.Before() == []
  {
    if c.Hole? {
      LeftSpineBefore(c.up);
    }
  }

  // Swapping the node of one frame for another changes no colour.
  lemma {:induction false} FitsRenamed(inner: Context, o: Context, o': Context, h: int)
    requires o.Hole? && o'.Hole? && o' == o.(n := o'.n) && Fits(Compose(inner, o), h)
    ensures Fits(Compose(inner, o'), h)
  {
    if inner.Hole? {
      FitsRenamed(inner.up, o, o', if inner.red then h else h + 1);
    }
  }

  lemma SortedWithout(s: seq<Node>, n: Node, s': seq<Node>)
    requires Sorted(s + [n] + s')
    ensures Sorted(s + s')
  {
    var w, w' := s + [n] + s', s + s';
    forall i, j | 0 <= i < j < |w'| ensures w'[i].key < w'[j].key {
      assert w'[i] == w[if i < |s| then i else i + 1];
      assert w'[j] == w[if j < |s| then j else j + 1];
    }
  }

  // Removing a node with an empty child keeps the order.
  lemma SpliceOrder(c: Context, d: bool, n: Node, red: bool, t: Shape)
    requires Sorted(c.Plug(Mk(d, Leaf, n, red, t)).InOrder())
    ensures Sorted(c.Plug(t).InOrder())
  {
    var u := Mk(d, Leaf, n, red, t);
    PlugInOrder(c, t);
    PlugInOrder(c, u);
    var a, i, b := c.Before(), t.InOrder(), c.After();
    if d {
      assert a + (i + [n] + []) + b == (a + i) + [n] + b;
      SortedWithout(a + i, n, b);
    } else {
      assert a + ([] + [n] + i) + b == a + [n] + (i + b);
      SortedWithout(a, n, i + b);
      assert a + i + b == a + (i + b);
    }
  }

  lemma {:induction false} Leftmost(c: Context, e: Node, red: bool, x: Shape)
    requires LeftSpine(c)
    ensures c.Plug(Branch(Leaf, e, red, x)).InOrder() == [e] + c.Plug(x).InOrder()
  {
    LeftSpineBefore(c);
    PlugInOrder(c, Branch(Leaf, e, red, x));
    PlugInOrder(c, x);
    assert [] + ([] + [e] + x.InOrder()) + c.After() == [e] + ([] + x.InOrder() + c.After());
  }

  lemma SortedPromote(a: seq<Node>, i: seq<Node>, o: Node, e: Node, j: seq<Node>, b: seq<Node>)
    requires Sorted(a + (i + [o] + ([e] + j)) + b)
    ensures Sorted(a + (i + [e] + j) + b)
  {
    assert a + (i + [o] + ([e] + j)) + b == (a + i) + [o] + ([e] + j + b);
    assert a + (i + [e] + j) + b == (a + i) + ([e] + j + b);
    SortedWithout(a + i, o, [e] + j + b);
  }

  // So does replacing a node by its successor, taken out of the right subtree.
  lemma SuccessorOrder(c: Context, l: Shape, o: Node, red: bool, inner: Context, e: Node, ered: bool, x: Shape)
    requires LeftSpine(inner)
    requires Sorted(c.Plug(Branch(l, o, red, inner.Plug(Branch(Leaf, e, ered, x)))).InOrder())
    ensures Sorted(c.Plug(Branch(l, e, red, inner.Plug(x))).InOrder())
  {
    Leftmost(inner, e, ered, x);
    PlugInOrder(c, Branch(l, o, red, inner.Plug(Branch(Leaf, e, ered, x))));
    PlugInOrder(c, Branch(l, e, red, inner.Plug(x)));
    SortedPromote(c.Before(), l.InOrder(), o, e, inner.Plug(x).InOrder(), c.After());
  }

  lemma {:induction false} ComposeNodes(inner: Context, o: Context)
    requires o.Hole?
    ensures o.n in Compose(inner, o).Nodes()
  {
    if inner.Hole? {
      ComposeNodes(inner.up, o);
    }
  }

  lemma ComposeDistinct(inner: Context, o: Context)
    requires o.Hole? && inner.Hole? && Compose(inner, o).Distinct()
    ensures inner.n != o.n
  {
    ComposeNodes(inner.up, o);
  }
}
