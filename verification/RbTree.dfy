module RbTree {
  import opened RbShape
  import opened RbMemory

  class Tree {
    var root: Node?
    ghost var nodes: set<Node>
    ghost var shape: Shape

    ghost function Mem(): Mem
      reads this`nodes, nodes
    {
      map n | n in nodes :: Cell(n.left, n.right, n.parent, n.red)
    }

    // The nodes are linked as the tree c.Plug(t).
    ghost predicate Linked(c: Context, t: Shape)
      reads this`root, this`nodes, nodes
    {
      Focus(Mem(), c, t) && root == c.Plug(t).Root()
    }

    ghost predicate Valid()
      reads this, nodes
    {
      Linked(Top, shape) && Sorted(shape.InOrder()) && Balanced(shape)
    }

    constructor ()
      ensures Valid() && nodes == {} && shape == Leaf
    {
      root, nodes, shape := null, {}, Leaf;
      new;
      assert Coloured(Leaf, 0);
    }

    // RB_LEFT (d = false), RB_RIGHT (d = true), RB_PARENT and RB_COLOR, read and written.
    method Kid(x: Node, d: bool) returns (v: Node?)
      requires x in nodes
      ensures x in Mem() && v == Mem()[x].Kid(d)
    {
      v := if d then x.right else x.left;
    }

    method Parent(x: Node) returns (v: Node?)
      requires x in nodes
      ensures x in Mem() && v == Mem()[x].parent
    {
      v := x.parent;
    }

    method Red(x: Node) returns (v: bool)
      requires x in nodes
      ensures x in Mem() && v == Mem()[x].red
    {
      v := x.red;
    }

    method PutKid(x: Node, d: bool, v: Node?)
      requires x in nodes
      modifies x`left, x`right
      ensures Mem() == SetKid(old(Mem()), x, d, v)
    {
      if d {
        x.right := v;
      } else {
        x.left := v;
      }
    }

    method PutParent(x: Node, v: Node?)
      requires x in nodes
      modifies x`parent
      ensures Mem() == SetParent(old(Mem()), x, v)
    {
      x.parent := v;
    }

    method PutRed(x: Node, v: bool)
      requires x in nodes
      modifies x`red
      ensures x in old(Mem()) && Mem() == old(Mem())[x := old(Mem())[x].(red := v)]
    {
      x.red := v;
    }

    // RB_ROTATE_LEFT (d = false) and RB_ROTATE_RIGHT (d = true).
    method RotateAt(x: Node, d: bool, ghost top: Node, ghost mid: Node?, ghost above: Node?)
      requires x in nodes && top in nodes && mid in nodes + {null} && above in nodes + {null}
      requires x != top && x != mid && x != above && top != above
      requires x in Mem() && top in Mem() && Mem()[x].Kid(!d) == top && Mem()[top].Kid(d) == mid
        && Mem()[x].parent == above
      modifies `root, nodes`left, nodes`right, nodes`parent
      ensures Mem() == Rotate(old(Mem()), x, d)
      ensures root == if above == null then top else old(root)
    {
      hide Mem;
      ghost var m := Mem();
      var y := Kid(x, !d);
      var b := Kid(y, d);
      PutKid(x, !d, b);
      if b != null {
        PutParent(b, x);
      }
      assert Mem() == SetParent(SetKid(m, x, !d, mid), mid, x);
      var p := Parent(x);
      PutParent(y, p);
      if p != null {
        var l := Kid(p, false);
        PutKid(p, x != l, y);
      } else {
        root := y;
      }
      ghost var m2 := Mem();
      assert m2 == Redirect(SetParent(SetParent(SetKid(m, x, !d, mid), mid, x), y, above), above, x, y);
      PutKid(y, d, x);
      PutParent(x, y);
    }

    // ---- the same operations, in terms of the tree the nodes form ----

    // What the link fields around the focus hold.
    lemma Fields(c: Context, t: Shape)
      requires Linked(c, t)
      ensures c.Top? ==> root == t.Root()
      ensures t.Branch? ==>
        && t.n in nodes && t.n.left == t.l.Root() && t.n.right == t.r.Root()
        && t.n.parent == c.Parent() && t.n.red == t.red
      ensures c.Hole? ==>
        && c.n in nodes && c.n.Kid(c.d) == t.Root() && c.n.Kid(!c.d) == c.sib.Root()
        && c.n.parent == c.up.Parent() && c.n.red == c.red
        && (t.Branch? ==> (c.n.left != t.n) == c.d && c.n.Kid(!c.d) != t.n)
    {
      if c.Hole? && t.Branch? {
        ChildSide(Mem(), c, t.n);
      }
    }

    lemma Up(c: Context, t: Shape)
      requires c.Hole?
      ensures Linked(c, t) <==> Linked(c.up, Mk(c.d, t, c.n, c.red, c.sib))
    {
      FocusUp(Mem(), c, t);
    }

    lemma Whole(c: Context, t: Shape)
      ensures Linked(c, t) <==> Linked(Top, c.Plug(t))
    {
      FocusTop(Mem(), c, t);
    }

    method Paint(n: Node, red: bool, ghost c: Context, ghost t: Shape)
      requires Linked(c, t) && t.Branch? && t.n == n
      modifies n`red
      ensures Linked(c, t.(red := red))
    {
      assert n in nodes;
      FocusRecolour(Mem(), c, t, red);
      if c.Hole? {
        PlugRoot(c, t, t.(red := red));
      }
      PutRed(n, red);
    }

    method Turn(x: Node, d: bool, ghost c: Context, ghost rx: bool, ghost a: Shape, ghost y: Node, ghost ry: bool,
      ghost b: Shape, ghost r: Shape)
      requires Linked(c, Mk(d, a, x, rx, Mk(d, b, y, ry, r)))
      modifies `root, nodes`left, nodes`right, nodes`parent
      ensures Linked(c, Mk(d, Mk(d, a, x, rx, b), y, ry, r))
    {
      ghost var t, t' := Mk(d, a, x, rx, Mk(d, b, y, ry, r)), Mk(d, Mk(d, a, x, rx, b), y, ry, r);
      RotateApart(Mem(), c, d, x, rx, a, y, ry, b, r);
      FocusRotate(Mem(), c, d, x, rx, a, y, ry, b, r);
      if c.Hole? {
        PlugRoot(c, t, t');
      }
      RotateAt(x, d, y, b.Root(), c.Parent());
    }

    // The branch of RB_INSERT_COLOR for a red uncle.
    method PushRedUp(e: Node, parent: Node, g: Node, uncle: Node, ghost c: Context, ghost t: Shape)
      requires c.Hole? && c.up.Hole? && c.up.sib.Branch?
      requires parent == c.n && g == c.up.n && uncle == c.up.sib.n
      requires Linked(c, t)
      modifies nodes`red
      ensures var p := Mk(c.d, t, parent, false, c.sib);
        Linked(c.up.up, Mk(c.up.d, p, g, true, c.up.sib.(red := false)))
    {
      hide Linked;
      ghost var gc, u := c.up, c.up.sib;
      ghost var p, p' := Mk(c.d, t, parent, c.red, c.sib), Mk(c.d, t, parent, false, c.sib);
      Up(c, t);
      Up(gc, p);
      ghost var uc := Hole(!gc.d, gc.up, g, gc.red, p);
      Up(uc, u);
      Fields(uc, u);
      Paint(uncle, false, uc, u);
      Up(uc, u.(red := false));
      Up(gc.(sib := u.(red := false)), p);
      Fields(gc.(sib := u.(red := false)), p);
      Paint(parent, false, gc.(sib := u.(red := false)), p);
      Up(gc.(sib := u.(red := false)), p');
      Fields(gc.up, Mk(gc.d, p', g, gc.red, u.(red := false)));
      Paint(g, true, gc.up, Mk(gc.d, p', g, gc.red, u.(red := false)));
    }

    // The rotation of RB_INSERT_COLOR that turns an inner grandchild into an outer one.
    method TurnInner(e: Node, parent: Node, d: bool, ghost c: Context, ghost t: Shape)
      returns (ghost c': Context, ghost t': Shape)
      requires c.Hole? && c.up.Hole? && c.up.d == d && c.d != d && t.Branch?
      requires e == t.n && parent == c.n && Linked(c, t)
      modifies `root, nodes`left, nodes`right, nodes`parent
      ensures
        && t' == Mk(d, c.sib, parent, c.red, t.Sub(d))
        && c' == Hole(d, c.up, e, t.red, t.Sub(!d))
        && Linked(c', t') && c'.Plug(t').InOrder() == c.Plug(t).InOrder()
    {
      hide Linked;
      ghost var a, b, r := c.sib, t.Sub(d), t.Sub(!d);
      Up(c, t);
      assert t == Mk(d, b, e, t.red, r);
      Turn(parent, d, c.up, c.red, a, e, t.red, b, r);
      t', c' := Mk(d, a, parent, c.red, b), Hole(d, c.up, e, t.red, r);
      Up(c', t');
      TurnInOrder(d, a, parent, c.red, b, e, t.red, r);
      SameInOrder(c.up, Mk(c.d, t, c.n, c.red, c.sib), Mk(d, t', e, t.red, r));
    }

    // The last rotation of RB_INSERT_COLOR: parent black, grandparent red and below it.
    method TurnOuter(parent: Node, g: Node, d: bool, ghost c: Context, ghost t: Shape) returns (ghost c': Context)
      requires c.Hole? && c.up.Hole? && d != c.d == c.up.d
      requires parent == c.n && g == c.up.n && Linked(c, t)
      modifies `root, nodes`left, nodes`right, nodes`parent, nodes`red
      ensures c' == Hole(c.d, c.up.up, parent, false, Mk(d, c.up.sib, g, true, c.sib))
      ensures Linked(c', t) && c'.Plug(t).InOrder() == c.Plug(t).InOrder()
    {
      hide Linked;
      ghost var u := c.up.sib;
      ghost var p, p' := Mk(c.d, t, parent, c.red, c.sib), Mk(c.d, t, parent, false, c.sib);
      Fields(c, t);
      Up(c, t);
      Fields(c.up, p);
      Paint(parent, false, c.up, p);
      Up(c.up, p');
      Paint(g, true, c.up.up, Mk(c.d, p', g, c.up.red, u));
      assert Mk(c.d, p', g, true, u) == Mk(d, u, g, true, Mk(d, c.sib, parent, false, t));
      Turn(g, d, c.up.up, true, u, parent, false, c.sib, t);
      c' := Hole(c.d, c.up.up, parent, false, Mk(d, u, g, true, c.sib));
      Up(c', t);
      TurnInOrder(d, u, g, true, c.sib, parent, false, t);
      SameInOrder(c.up.up, Mk(c.d, p, g, c.up.red, u), Mk(d, Mk(d, u, g, true, c.sib), parent, false, t));
    }

    // One pass of the loop of RB_INSERT_COLOR: e and its parent are both red.
    method FixRedParent(e: Node, parent: Node, ghost c: Context, ghost t: Shape, ghost h: int)
      returns (e': Node, ghost c': Context, ghost t': Shape, ghost h': int)
      requires Linked(c, t) && t.Red() && t.n == e && Coloured(t, h) && Fits(c, h)
      requires c.Red() && c.n == parent
      modifies `root, nodes`left, nodes`right, nodes`parent, nodes`red
      ensures Linked(c', t') && t'.Red() && t'.n == e' && Coloured(t', h') && Fits(c', h')
      ensures c'.Plug(t').InOrder() == c.Plug(t).InOrder() && c'.Depth() < c.Depth()
    {
      hide Linked;
      ghost var gc, p := c.up, Mk(c.d, t, c.n, true, c.sib);
      Fields(c, t);
      var g := parent.parent;
      Up(c, t);
      Fields(gc, p);
      var d := parent != g.left;
      var uncle := g.Kid(!d);
      Up(gc, p);
      ghost var uc := Hole(!gc.d, gc.up, g, gc.red, p);
      Up(uc, gc.sib);
      Fields(uc, gc.sib);
      if uncle != null && uncle.red {
        PushRedUp(e, parent, g, uncle, c, t);
        e', c', h' := g, gc.up, h + 1;
        t' := Mk(d, Mk(c.d, t, parent, false, c.sib), g, true, gc.sib.(red := false));
        SameInOrder(c', Mk(d, p, g, false, gc.sib), t');
      } else {
        e', c', t', h' := e, c, t, h;
        if parent.Kid(!d) == e {
          c', t' := TurnInner(e, parent, d, c, t);
          e' := parent;
        }
        c' := TurnOuter(if e' == e then parent else e, g, !d, c', t');
      }
    }

    // RB_INSERT_COLOR: e is a new red node; the rules hold except that its parent may be red too.
    method InsertColour(elm: Node, ghost c0: Context, ghost t0: Shape, ghost h0: int) returns (ghost T: Shape)
      requires Linked(c0, t0) && t0.Red() && t0.n == elm && Coloured(t0, h0) && Fits(c0, h0)
      modifies `root, nodes`left, nodes`right, nodes`parent, nodes`red
      ensures Linked(Top, T) && Balanced(T) && T.InOrder() == c0.Plug(t0).InOrder()
    {
      hide Linked;
      var e := elm;
      ghost var c, t, h := c0, t0, h0;
      while true
        invariant Linked(c, t) && t.Red() && t.n == e && Coloured(t, h) && Fits(c, h)
        invariant c.Plug(t).InOrder() == c0.Plug(t0).InOrder()
        decreases c.Depth()
      {
        Fields(c, t);
        var parent := e.parent;
        if parent == null || !parent.red {
          break;
        }
        e, c, t, h := FixRedParent(e, parent, c, t, h);
      }
      Whole(c, t);
      T := c.Plug(t);
      PlugInOrder(c, t);
      if c.Hole? {
        h := PlugColoured(c, t, h);
      } else {
        h := h + 1;
      }
      Fields(Top, T);
      Paint(root, false, Top, T);
      T := T.(red := false);
      assert Coloured(T, h);
    }

    // RB_SET: the fields of a node entering the tree.
    method Enter(elm: Node, parent: Node?)
      requires elm !in nodes
      modifies `nodes, elm
      ensures nodes == old(nodes) + {elm}
      ensures elm !in old(Mem()) && Mem() == old(Mem())[elm := Cell(null, null, parent, true)]
    {
      elm.parent, elm.left, elm.right, elm.red := parent, null, null, true;
      nodes := nodes + {elm};
    }

    // The lines of RB_INSERT that hang the new node below parent, on side d.
    method Link(elm: Node, parent: Node?, d: bool, ghost c: Context)
      requires Linked(c, Leaf) && parent == c.Parent() && (c.Hole? ==> c.d == d) && elm !in nodes
      modifies this, elm, nodes`left, nodes`right
      ensures nodes == old(nodes) + {elm} && shape == old(shape)
      ensures Linked(c, Branch(Leaf, elm, true, Leaf))
    {
      FocusLink(Mem(), c, d, elm);
      if c.Hole? {
        PlugRoot(c, Leaf, Branch(Leaf, elm, true, Leaf));
        assert parent in nodes;
      }
      Enter(elm, parent);
      if parent != null {
        PutKid(parent, d, elm);
      } else {
        root := elm;
      }
    }

    // The loop shared by RB_FIND and RB_INSERT: the node with key k, or the empty
    // link (side d of parent) where a node with key k belongs.
    method Search(k: int) returns (found: Node?, parent: Node?, d: bool, ghost c: Context, ghost h: int)
      requires Valid()
      ensures found != null ==> found in nodes && found.key == k
      ensures found == null ==>
        && Linked(c, Leaf) && c.Plug(Leaf) == shape && Around(c.Before(), k, c.After())
        && parent == c.Parent() && (c.Hole? ==> c.d == d)
        && h == 0 && Fits(c, 0)
    {
      hide Linked;
      parent, d := null, false;
      var tmp := root;
      ghost var t;
      c, t := Top, shape;
      h :| Coloured(shape, h);
      Fields(c, t);
      while true
        invariant Linked(c, t) && tmp == t.Root() && parent == c.Parent()
        invariant c.Plug(t) == shape && Around(c.Before(), k, c.After())
        invariant Coloured(t, h) && Fits(c, h) && (t.Red() ==> c.Hole? && !c.Red())
        invariant c.Hole? ==> c.d == d
        decreases t
      {
        if tmp == null {
          return null, parent, d, c, h;
        }
        Fields(c, t);
        parent := tmp;
        if k == tmp.key {
          return tmp, parent, d, c, h;
        }
        d := tmp.key < k;
        h := SearchStep(c, t, d, k, h);
        c, t := Hole(d, c, t.n, t.red, t.Sub(!d)), t.Sub(d);
        Up(c, t);
        tmp := parent.Kid(d);
      }
    }

    lemma Members(t: Shape)
      requires Linked(Top, t)
      ensures nodes == t.Nodes()
    {
      assert Mem().Keys == nodes;
    }

    // RB_FIND
    method Find(k: int) returns (found: Node?)
      requires Valid()
      ensures found != null ==> found in nodes && found.key == k
      ensures found == null ==> forall n :: n in nodes ==> n.key != k
    {
      var parent, d;
      ghost var c, h;
      found, parent, d, c, h := Search(k);
      if found == null {
        Absent(c, k);
      }
    }

    // A search that ends at an empty link has passed every key.
    lemma Absent(c: Context, k: int)
      requires Valid() && c.Plug(Leaf) == shape && Around(c.Before(), k, c.After())
      ensures forall n :: n in nodes ==> n.key != k
    {
      Members(shape);
      InOrderNodes(shape);
      PlugInOrder(c, Leaf);
    }

    // RB_INSERT
    method Insert(elm: Node) returns (found: Node?)
      requires Valid()
      modifies this, nodes, elm
      ensures Valid()
      ensures found != null ==>
        && found in old(nodes) && found.key == elm.key
        && nodes == old(nodes) && shape == old(shape) && unchanged(nodes) && unchanged(elm)
      ensures found == null ==>
        && nodes == old(nodes) + {elm}
        && (forall n :: n in old(nodes) ==> n.key != elm.key)
    {
      hide Linked, Shape.InOrder, Context.Before, Context.After, Sorted, Around, Fits, Context.Plug;
      var parent, d;
      ghost var c, h;
      found, parent, d, c, h := Search(elm.key);
      if found != null {
        return;
      }
      Absent(c, elm.key);
      Members(shape);
      InsertSpot(c, elm);
      Link(elm, parent, d, c);
      shape := InsertColour(elm, c, Branch(Leaf, elm, true, Leaf), 0);
    }

    // ---- removal ----

    // The focus moved to the sibling; the sibling's fields and its children's colours.
    lemma Sibling(c: Context, t: Shape)
      requires c.Hole?
      ensures Linked(c, t) <==> Linked(Hole(!c.d, c.up, c.n, c.red, t), c.sib)
    {
      Up(c, t);
      Up(Hole(!c.d, c.up, c.n, c.red, t), c.sib);
    }

    lemma Children(c: Context, t: Shape)
      requires Linked(c, t) && t.Branch?
      ensures t.l.Branch? ==> t.l.n in nodes && t.l.n.red == t.l.red
      ensures t.r.Branch? ==> t.r.n in nodes && t.r.n.red == t.r.red
    {
      Up(Hole(false, c, t.n, t.red, t.r), t.l);
      Up(Hole(true, c, t.n, t.red, t.l), t.r);
      Fields(Hole(false, c, t.n, t.red, t.r), t.l);
      Fields(Hole(true, c, t.n, t.red, t.l), t.r);
    }

    // RB_REMOVE_COLOR, red sibling: it becomes the grandparent.
    method TurnRedSibling(parent: Node, d: bool, tmp: Node, ghost c: Context, ghost t: Shape, ghost h: int)
      returns (ghost c': Context)
      requires Linked(c, t) && c.Hole? && c.n == parent && c.d == d && c.sib.Red() && c.sib.n == tmp
      requires Fits(c, h + 1)
      modifies `root, nodes`left, nodes`right, nodes`parent, nodes`red
      ensures Linked(c', t) && c'.Plug(t).InOrder() == c.Plug(t).InOrder()
      ensures c' == Hole(d, Hole(d, c.up, tmp, false, c.sib.Sub(!d)), parent, true, c.sib.Sub(d))
      ensures Fits(c', h + 1)
    {
      hide Linked;
      ghost var b, r := c.sib.Sub(d), c.sib.Sub(!d);
      ghost var sc, s := Hole(!d, c.up, parent, c.red, t), c.sib.(red := false);
      Sibling(c, t);
      Fields(sc, c.sib);
      Paint(tmp, false, sc, c.sib);
      Up(sc, s);
      Fields(c.up, Mk(d, t, parent, c.red, s));
      Paint(parent, true, c.up, Mk(d, t, parent, c.red, s));
      assert Mk(d, t, parent, true, s) == Mk(d, t, parent, true, Mk(d, b, tmp, false, r));
      Turn(parent, d, c.up, true, t, tmp, false, b, r);
      c' := Hole(d, Hole(d, c.up, tmp, false, r), parent, true, b);
      Up(c', t);
      Up(c'.up, Mk(d, t, parent, true, b));
      TurnInOrder(d, t, parent, true, b, tmp, false, r);
      SameInOrder(c.up, Mk(d, t, parent, c.red, c.sib), Mk(d, Mk(d, t, parent, true, b), tmp, false, r));
    }

    // RB_REMOVE_COLOR, black sibling whose far child is black: its near child becomes the sibling.
    method TurnNearNephew(tmp: Node, d: bool, ghost c: Context, ghost t: Shape, ghost h: int)
      returns (ghost c': Context)
      requires Linked(c, t) && c.Hole? && c.d == d && c.sib.Branch? && c.sib.n == tmp && !c.sib.red
      requires c.sib.Sub(d).Red() && !c.sib.Sub(!d).Red() && Fits(c, h + 1)
      modifies `root, nodes`left, nodes`right, nodes`parent, nodes`red
      ensures Linked(c', t) && c'.Plug(t).InOrder() == c.Plug(t).InOrder() && Fits(c', h + 1)
      ensures c'.Hole? && c' == c.(sib := c'.sib) && c'.sib.Branch? && !c'.sib.red && c'.sib.Sub(!d).Red()
    {
      hide Linked, Fits;
      ghost var near, far := c.sib.Sub(d), c.sib.Sub(!d);
      ghost var b, r := near.Sub(!d), near.Sub(d);
      ghost var sc := Hole(!d, c.up, c.n, c.red, t);
      ghost var nc := Hole(d, sc, tmp, false, far);
      Sibling(c, t);
      assert c.sib == Mk(d, near, tmp, false, far);
      Up(nc, near);
      Fields(nc, near);
      Fields(sc, c.sib);
      var oleft := tmp.Kid(d);
      if oleft != null {
        Paint(oleft, false, nc, near);
      }
      Up(nc, near.(red := false));
      Fields(sc, Mk(d, near.(red := false), tmp, false, far));
      Paint(tmp, true, sc, Mk(d, near.(red := false), tmp, false, far));
      assert Mk(d, near.(red := false), tmp, true, far) == Mk(!d, far, tmp, true, Mk(!d, b, near.n, false, r));
      Turn(tmp, !d, sc, true, far, near.n, false, b, r);
      ghost var s' := Mk(!d, Mk(!d, far, tmp, true, b), near.n, false, r);
      c' := c.(sib := s');
      Sibling(c', t);
      NearNephew(c, d, tmp, near, far, h);
      SameInOrder(sc, c.sib, s');
      assert sc.Plug(c.sib) == c.Plug(t) && sc.Plug(s') == c'.Plug(t);
    }

    // RB_REMOVE_COLOR, red far nephew: the rotation that ends the loop.
    method TurnFarNephew(parent: Node, tmp: Node, d: bool, ghost c: Context, ghost t: Shape, ghost h: int)
      returns (ghost T: Shape)
      requires Linked(c, t) && c.Hole? && c.n == parent && c.d == d && c.sib.Branch? && c.sib.n == tmp && !c.sib.red
      requires c.sib.Sub(!d).Red() && Coloured(t, h) && Fits(c, h + 1)
      modifies `root, nodes`left, nodes`right, nodes`parent, nodes`red
      ensures Linked(Top, T) && Balanced(T) && T.InOrder() == c.Plug(t).InOrder()
    {
      hide Linked, Fits, Coloured, Shape.InOrder, Context.Plug;
      ghost var near, far := c.sib.Sub(d), c.sib.Sub(!d);
      ghost var sc := Hole(!d, c.up, parent, c.red, t);
      Fields(c, t);
      Sibling(c, t);
      Fields(sc, c.sib);
      assert c.sib == Mk(!d, far, tmp, false, near);
      Paint(tmp, parent.red, sc, c.sib);
      ghost var s := c.sib.(red := c.red);
      Up(sc, s);
      Paint(parent, false, c.up, Mk(d, t, parent, c.red, s));
      ghost var sc', fc := sc.(red := false), Hole(!d, sc.(red := false), tmp, c.red, near);
      Up(sc', s);
      Up(fc, far);
      Fields(sc', s);
      Fields(fc, far);
      var f := tmp.Kid(!d);
      if f != null {
        Paint(f, false, fc, far);
      }
      Up(fc, far.(red := false));
      Up(sc', Mk(!d, far.(red := false), tmp, c.red, near));
      assert Mk(!d, Mk(!d, far.(red := false), tmp, c.red, near), parent, false, t)
          == Mk(d, t, parent, false, Mk(d, near, tmp, c.red, far.(red := false)));
      Turn(parent, d, c.up, false, t, tmp, c.red, near, far.(red := false));
      ghost var u := Mk(d, Mk(d, t, parent, false, near), tmp, c.red, far.(red := false));
      Whole(c.up, u);
      T := c.up.Plug(u);
      ghost var H := FarNephew(c, t, tmp, near, far, h);
      H := PlugColoured(c.up, u, H);
    }

    lemma RootAbove(c: Context, t: Shape)
      requires Linked(c, t) && c.Hole?
      ensures root != null && root != t.Root()
    {
      Fields(c, t);
      Whole(c, t);
      Fields(Top, c.Plug(t));
      PlugInOrder(c, t);
    }

    // RB_REMOVE_COLOR, black sibling with black children: the sibling turns red.
    method PaintSibling(tmp: Node, ghost c: Context, ghost t: Shape, ghost h: int) returns (ghost t': Shape)
      requires Linked(c, t) && c.Hole? && c.sib.Branch? && c.sib.n == tmp && !c.sib.red
      requires !c.sib.l.Red() && !c.sib.r.Red() && !t.Red() && Coloured(t, h) && Fits(c, h + 1)
      modifies nodes`red
      ensures t' == Mk(c.d, t, c.n, c.red, c.sib.(red := true))
      ensures Linked(c.up, t') && c.up.Plug(t').InOrder() == c.Plug(t).InOrder()
      ensures Short(t', h + if c.red then 0 else 1) && Fits(c.up, h + if c.red then 1 else 2)
    {
      hide Linked;
      ghost var sc := Hole(!c.d, c.up, c.n, c.red, t);
      Sibling(c, t);
      Fields(sc, c.sib);
      Paint(tmp, true, sc, c.sib);
      Up(sc, c.sib.(red := true));
      t' := Mk(c.d, t, c.n, c.red, c.sib.(red := true));
      assert c.sib.(red := true).InOrder() == c.sib.InOrder();
      SameInOrder(c.up, Mk(c.d, t, c.n, c.red, c.sib), t');
      assert Coloured(c.sib, h + 1) && Coloured(c.sib.(red := true), h);
      assert t'.(red := false) == Mk(c.d, t, c.n, false, c.sib.(red := true));
      assert Coloured(t'.(red := false), h + 1);
    }

    // One pass of the loop of RB_REMOVE_COLOR. The sibling is never null.
    method FixShort(elm: Node?, parent: Node, ghost c: Context, ghost t: Shape, ghost h: int)
      returns (done: bool, parent': Node?, ghost c': Context, ghost t': Shape, ghost h': int)
      requires Linked(c, t) && t.Root() == elm && c.Hole? && c.n == parent
      requires !t.Red() && Coloured(t, h) && Fits(c, h + 1)
      modifies `root, nodes`left, nodes`right, nodes`parent, nodes`red
      ensures c'.Plug(t').InOrder() == c.Plug(t).InOrder() && Linked(c', t')
      ensures done ==> c' == Top && Balanced(t')
      ensures !done ==>
        && t'.Root() == parent && parent' == c'.Parent() && Short(t', h') && Fits(c', h' + 1)
        && (t'.Red() || c'.Depth() < c.Depth())
    {
      hide Linked;
      Fields(c, t);
      Sibling(c, t);
      ColouredHeight(t, h);
      Fields(Hole(!c.d, c.up, parent, c.red, t), c.sib);
      var d := parent.left != elm;
      var tmp := parent.Kid(!d);
      c' := c;
      if tmp.red {
        c' := TurnRedSibling(parent, d, tmp, c, t, h);
        Fields(c', t);
        tmp := parent.Kid(!d);
      }
      ghost var sc := Hole(!d, c'.up, parent, c'.red, t);
      Sibling(c', t);
      Fields(sc, c'.sib);
      Children(sc, c'.sib);
      if (tmp.left == null || !tmp.left.red) && (tmp.right == null || !tmp.right.red) {
        t' := PaintSibling(tmp, c', t, h);
        h' := h + if c'.red then 0 else 1;
        c' := c'.up;
        Fields(c', t');
        return false, parent.parent, c', t', h';
      }
      if tmp.Kid(!d) == null || !tmp.Kid(!d).red {
        c' := TurnNearNephew(tmp, d, c', t, h);
        Fields(c', t);
        tmp := parent.Kid(!d);
      }
      t' := TurnFarNephew(parent, tmp, d, c', t, h);
      return true, null, Top, t', 0;
    }

    // RB_REMOVE_COLOR: a black node is missing above elm, which may be null.
    method RemoveColour(parent0: Node?, elm0: Node?, ghost c0: Context, ghost t0: Shape, ghost h0: int)
      returns (ghost T: Shape)
      requires Linked(c0, t0) && t0.Root() == elm0 && parent0 == c0.Parent()
      requires Short(t0, h0) && Fits(c0, h0 + 1)
      modifies `root, nodes`left, nodes`right, nodes`parent, nodes`red
      ensures Linked(Top, T) && Balanced(T) && T.InOrder() == c0.Plug(t0).InOrder()
    {
      hide Linked;
      var parent, elm := parent0, elm0;
      ghost var c, t, h := c0, t0, h0;
      while true
        invariant Linked(c, t) && t.Root() == elm && parent == c.Parent()
        invariant Short(t, h) && Fits(c, h + 1)
        invariant c.Plug(t).InOrder() == c0.Plug(t0).InOrder()
        decreases !t.Red(), c.Depth()
      {
        Fields(c, t);
        if (elm != null && elm.red) || elm == root {
          break;
        }
        var done, parent';
        ghost var c', t', h';
        done, parent', c', t', h' := FixShort(elm, parent, c, t, h);
        if done {
          T := t';
          return;
        }
        elm, parent, c, t, h := parent, parent', c', t', h';
      }
      if c.Hole? {
        RootAbove(c, t);
      }
      if elm != null {
        Paint(elm, false, c, t);
      }
      ghost var u := if t.Branch? then t.(red := false) else t;
      Whole(c, u);
      T := c.Plug(u);
      assert u.InOrder() == t.InOrder();
      SameInOrder(c, t, u);
      ghost var H := if t.Red() then h + 1 else h;
      assert Coloured(u, H);
      if c.Hole? {
        H := PlugColoured(c, u, H);
      }
    }

    method Bypass(n: Node, child: Node?, parent: Node?)
      requires child in nodes + {null} && parent in nodes + {null} && child != n
      modifies `root, nodes`left, nodes`right, nodes`parent
      ensures Mem() == Redirect(SetParent(old(Mem()), child, parent), parent, n, child)
      ensures n.parent == old(n.parent)
      ensures root == if parent == null then child else old(root)
    {
      if child != null {
        PutParent(child, parent);
      }
      assert Mem() == SetParent(old(Mem()), child, parent);
      if parent != null {
        PutKid(parent, parent.left != n, child);
      } else {
        root := child;
      }
    }

    ghost method Leave(n: Node)
      modifies `nodes
      ensures nodes == old(nodes) - {n} && Mem() == old(Mem()) - {n}
    {
      nodes := nodes - {n};
    }

    // The lines of RB_REMOVE that put child in the place of n, which has no other child.
    method Splice(n: Node, child: Node?, ghost c: Context, ghost d: bool, ghost red: bool, ghost t: Shape)
      requires Linked(c, Mk(d, Leaf, n, red, t)) && child == t.Root()
      modifies `root, `nodes, nodes`left, nodes`right, nodes`parent
      ensures Linked(c, t) && nodes == old(nodes) - {n}
      ensures n.parent == old(n.parent) && n.red == old(n.red)
    {
      ghost var m := Mem();
      FocusUnlink(m, c, d, n, red, t);
      Fields(c, Mk(d, Leaf, n, red, t));
      if c.Hole? {
        PlugRoot(c, Mk(d, Leaf, n, red, t), t);
      }
      assert t.Branch? ==> t.n in nodes;
      hide Focus, Mem, Context.Plug;
      Bypass(n, child, n.parent);
      Leave(n);
    }

    // The lines of RB_REMOVE that give e, already out of the tree, the place and the fields of o.
    method CopyFields(o: Node, e: Node)
      requires o in nodes && e !in nodes
      modifies `nodes, e
      ensures nodes == old(nodes) + {e}
      ensures e !in old(Mem()) && o in old(Mem()) && Mem() == old(Mem())[e := old(Mem())[o]]
      ensures e.left == old(o.left) && e.right == old(o.right) && e.parent == old(o.parent)
    {
      e.left, e.right, e.parent, e.red := o.left, o.right, o.parent, o.red;
      nodes := nodes + {e};
    }

    method TakePlace(o: Node, e: Node, l: Node, r: Node?, p: Node?)
      requires o in nodes && e !in nodes && l == o.left && r == o.right && p == o.parent
      requires l in nodes - {o} && r in nodes - {o} + {null} && p in nodes - {o} + {null}
      modifies `root, `nodes, e, nodes`left, nodes`right, nodes`parent
      ensures nodes == old(nodes) - {o} + {e}
      ensures o in old(Mem()) && Mem() == Replace(old(Mem()), o, e)
      ensures root == if p == null then e else old(root)
    {
      ghost var m := Mem();
      assert m[o].left == l && m[o].right == r && m[o].parent == p;
      hide Mem;
      CopyFields(o, e);
      if p != null {
        PutKid(p, p.left != o, e);
      } else {
        root := e;
      }
      assert Mem() == Redirect(m[e := m[o]], p, o, e);
      PutParent(l, e);
      if r != null {
        PutParent(r, e);
      }
      Leave(o);
    }

    method Supplant(o: Node, e: Node, ghost c: Context, ghost l: Shape, ghost red: bool, ghost r: Shape)
      requires Linked(c, Branch(l, o, red, r)) && l.Branch? && e !in nodes
      modifies `root, `nodes, e, nodes`left, nodes`right, nodes`parent
      ensures Linked(c, Branch(l, e, red, r)) && nodes == old(nodes) - {o} + {e}
    {
      ReplaceApart(Mem(), c, o, red, l, r, e);
      FocusReplace(Mem(), c, o, red, l, r, e);
      Fields(c, Branch(l, o, red, r));
      if c.Hole? {
        PlugRoot(c, Branch(l, o, red, r), Branch(l, e, red, r));
      }
      assert Mem().Keys == nodes;
      hide Focus, Mem, Context.Plug, Replace;
      TakePlace(o, e, o.left, o.right, o.parent);
    }

    // What is left to do once a node is out of the tree: nothing, or RB_REMOVE_COLOR.
    method Repair(red: bool, parent: Node?, child: Node?, ghost c: Context, ghost t: Shape, ghost h: int)
      returns (ghost T: Shape)
      requires Linked(c, t) && t.Root() == child && parent == c.Parent()
      requires if red then Coloured(t, h) && Fits(c, h) && !t.Red() else Short(t, h - 1) && Fits(c, h)
      modifies `root, nodes`left, nodes`right, nodes`parent, nodes`red
      ensures Linked(Top, T) && Balanced(T) && T.InOrder() == c.Plug(t).InOrder()
    {
      hide Linked;
      if !red {
        T := RemoveColour(parent, child, c, t, h - 1);
      } else {
        Whole(c, t);
        T := c.Plug(t);
        ghost var H := PlugColoured(c, t, h);
      }
    }

    // RB_REMOVE of a node with at most one child.
    method RemoveShallow(elm: Node, child: Node?, ghost c: Context, ghost d: bool, ghost red: bool, ghost t: Shape,
      ghost h: int)
      requires Linked(c, Mk(d, Leaf, elm, red, t)) && child == t.Root()
      requires Coloured(Mk(d, Leaf, elm, red, t), h) && Fits(c, h) && Sorted(c.Plug(Mk(d, Leaf, elm, red, t)).InOrder())
      modifies this, nodes
      ensures Valid() && nodes == old(nodes) - {elm}
    {
      hide Linked, Context.Plug, Shape.InOrder, Sorted;
      Fields(c, Mk(d, Leaf, elm, red, t));
      SpliceOrder(c, d, elm, red, t);
      var parent, color := elm.parent, elm.red;
      Splice(elm, child, c, d, red, t);
      shape := Repair(color, parent, child, c, t, h);
    }

    lemma {:induction false} Composed(inner: Context, o: Context, t: Shape)
      ensures Linked(Compose(inner, o), t) <==> Linked(o, inner.Plug(t))
      decreases inner
    {
      if inner.Hole? {
        Up(Compose(inner, o), t);
        Composed(inner.up, o, Mk(inner.d, t, inner.n, inner.red, inner.sib));
      }
    }

    // The walk of RB_REMOVE to the leftmost node of the right subtree.
    method Successor(n0: Node, ghost c: Context, ghost s: Shape, ghost h0: int)
      returns (e: Node, ghost inner: Context, ghost x: Shape, ghost h: int)
      requires Linked(c, s) && s.Branch? && s.n == n0 && s.r.Branch?
      requires Coloured(s, h0) && Fits(c, h0) && (s.Red() ==> c.Hole? && !c.Red())
      ensures var o, t := Hole(true, c, n0, s.red, s.l), Branch(Leaf, e, e.red, x);
        && Linked(Compose(inner, o), t) && LeftSpine(inner) && inner.Plug(t) == s.r
        && Coloured(t, h) && Fits(Compose(inner, o), h)
    {
      hide Linked;
      ghost var o, t := Hole(true, c, n0, s.red, s.l), s.r;
      inner, h := Top, if s.red then h0 else h0 - 1;
      Fields(c, s);
      Up(o, t);
      e := n0.right;
      var go := true;
      while go
        invariant Linked(Compose(inner, o), t) && t.Branch? && t.n == e && LeftSpine(inner) && inner.Plug(t) == s.r
        invariant Coloured(t, h) && Fits(Compose(inner, o), h) && (t.Red() ==> !Compose(inner, o).Red())
        invariant !go ==> t.l == Leaf
        decreases t, go
      {
        ghost var f := Compose(inner, o);
        Fields(f, t);
        var left := e.left;
        if left == null {
          go := false;
        } else {
          Up(Hole(false, f, e, t.red, t.r), t.l);
          h := if t.red then h else h - 1;
          inner, t := Hole(false, inner, e, t.red, t.r), t.l;
          e := left;
        }
      }
      Fields(Compose(inner, o), t);
      x := t.r;
    }

    lemma OnPath(f: Context, t: Shape, n: Node)
      requires Linked(f, t) && n in f.Nodes()
      ensures n in nodes && n !in t.Nodes() && f.Distinct()
    {
      assert Mem().Keys == nodes;
    }

    lemma InnerFrame(inner: Context, o: Context, t: Shape)
      requires o.Hole? && Linked(Compose(inner, o), t)
      ensures inner.Hole? ==> inner.n != o.n
      ensures o.n in nodes && o.n !in t.Nodes()
    {
      hide Linked, Shape.Nodes, Context.Nodes, Context.Distinct, Compose;
      ComposeNodes(inner, o);
      OnPath(Compose(inner, o), t, o.n);
      if inner.Hole? {
        ComposeDistinct(inner, o);
      }
    }

    // RB_REMOVE of a node with two children.
    method RemoveDeep(elm: Node, ghost c: Context, ghost s: Shape, ghost h0: int)
      requires Linked(c, s) && s.Branch? && s.n == elm && s.l.Branch? && s.r.Branch?
      requires Coloured(s, h0) && Fits(c, h0) && (s.Red() ==> c.Hole? && !c.Red()) && Sorted(c.Plug(s).InOrder())
      modifies this, nodes
      ensures Valid() && nodes == old(nodes) - {elm}
    {
      hide Linked, Shape.InOrder, Sorted;
      var e;
      ghost var inner, x, h;
      e, inner, x, h := Successor(elm, c, s, h0);
      ghost var ered := e.red;
      ghost var o, o' := Hole(true, c, elm, s.red, s.l), Hole(true, c, e, s.red, s.l);
      ghost var f, f' := Compose(inner, o), Compose(inner, o');
      Fields(f, Branch(Leaf, e, ered, x));
      InnerFrame(inner, o, Branch(Leaf, e, ered, x));
      var child, parent, color := e.right, e.parent, e.red;
      Splice(e, child, f, false, color, x);
      if e.parent == elm {
        parent := e;
      }
      Composed(inner, o, x);
      Up(o, inner.Plug(x));
      Supplant(elm, e, c, s.l, s.red, inner.Plug(x));
      Up(o', inner.Plug(x));
      Composed(inner, o', x);
      FitsRenamed(inner, o, o', h);
      PlugCompose(inner, o', x);
      SuccessorOrder(c, s.l, elm, s.red, inner, e, ered, x);
      shape := Repair(color, parent, child, f', x, h);
    }

    // RB_REMOVE
    method Remove(elm: Node) returns (removed: Node)
      requires Valid() && elm in nodes
      modifies this, nodes
      ensures Valid() && nodes == old(nodes) - {elm} && removed == elm
    {
      Members(shape);
      ghost var h: int :| Coloured(shape, h);
      ghost var c, s;
      c, s, h := Locate(Top, shape, h, elm);
      Whole(c, s);
      Fields(c, s);
      hide Linked, Context.Plug, Shape.InOrder, Sorted;
      if elm.left == null {
        assert s == Mk(false, Leaf, elm, s.red, s.r);
        RemoveShallow(elm, elm.right, c, false, s.red, s.r, h);
      } else if elm.right == null {
        assert s == Mk(true, Leaf, elm, s.red, s.l);
        RemoveShallow(elm, elm.left, c, true, s.red, s.l, h);
      } else {
        RemoveDeep(elm, c, s, h);
      }
      removed := elm;
    }
  }
}
