// What the pointer writes of the red-black macros do to the linked nodes.
// A memory is the value of every node's fields; each lemma follows one macro.
module RbMemory {
  import opened RbShape

  datatype Cell = Cell(left: Node?, right: Node?, parent: Node?, red: bool) {
    function Kid(d: bool): Node? { if d then right else left }

    function SetKid(d: bool, p: Node?): Cell { if d then this.(right := p) else this.(left := p) }
  }

  type Mem = map<Node, Cell>

  // The nodes reachable from t.Root() are linked exactly as t says.
  ghost predicate Rep(m: Mem, t: Shape, parent: Node?) {
    t.Branch? ==>
      && t.n in m && m[t.n] == Cell(t.l.Root(), t.r.Root(), parent, t.red)
      && Rep(m, t.l, t.n) && Rep(m, t.r, t.n)
  }

  ghost predicate RepCtx(m: Mem, c: Context, child: Node?) {
    c.Hole? ==>
      && c.n in m && m[c.n].Kid(c.d) == child && m[c.n].Kid(!c.d) == c.sib.Root()
      && m[c.n].parent == c.up.Parent() && m[c.n].red == c.red
      && Rep(m, c.sib, c.n) && RepCtx(m, c.up, c.n)
  }

  // Rep of a branch with its children named by direction.
  ghost predicate At(m: Mem, d: bool, n: Node, red: bool, parent: Node?, near: Shape, far: Shape) {
    && n in m && m[n].Kid(d) == near.Root() && m[n].Kid(!d) == far.Root()
    && m[n].parent == parent && m[n].red == red
    && Rep(m, near, n) && Rep(m, far, n)
  }

  // The memory is the tree c.Plug(t), seen from the root of t.
  ghost predicate Focus(m: Mem, c: Context, t: Shape) {
    && Rep(m, t, c.Parent()) && RepCtx(m, c, t.Root())
    && t.Distinct() && c.Distinct() && t.Nodes() !! c.Nodes()
    && m.Keys == t.Nodes() + c.Nodes()
  }

  ghost predicate Same(m: Mem, m': Mem, s: set<Node>) {
    forall k :: k in s && k in m ==> k in m' && m'[k] == m[k]
  }

  lemma AtRep(m: Mem, d: bool, n: Node, red: bool, parent: Node?, near: Shape, far: Shape)
    ensures At(m, d, n, red, parent, near, far) <==> Rep(m, Mk(d, near, n, red, far), parent)
  {}

  lemma {:induction false} RepFrame(m: Mem, m': Mem, t: Shape, parent: Node?)
    requires Rep(m, t, parent) && Same(m, m', t.Nodes())
    ensures Rep(m', t, parent)
  {
    if t.Branch? {
      RepFrame(m, m', t.l, t.n);
      RepFrame(m, m', t.r, t.n);
    }
  }

  lemma {:induction false} RepCtxFrame(m: Mem, m': Mem, c: Context, child: Node?)
    requires RepCtx(m, c, child) && Same(m, m', c.Nodes())
    ensures RepCtx(m', c, child)
  {
    if c.Hole? {
      RepFrame(m, m', c.sib, c.n);
      RepCtxFrame(m, m', c.up, c.n);
    }
  }

  lemma {:induction false} RepNodes(m: Mem, t: Shape, parent: Node?)
    requires Rep(m, t, parent)
    ensures t.Nodes() <= m.Keys
  {
    if t.Branch? {
      RepNodes(m, t.l, t.n);
      RepNodes(m, t.r, t.n);
    }
  }

  // The root of t gets new fields; its subtrees are untouched.
  lemma RepMoved(m: Mem, m': Mem, t: Shape, p: Node?, p': Node?)
    requires Rep(m, t, p) && t.Distinct()
    requires t.Branch? ==> t.n in m' && m'[t.n] == m[t.n].(parent := p') && Same(m, m', t.Nodes() - {t.n})
    ensures Rep(m', t, p')
  {
    if t.Branch? {
      RepFrame(m, m', t.l, t.n);
      RepFrame(m, m', t.r, t.n);
    }
  }

  lemma RepCtxMoved(m: Mem, m': Mem, c: Context, x: Node?, y: Node?)
    requires RepCtx(m, c, x) && c.Distinct()
    requires c.Hole? ==> c.n in m' && m'[c.n] == m[c.n].SetKid(c.d, y) && Same(m, m', c.Nodes() - {c.n})
    ensures RepCtx(m', c, y)
  {
    if c.Hole? {
      RepFrame(m, m', c.sib, c.n);
      RepCtxFrame(m, m', c.up, c.n);
    }
  }

  // Moving the focus changes nothing.
  lemma FocusUp(m: Mem, c: Context, t: Shape)
    requires c.Hole?
    ensures Focus(m, c, t) <==> Focus(m, c.up, Mk(c.d, t, c.n, c.red, c.sib))
  {
    var u := Mk(c.d, t, c.n, c.red, c.sib);
    AtRep(m, c.d, c.n, c.red, c.up.Parent(), t, c.sib);
    assert u.Nodes() == t.Nodes() + {c.n} + c.sib.Nodes();
    assert u.Root() == c.n;
  }

  lemma {:induction false} FocusTop(m: Mem, c: Context, t: Shape)
    ensures Focus(m, c, t) <==> Focus(m, Top, c.Plug(t))
  {
    if c.Hole? {
      FocusUp(m, c, t);
      FocusTop(m, c.up, Mk(c.d, t, c.n, c.red, c.sib));
    }
  }

  lemma FocusRecolour(m: Mem, c: Context, t: Shape, red: bool)
    requires Focus(m, c, t) && t.Branch?
    ensures Focus(m[t.n := m[t.n].(red := red)], c, t.(red := red))
  {
    var m' := m[t.n := m[t.n].(red := red)];
    RepFrame(m, m', t.l, t.n);
    RepFrame(m, m', t.r, t.n);
    RepCtxFrame(m, m', c, t.n);
    assert t.(red := red).Nodes() == t.Nodes();
  }

  // One field write through a possibly null pointer.
  function SetParent(m: Mem, p: Node?, parent: Node?): Mem {
    if p in m then m[p := m[p].(parent := parent)] else m
  }

  function SetKid(m: Mem, p: Node?, d: bool, kid: Node?): Mem {
    if p in m then m[p := m[p].SetKid(d, kid)] else m
  }

  // RB_ROTATE_LEFT (d = false) and RB_ROTATE_RIGHT (d = true) at x.
  function Rotate(m: Mem, x: Node, d: bool): Mem
    requires x in m
  {
    var y := m[x].Kid(!d);
    if y !in m then m else
    var b, p := m[y].Kid(d), m[x].parent;
    var m1 := SetParent(SetParent(SetKid(m, x, !d, b), b, x), y, p);
    var m2 := Redirect(m1, p, x, y);
    SetParent(SetKid(m2, y, d, x), x, y)
  }

  lemma RotateCells(m: Mem, x: Node, d: bool, y: Node, b: Node?, p: Node?)
    requires x in m && m[x].Kid(!d) == y && y in m && y != x && m[y].Kid(d) == b && m[x].parent == p
    requires b != null ==> b in m && b != x && b != y && b != p
    requires p != null ==> p in m && p != x && p != y
    ensures var m' := Rotate(m, x, d);
      && m'.Keys == m.Keys
      && m'[x] == m[x].SetKid(!d, b).(parent := y)
      && m'[y] == m[y].SetKid(d, x).(parent := p)
      && (b != null ==> m'[b] == m[b].(parent := x))
      && (p != null ==> m'[p] == m[p].SetKid(m[p].left != x, y))
      && Same(m, m', m.Keys - {x, y, b, p})
  {}

  lemma RotateDistinct(d: bool, x: Node, rx: bool, a: Shape, y: Node, ry: bool, b: Shape, c: Shape)
    requires Mk(d, a, x, rx, Mk(d, b, y, ry, c)).Distinct()
    ensures var t' := Mk(d, Mk(d, a, x, rx, b), y, ry, c);
      && t'.Distinct() && t'.Nodes() == Mk(d, a, x, rx, Mk(d, b, y, ry, c)).Nodes()
    ensures a.Distinct() && b.Distinct() && c.Distinct()
    ensures x != y && x !in a.Nodes() && x !in b.Nodes() && x !in c.Nodes()
    ensures y !in a.Nodes() && y !in b.Nodes() && y !in c.Nodes()
    ensures a.Nodes() !! b.Nodes() && b.Nodes() !! c.Nodes()
    ensures a.Nodes() + b.Nodes() + c.Nodes() + {x, y} == Mk(d, a, x, rx, Mk(d, b, y, ry, c)).Nodes()
  {
    var u, v := Mk(d, b, y, ry, c), Mk(d, a, x, rx, b);
    assert u.Distinct() && u.Nodes() == b.Nodes() + {y} + c.Nodes();
    assert v.Nodes() == a.Nodes() + {x} + b.Nodes();
  }

  lemma FocusParts(m: Mem, c: Context, t: Shape)
    requires Focus(m, c, t)
    ensures Rep(m, t, c.Parent()) && RepCtx(m, c, t.Root()) && t.Distinct() && c.Distinct() && t.Nodes() !! c.Nodes()
  {}

  lemma RepRoot(m: Mem, t: Shape, parent: Node?)
    requires Rep(m, t, parent)
    ensures t.Branch? ==> t.n in m && t.n in t.Nodes()
  {}

  // The pieces of a tree about to be rotated do not overlap.
  lemma RotateApart(m: Mem, ctx: Context, d: bool, x: Node, rx: bool, a: Shape, y: Node, ry: bool, b: Shape, c: Shape)
    requires Focus(m, ctx, Mk(d, a, x, rx, Mk(d, b, y, ry, c)))
    ensures At(m, d, x, rx, ctx.Parent(), a, Mk(d, b, y, ry, c)) && At(m, d, y, ry, x, b, c)
    ensures x != y && b.Distinct() && a.Nodes() !! b.Nodes() && b.Nodes() !! c.Nodes()
    ensures var s := a.Nodes() + b.Nodes() + c.Nodes();
      s !! ctx.Nodes() && x !in s + ctx.Nodes() && y !in s + ctx.Nodes()
    ensures ctx.Hole? ==> ctx.n in m && (m[ctx.n].left != x) == ctx.d
  {
    hide Focus, Shape.Nodes, Shape.Distinct, Context.Nodes, Context.Distinct, Rep, RepCtx;
    FocusParts(m, ctx, Mk(d, a, x, rx, Mk(d, b, y, ry, c)));
    AtRep(m, d, x, rx, ctx.Parent(), a, Mk(d, b, y, ry, c));
    AtRep(m, d, y, ry, x, b, c);
    RotateDistinct(d, x, rx, a, y, ry, b, c);
    ChildSide(m, ctx, x);
  }

  lemma ChildSide(m: Mem, ctx: Context, x: Node)
    requires RepCtx(m, ctx, x) && x !in ctx.Nodes()
    ensures ctx.Hole? ==> ctx.n in m && (m[ctx.n].left != x) == ctx.d && m[ctx.n].Kid(!ctx.d) != x
  {
    if ctx.Hole? && ctx.sib.Branch? { assert ctx.sib.n in ctx.sib.Nodes(); }
  }

  // Which cells a rotation touches.
  lemma RotateEffect(m: Mem, ctx: Context, d: bool, x: Node, y: Node, a: set<Node>, b: Shape, c: set<Node>)
    requires x in m && y in m && m[x].Kid(!d) == y && m[y].Kid(d) == b.Root() && m[x].parent == ctx.Parent()
    requires x != y && b.Distinct() && a !! b.Nodes() && b.Nodes() !! c
    requires var s := a + b.Nodes() + c; s !! ctx.Nodes() && x !in s + ctx.Nodes() && y !in s + ctx.Nodes()
    requires b.Branch? ==> b.n in m
    requires ctx.Hole? ==> ctx.n in m && (m[ctx.n].left != x) == ctx.d
    ensures var m' := Rotate(m, x, d);
      && m'.Keys == m.Keys
      && m'[x] == m[x].SetKid(!d, b.Root()).(parent := y)
      && m'[y] == m[y].SetKid(d, x).(parent := ctx.Parent())
      && Same(m, m', a) && Same(m, m', c)
      && (b.Branch? ==> m'[b.n] == m[b.n].(parent := x) && Same(m, m', b.Nodes() - {b.n}))
      && (ctx.Hole? ==> m'[ctx.n] == m[ctx.n].SetKid(ctx.d, y) && Same(m, m', ctx.Nodes() - {ctx.n}))
  {
    assert b.Branch? ==> b.n in b.Nodes();
    assert ctx.Hole? ==> ctx.n in ctx.Nodes();
    RotateCells(m, x, d, y, b.Root(), ctx.Parent());
  }

  lemma FocusRotate(m: Mem, ctx: Context, d: bool, x: Node, rx: bool, a: Shape, y: Node, ry: bool, b: Shape, c: Shape)
    requires Focus(m, ctx, Mk(d, a, x, rx, Mk(d, b, y, ry, c)))
    ensures x in m && Focus(Rotate(m, x, d), ctx, Mk(d, Mk(d, a, x, rx, b), y, ry, c))
  {
    hide Shape.Nodes, Context.Nodes, Shape.Distinct, Context.Distinct, Rotate, Rep, RepCtx;
    RotateApart(m, ctx, d, x, rx, a, y, ry, b, c);
    RepRoot(m, b, y);
    RotateEffect(m, ctx, d, x, y, a.Nodes(), b, c.Nodes());
    var m' := Rotate(m, x, d);
    RotateSubtrees(m, m', x, y, b, a, c);
    AtRep(m', d, x, rx, y, a, b);
    AtRep(m', d, y, ry, ctx.Parent(), Mk(d, a, x, rx, b), c);
    RepCtxMoved(m, m', ctx, x, y);
    RotateDistinct(d, x, rx, a, y, ry, b, c);
  }

  lemma RotateSubtrees(m: Mem, m': Mem, x: Node, y: Node, b: Shape, a: Shape, c: Shape)
    requires Rep(m, a, x) && Rep(m, b, y) && Rep(m, c, y) && b.Distinct()
    requires Same(m, m', a.Nodes()) && Same(m, m', c.Nodes())
    requires b.Branch? ==> b.n in m' && m'[b.n] == m[b.n].(parent := x) && Same(m, m', b.Nodes() - {b.n})
    ensures Rep(m', a, x) && Rep(m', b, x) && Rep(m', c, y)
  {
    RepFrame(m, m', a, x);
    RepFrame(m, m', c, y);
    RepMoved(m, m', b, y, x);
  }

  // The link of p that points to x is pointed to y.
  function Redirect(m: Mem, p: Node?, x: Node, y: Node?): Mem {
    if p in m then SetKid(m, p, m[p].left != x, y) else m
  }

  // A new red node goes where the search fell off the tree.
  lemma FocusLink(m: Mem, c: Context, d: bool, e: Node)
    requires Focus(m, c, Leaf) && e !in m && (c.Hole? ==> c.d == d)
    ensures Focus(SetKid(m[e := Cell(null, null, c.Parent(), true)], c.Parent(), d, e), c, Branch(Leaf, e, true, Leaf))
  {
    var m' := SetKid(m[e := Cell(null, null, c.Parent(), true)], c.Parent(), d, e);
    RepCtxMoved(m, m', c, null, e);
    assert Branch(Leaf, e, true, Leaf).Nodes() == {e};
  }

  // A node with at most one child is replaced by that child.
  function Unlink(m: Mem, n: Node, child: Node?): Mem
    requires n in m
  {
    Redirect(SetParent(m, child, m[n].parent), m[n].parent, n, child) - {n}
  }

  lemma FocusUnlink(m: Mem, c: Context, d: bool, n: Node, red: bool, t: Shape)
    requires Focus(m, c, Mk(d, Leaf, n, red, t))
    ensures n in m && m[n].parent == c.Parent() && Focus(Unlink(m, n, t.Root()), c, t)
    ensures t.Branch? ==> t.n in m && t.n != n
    ensures c.Hole? ==> c.n in m && c.n != n
  {
    AtRep(m, d, n, red, c.Parent(), Leaf, t);
    var m' := Unlink(m, n, t.Root());
    ChildSide(m, c, n);
    assert Mk(d, Leaf, n, red, t).Nodes() == {n} + t.Nodes();
    RepMoved(m, m', t, n, c.Parent());
    RepCtxMoved(m, m', c, n, t.Root());
  }

  // A node outside the tree takes over the place and the fields of o.
  function Replace(m: Mem, o: Node, e: Node): Mem
    requires o in m
  {
    var f := m[o];
    SetParent(SetParent(Redirect(m[e := f], f.parent, o, e), f.left, e), f.right, e) - {o}
  }

  lemma ReplaceApart(m: Mem, c: Context, o: Node, red: bool, l: Shape, r: Shape, e: Node)
    requires Focus(m, c, Branch(l, o, red, r)) && e !in m
    ensures o in m && o != e && m[o] == Cell(l.Root(), r.Root(), c.Parent(), red)
    ensures l.Root() in m.Keys - {o} + {null} && r.Root() in m.Keys - {o} + {null}
      && c.Parent() in m.Keys - {o} + {null}
    ensures l.Distinct() && r.Distinct() && c.Distinct() && l.Nodes() !! r.Nodes()
    ensures var s := l.Nodes() + r.Nodes(); s !! c.Nodes() && o !in s + c.Nodes() && e !in s + c.Nodes()
    ensures LinkSide(m, c, o)
  {
    ChildSide(m, c, o);
  }

  predicate LinkSide(m: Mem, c: Context, x: Node) {
    c.Hole? ==> c.n in m && (m[c.n].left != x) == c.d
  }

  lemma ReplaceCells(m: Mem, o: Node, l: Node?, r: Node?, p: Node?, e: Node)
    requires o in m && e !in m && m[o].left == l && m[o].right == r && m[o].parent == p
    requires l in m.Keys - {o} + {null} && r in m.Keys - {o} + {null} && p in m.Keys - {o} + {null}
    requires (l != null ==> l != r && l != p) && (r != null ==> r != p)
    ensures var m' := Replace(m, o, e);
      && m'.Keys == m.Keys - {o} + {e} && m'[e] == m[o]
      && (l != null ==> m'[l] == m[l].(parent := e)) && (r != null ==> m'[r] == m[r].(parent := e))
      && (p != null ==> m'[p] == m[p].SetKid(m[p].left != o, e))
      && Same(m, m', m.Keys - {o, l, r, p})
  {}

  lemma FocusReplace(m: Mem, c: Context, o: Node, red: bool, l: Shape, r: Shape, e: Node)
    requires Focus(m, c, Branch(l, o, red, r)) && e !in m
    ensures o in m && Focus(Replace(m, o, e), c, Branch(l, e, red, r))
  {
    hide Replace;
    ReplaceApart(m, c, o, red, l, r, e);
    RepRoot(m, l, o);
    RepRoot(m, r, o);
    assert c.Hole? ==> c.n in c.Nodes();
    ReplaceCells(m, o, l.Root(), r.Root(), c.Parent(), e);
    var m' := Replace(m, o, e);
    RepMoved(m, m', l, o, e);
    RepMoved(m, m', r, o, e);
    RepCtxMoved(m, m', c, o, e);
  }
}
