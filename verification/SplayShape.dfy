// The values behind the splay macros of tree.h: shapes, the two partial trees
// that top-down splaying builds, and their layout in memory.
module SplayShape {
  import opened Sequences

  class Node {
    const key: int
    var left: Node?
    var right: Node?

    constructor (key: int)
      ensures this.key == key && left == null && right == null
    {
      this.key, left, right := key, null, null;
    }
  }

  datatype Shape = Leaf | Branch(l: Shape, n: Node, r: Shape) {
    function Root(): Node? { if Leaf? then null else n }

    function InOrder(): seq<Node> { if Leaf? then [] else l.InOrder() + [n] + r.InOrder() }

    ghost function Nodes(): set<Node> { if Leaf? then {} else l.Nodes() + {n} + r.Nodes() }

    ghost predicate Distinct() {
      Branch? ==> l.Distinct() && r.Distinct() && n !in l.Nodes() && n !in r.Nodes() && l.Nodes() !! r.Nodes()
    }

    function Size(): nat { if Leaf? then 0 else l.Size() + 1 + r.Size() }
  }

  // A branch whose first subtree is the one in direction d: false is left, true is right.
  function Mk(d: bool, near: Shape, n: Node, far: Shape): Shape {
    if d then Branch(far, n, near) else Branch(near, n, far)
  }

  // k lies in direction d of the key: below it for d = false, above it for d = true.
  predicate Toward(k: int, key: int, d: bool) { if d then key < k else k < key }

  function Near(t: Shape, d: bool): Shape
    requires t.Branch?
  {
    if d then t.r else t.l
  }

  function Far(t: Shape, d: bool): Shape
    requires t.Branch?
  {
    Near(t, !d)
  }

  // A partial tree: a path in direction d with a missing subtree at its end,
  // each node n of the path with its other subtree far. d = true is the left
  // tree of the splay, d = false the right tree.
  datatype Spine = Bare | Grown(rest: Spine, n: Node, far: Shape) {
    // The node with the missing subtree; the header when nothing is linked yet.
    function Tail(header: Node): Node { if Bare? then header else n }

    function Plug(d: bool, t: Shape): Shape { if Bare? then t else rest.Plug(d, Mk(d, t, n, far)) }

    function InOrder(d: bool): seq<Node> {
      if Bare? then []
      else if d then rest.InOrder(d) + (far.InOrder() + [n])
      else ([n] + far.InOrder()) + rest.InOrder(d)
    }

    ghost function Nodes(): set<Node> { if Bare? then {} else far.Nodes() + {n} + rest.Nodes() }

    ghost predicate Distinct() {
      Grown? ==>
        && far.Distinct() && rest.Distinct() && n !in far.Nodes() && n !in rest.Nodes()
        && far.Nodes() !! rest.Nodes()
    }
  }

  ghost predicate Sorted(s: seq<Node>) {
    forall i, j :: 0 <= i < j < |s| ==> s[i].key < s[j].key
  }

  // Every key of s lies before k in direction d: below k for the left tree (d = true).
  ghost predicate Beside(s: seq<Node>, k: int, d: bool) {
    forall i :: 0 <= i < |s| ==> if d then s[i].key < k else k < s[i].key
  }

  // The nodes of the left tree, the middle tree and the right tree, in order.
  function Whole(ls: Spine, t: Shape, rs: Spine): seq<Node> {
    ls.InOrder(true) + t.InOrder() + rs.InOrder(false)
  }

  function Middle(d: bool, s: Spine, t: Shape, o: Spine): seq<Node> {
    if d then Whole(s, t, o) else Whole(o, t, s)
  }

  // The assembled tree.
  function Assemble(ls: Spine, t: Shape, rs: Spine): Shape
    requires t.Branch?
  {
    Branch(ls.Plug(true, t.l), t.n, rs.Plug(false, t.r))
  }

  lemma {:induction false} PlugInOrder(s: Spine, d: bool, t: Shape)
    ensures s.Plug(d, t).InOrder() == if d then s.InOrder(d) + t.InOrder() else t.InOrder() + s.InOrder(d)
  {
    if s.Grown? {
      PlugInOrder(s.rest, d, Mk(d, t, s.n, s.far));
      var a, f, n, r := t.InOrder(), s.far.InOrder(), [s.n], s.rest.InOrder(d);
      if d {
        Associative(r, f + n, a);
      } else {
        Associative(a, n, f);
        Associative(a, n + f, r);
      }
    }
  }

  // SPLAY_ASSEMBLE keeps the order of the nodes.
  lemma AssembleInOrder(ls: Spine, t: Shape, rs: Spine)
    requires t.Branch?
    ensures Assemble(ls, t, rs).InOrder() == Whole(ls, t, rs)
  {
    PlugInOrder(ls, true, t.l);
    PlugInOrder(rs, false, t.r);
    var x, y, n, u, v := ls.InOrder(true), t.l.InOrder(), [t.n], t.r.InOrder(), rs.InOrder(false);
    Associative((x + y) + n, u, v);
    Associative(x, y, n);
    Associative(x, y + n, u);
  }

  // A rotation keeps the order of the nodes.
  lemma RotateInOrder(d: bool, a: Shape, y: Node, b: Shape, x: Node, c: Shape)
    ensures Mk(d, a, y, Mk(!d, c, x, b)).InOrder() == Mk(d, Mk(d, a, y, b), x, c).InOrder()
  {
    var p, q, r := a.InOrder(), b.InOrder(), c.InOrder();
    assert (p + [y] + q) + [x] + r == p + [y] + (q + [x] + r);
    assert r + [x] + (q + [y] + p) == (r + [x] + q) + [y] + p;
  }

  // Linking the root and its far subtree into the partial tree keeps the order.
  lemma LinkInOrder(d: bool, s: Spine, near: Shape, x: Node, far: Shape, o: Spine)
    ensures Middle(d, Grown(s, x, far), near, o) == Middle(d, s, Mk(d, near, x, far), o)
  {
    var a, p, q, b := s.InOrder(d), near.InOrder(), far.InOrder(), o.InOrder(!d);
    if d {
      assert (a + (q + [x])) + p + b == a + (q + [x] + p) + b;
    } else {
      assert b + p + (([x] + q) + a) == b + (p + [x] + q) + a;
    }
  }

  // ---- memory ----

  datatype Cell = Cell(left: Node?, right: Node?) {
    function Kid(d: bool): Node? { if d then right else left }

    function SetKid(d: bool, p: Node?): Cell { if d then this.(right := p) else this.(left := p) }
  }

  type Mem = map<Node, Cell>

  function SetKid(m: Mem, p: Node?, d: bool, kid: Node?): Mem {
    if p in m then m[p := m[p].SetKid(d, kid)] else m
  }

  ghost predicate Rep(m: Mem, t: Shape) {
    t.Branch? ==> t.n in m && m[t.n] == Cell(t.l.Root(), t.r.Root()) && Rep(m, t.l) && Rep(m, t.r)
  }

  // The partial tree hangs below the header in direction d; the field of the
  // missing subtree may hold anything.
  ghost predicate RepSpine(m: Mem, d: bool, s: Spine, header: Node) {
    s.Grown? ==>
      && s.n in m && m[s.n].Kid(!d) == s.far.Root() && Rep(m, s.far)
      && s.rest.Tail(header) in m && m[s.rest.Tail(header)].Kid(d) == s.n
      && RepSpine(m, d, s.rest, header)
  }

  ghost predicate Apart(header: Node, s: Spine, t: Shape, o: Spine) {
    && s.Distinct() && t.Distinct() && o.Distinct()
    && s.Nodes() !! t.Nodes() && t.Nodes() !! o.Nodes() && s.Nodes() !! o.Nodes()
    && header !in s.Nodes() && header !in t.Nodes() && header !in o.Nodes()
  }

  // The memory during a splay: the partial tree s of direction d, the middle
  // tree t and the other partial tree o.
  ghost predicate Layout(m: Mem, header: Node, d: bool, s: Spine, t: Shape, o: Spine) {
    && RepSpine(m, d, s, header) && Rep(m, t) && RepSpine(m, !d, o, header)
    && Apart(header, s, t, o)
    && m.Keys == s.Nodes() + t.Nodes() + o.Nodes() + {header}
  }

  ghost predicate Same(m: Mem, m': Mem, s: set<Node>) {
    forall k :: k in s && k in m ==> k in m' && m'[k] == m[k]
  }

  lemma {:induction false} RepFrame(m: Mem, m': Mem, t: Shape)
    requires Rep(m, t) && Same(m, m', t.Nodes())
    ensures Rep(m', t)
  {
    if t.Branch? {
      RepFrame(m, m', t.l);
      RepFrame(m, m', t.r);
    }
  }

  lemma {:induction false} RepSpineFrame(m: Mem, m': Mem, d: bool, s: Spine, header: Node)
    requires RepSpine(m, d, s, header) && Same(m, m', s.Nodes())
    requires header in m && header in m' && m'[header].Kid(d) == m[header].Kid(d)
    ensures RepSpine(m', d, s, header)
  {
    if s.Grown? {
      RepFrame(m, m', s.far);
      RepSpineFrame(m, m', d, s.rest, header);
      assert s.rest.Grown? ==> s.rest.n in s.Nodes();
    }
  }

  // Whatever is stored where the subtree is missing, the partial tree is the same.
  lemma RepSpineTail(m: Mem, m': Mem, d: bool, s: Spine, header: Node)
    requires RepSpine(m, d, s, header) && s.Distinct() && header in m && header !in s.Nodes()
    requires s.Tail(header) in m && s.Tail(header) in m' && m'[s.Tail(header)].Kid(!d) == m[s.Tail(header)].Kid(!d)
    requires Same(m, m', m.Keys - {s.Tail(header)})
    ensures RepSpine(m', d, s, header)
  {
    if s.Grown? {
      RepFrame(m, m', s.far);
      RepSpineFrame(m, m', d, s.rest, header);
      assert s.rest.Grown? ==> s.rest.n in s.rest.Nodes();
    }
  }

  lemma TailIn(s: Spine, header: Node)
    ensures s.Tail(header) in s.Nodes() + {header}
  {}

  // Writing the field of the missing subtree.
  lemma LayoutHole(m: Mem, header: Node, d: bool, s: Spine, t: Shape, o: Spine, v: Node?)
    requires Layout(m, header, d, s, t, o)
    ensures s.Tail(header) in m && Layout(SetKid(m, s.Tail(header), d, v), header, d, s, t, o)
  {
    var e := s.Tail(header);
    TailIn(s, header);
    var m' := SetKid(m, e, d, v);
    RepSpineTail(m, m', d, s, header);
    RepFrame(m, m', t);
    RepSpineFrame(m, m', !d, o, header);
  }

  lemma RotateNodes(d: bool, a: Shape, y: Node, b: Shape, x: Node, c: Shape)
    requires Mk(d, Mk(d, a, y, b), x, c).Distinct()
    ensures var t, t' := Mk(d, Mk(d, a, y, b), x, c), Mk(d, a, y, Mk(!d, c, x, b));
      && t'.Distinct() && t'.Nodes() == t.Nodes() && x in t.Nodes() && y in t.Nodes() && x != y
    ensures forall n :: n in a.Nodes() || n in b.Nodes() || n in c.Nodes() ==> n != x && n != y
  {
    var u, v := Mk(d, a, y, b), Mk(!d, c, x, b);
    assert u.Distinct() && u.Nodes() == a.Nodes() + {y} + b.Nodes();
    assert v.Distinct() && v.Nodes() == c.Nodes() + {x} + b.Nodes();
  }

  lemma RotateRep(m: Mem, d: bool, a: Shape, y: Node, b: Shape, x: Node, c: Shape)
    requires Rep(m, Mk(d, Mk(d, a, y, b), x, c)) && x != y
    requires forall n :: n in a.Nodes() || n in b.Nodes() || n in c.Nodes() ==> n != x && n != y
    ensures x in m && y in m && m[x].Kid(d) == y && m[y].Kid(!d) == b.Root()
    ensures Rep(SetKid(SetKid(m, x, d, b.Root()), y, !d, x), Mk(d, a, y, Mk(!d, c, x, b)))
  {
    assert Rep(m, Mk(d, a, y, b));
    var m' := SetKid(SetKid(m, x, d, b.Root()), y, !d, x);
    RepFrame(m, m', a);
    RepFrame(m, m', b);
    RepFrame(m, m', c);
    assert Rep(m', Mk(!d, c, x, b));
  }

  // SPLAY_ROTATE_RIGHT (d = false) and SPLAY_ROTATE_LEFT (d = true)
  lemma LayoutRotate(m: Mem, header: Node, d: bool, s: Spine, a: Shape, y: Node, b: Shape, x: Node, c: Shape, o: Spine)
    requires Layout(m, header, d, s, Mk(d, Mk(d, a, y, b), x, c), o)
    ensures x in m && y in m && x != y && m[x].Kid(d) == y && m[y].Kid(!d) == b.Root()
    ensures Layout(SetKid(SetKid(m, x, d, b.Root()), y, !d, x), header, d, s, Mk(d, a, y, Mk(!d, c, x, b)), o)
  {
    hide Shape.Nodes, Shape.Distinct, Spine.Nodes, Spine.Distinct, Rep;
    RotateNodes(d, a, y, b, x, c);
    var m' := SetKid(SetKid(m, x, d, b.Root()), y, !d, x);
    RotateRep(m, d, a, y, b, x, c);
    RepSpineFrame(m, m', d, s, header);
    RepSpineFrame(m, m', !d, o, header);
  }

  // SPLAY_LINKLEFT (d = false) and SPLAY_LINKRIGHT (d = true)
  lemma LayoutLink(m: Mem, header: Node, d: bool, s: Spine, near: Shape, x: Node, far: Shape, o: Spine)
    requires Layout(m, header, d, s, Mk(d, near, x, far), o)
    ensures s.Tail(header) in m && x in m && m[x].Kid(d) == near.Root()
    ensures Layout(SetKid(m, s.Tail(header), d, x), header, d, Grown(s, x, far), near, o)
  {
    LayoutHole(m, header, d, s, Mk(d, near, x, far), o, x);
    assert Grown(s, x, far).Nodes() + near.Nodes() == s.Nodes() + Mk(d, near, x, far).Nodes();
  }

  lemma {:induction false} PlugRep(m: Mem, d: bool, s: Spine, t: Shape, header: Node)
    requires RepSpine(m, d, s, header) && Rep(m, t) && header in m
    requires s.Tail(header) in m && m[s.Tail(header)].Kid(d) == t.Root()
    requires s.Distinct() && t.Distinct() && s.Nodes() !! t.Nodes()
    ensures var p := s.Plug(d, t);
      && Rep(m, p) && m[header].Kid(d) == p.Root() && p.Distinct() && p.Nodes() == s.Nodes() + t.Nodes()
  {
    if s.Grown? {
      PlugRep(m, d, s.rest, Mk(d, t, s.n, s.far), header);
    }
  }

  // SPLAY_ASSEMBLE
  function AssembleMem(m: Mem, header: Node, left: Node, right: Node, x: Node): Mem
    requires {header, left, right, x} <= m.Keys
  {
    var m1 := SetKid(m, left, true, m[x].left);
    var m2 := SetKid(m1, right, false, m1[x].right);
    var m3 := SetKid(m2, x, false, m2[header].right);
    SetKid(m3, x, true, m3[header].left)
  }

  lemma LayoutAssemble(m: Mem, header: Node, ls: Spine, t: Shape, rs: Spine)
    requires Layout(m, header, true, ls, t, rs) && t.Branch?
    ensures {header, ls.Tail(header), rs.Tail(header), t.n} <= m.Keys
    ensures var m' := AssembleMem(m, header, ls.Tail(header), rs.Tail(header), t.n);
      && m'.Keys == m.Keys && Rep(m', Assemble(ls, t, rs))
    ensures Assemble(ls, t, rs).Distinct() && Assemble(ls, t, rs).Nodes() + {header} == m.Keys
    ensures header !in Assemble(ls, t, rs).Nodes()
  {
    hide Layout, Spine.Nodes, Spine.Distinct, Spine.Plug, Spine.Tail;
    var p, q := ls.Tail(header), rs.Tail(header);
    FillHoles(m, header, ls, t, rs);
    var m2 := SetKid(SetKid(m, p, true, t.l.Root()), q, false, t.r.Root());
    LayoutPlug(m2, header, ls, t, rs);
    var a, b := ls.Plug(true, t.l), rs.Plug(false, t.r);
    var m' := AssembleMem(m, header, p, q, t.n);
    assert m' == m2[t.n := Cell(a.Root(), b.Root())];
    RepFrame(m2, m', a);
    RepFrame(m2, m', b);
  }

  lemma FillHoles(m: Mem, header: Node, ls: Spine, t: Shape, rs: Spine)
    requires Layout(m, header, true, ls, t, rs) && t.Branch?
    ensures var p, q := ls.Tail(header), rs.Tail(header);
      && header in m && p in m && q in m && t.n in m && m[t.n] == Cell(t.l.Root(), t.r.Root())
      && p != t.n && q != t.n && header != t.n
      && var m2 := SetKid(SetKid(m, p, true, t.l.Root()), q, false, t.r.Root());
      && Layout(m2, header, true, ls, t, rs)
  {
    var p, q := ls.Tail(header), rs.Tail(header);
    TailIn(ls, header);
    TailIn(rs, header);
    LayoutHole(m, header, true, ls, t, rs, t.l.Root());
    LayoutHole(SetKid(m, p, true, t.l.Root()), header, false, rs, t, ls, t.r.Root());
  }

  // Both partial trees closed with the subtrees of the root.
  lemma LayoutPlug(m: Mem, header: Node, ls: Spine, t: Shape, rs: Spine)
    requires Layout(m, header, true, ls, t, rs) && t.Branch?
    requires ls.Tail(header) in m && m[ls.Tail(header)].right == t.l.Root()
    requires rs.Tail(header) in m && m[rs.Tail(header)].left == t.r.Root()
    ensures var a, b := ls.Plug(true, t.l), rs.Plug(false, t.r);
      && Rep(m, a) && Rep(m, b) && m[header] == Cell(b.Root(), a.Root()) && t.n !in a.Nodes() && t.n !in b.Nodes()
    ensures Assemble(ls, t, rs).Distinct() && Assemble(ls, t, rs).Nodes() + {header} == m.Keys
    ensures header !in Assemble(ls, t, rs).Nodes()
  {
    hide Spine.Nodes, Spine.Distinct, Spine.Plug;
    PlugRep(m, true, ls, t.l, header);
    PlugRep(m, false, rs, t.r, header);
  }
}
