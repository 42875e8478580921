// The splay macros of tree.h on linked nodes.
module SplayTree {
  import opened SplayShape
  import opened SplayCost

  // The keys left of the root are below k and those right of it above: a node
  // with key k can only be the root.
  ghost predicate Parted(t: Shape, k: int) {
    t.Branch? && Beside(t.l.InOrder(), k, true) && Beside(t.r.InOrder(), k, false)
  }

  // The search for k ends at the root of t.
  predicate Ends(t: Shape, k: int, d: bool) {
    t.Branch? && (t.n.key == k || (Toward(k, t.n.key, d) && Near(t, d).Leaf?))
  }

  lemma SortedPart(a: seq<Node>, t: seq<Node>, b: seq<Node>)
    requires Sorted(a + t + b)
    ensures Sorted(t)
  {
    forall i, j | 0 <= i < j < |t| ensures t[i].key < t[j].key {
      assert (a + t + b)[|a| + i] == t[i] && (a + t + b)[|a| + j] == t[j];
    }
  }

  lemma SortedAround(a: seq<Node>, n: Node, b: seq<Node>)
    requires Sorted(a + [n] + b)
    ensures Beside(a, n.key, true) && Beside(b, n.key, false)
  {
    var s := a + [n] + b;
    assert s[|a|] == n;
    forall i | 0 <= i < |a| ensures a[i].key < n.key { assert s[i] == a[i]; }
    forall i | 0 <= i < |b| ensures n.key < b[i].key { assert s[|a| + 1 + i] == b[i]; }
  }

  lemma SortedMake(a: seq<Node>, n: Node, b: seq<Node>)
    requires Sorted(a) && Sorted(b) && Beside(a, n.key, true) && Beside(b, n.key, false)
    ensures Sorted(a + [n] + b)
  {}

  lemma SortedTree(t: Shape)
    requires Sorted(t.InOrder()) && t.Branch?
    ensures Beside(t.l.InOrder(), t.n.key, true) && Beside(t.r.InOrder(), t.n.key, false)
    ensures Sorted(t.l.InOrder()) && Sorted(t.r.InOrder())
  {
    hide Sorted, Beside;
    SortedAround(t.l.InOrder(), t.n, t.r.InOrder());
    assert t.InOrder() == [] + t.l.InOrder() + ([t.n] + t.r.InOrder());
    SortedPart([], t.l.InOrder(), [t.n] + t.r.InOrder());
    assert t.InOrder() == (t.l.InOrder() + [t.n]) + t.r.InOrder() + [];
    SortedPart(t.l.InOrder() + [t.n], t.r.InOrder(), []);
  }

  lemma BesideConcat(a: seq<Node>, b: seq<Node>, k: int, d: bool)
    requires Beside(a, k, d) && Beside(b, k, d)
    ensures Beside(a + b, k, d)
  {}

  // What is linked into the partial tree lies on its side of k.
  lemma LinkBeside(d: bool, s: Spine, near: Shape, x: Node, far: Shape, o: Spine, k: int)
    requires Sorted(Middle(d, s, Mk(d, near, x, far), o)) && Beside(s.InOrder(d), k, d) && Toward(k, x.key, d)
    ensures Beside(Grown(s, x, far).InOrder(d), k, d)
  {
    var t := Mk(d, near, x, far);
    if d {
      SortedPart(s.InOrder(true), t.InOrder(), o.InOrder(false));
    } else {
      SortedPart(o.InOrder(true), t.InOrder(), s.InOrder(false));
    }
    SortedTree(t);
    assert Beside(far.InOrder(), k, d);
    BesideConcat(far.InOrder(), [x], k, d);
    BesideConcat([x], far.InOrder(), k, d);
    BesideConcat(s.InOrder(d), far.InOrder() + [x], k, d);
    BesideConcat([x] + far.InOrder(), s.InOrder(d), k, d);
  }

  lemma LinkKeeps(d: bool, s: Spine, near: Shape, x: Node, far: Shape, o: Spine, k: int)
    ensures Sorted(Middle(d, s, Mk(d, near, x, far), o)) && Beside(s.InOrder(d), k, d) && Toward(k, x.key, d) ==>
      Beside(Grown(s, x, far).InOrder(d), k, d)
  {
    if Sorted(Middle(d, s, Mk(d, near, x, far), o)) && Beside(s.InOrder(d), k, d) && Toward(k, x.key, d) {
      LinkBeside(d, s, near, x, far, o, k);
    }
  }

  lemma AssembleParted(ls: Spine, t: Shape, rs: Spine, k: int, d: bool)
    requires Sorted(Whole(ls, t, rs)) && Ends(t, k, d)
    requires Beside(ls.InOrder(true), k, true) && Beside(rs.InOrder(false), k, false)
    ensures Parted(Assemble(ls, t, rs), k)
  {
    SortedPart(ls.InOrder(true), t.InOrder(), rs.InOrder(false));
    SortedTree(t);
    PlugInOrder(ls, true, t.l);
    PlugInOrder(rs, false, t.r);
    BesideConcat(ls.InOrder(true), t.l.InOrder(), k, true);
    BesideConcat(t.r.InOrder(), rs.InOrder(false), k, false);
  }

  lemma {:induction false} InOrderNodes(t: Shape, n: Node)
    ensures n in t.InOrder() <==> n in t.Nodes()
  {
    if t.Branch? {
      InOrderNodes(t.l, n);
      InOrderNodes(t.r, n);
    }
  }

  // A node whose key is k is the root of a tree parted at k.
  lemma PartedFind(t: Shape, k: int, n: Node)
    requires Parted(t, k) && n in t.Nodes() && n.key == k
    ensures n == t.n
  {
    InOrderNodes(t.l, n);
    InOrderNodes(t.r, n);
  }

  // Parts of the middle tree inside the two partial trees built before.
  function Wrapped(ls: Spine, rs: Spine, turns: nat, p: Parts): Parts {
    Parts(ls.Plug(true, p.l), p.n, rs.Plug(false, p.r), turns + p.turns)
  }

  function OneSided(d: bool, s: Spine, turns: nat, p: Parts): Parts {
    if d then Wrapped(s, Bare, turns, p) else Wrapped(Bare, s, turns, p)
  }

  lemma Unwrapped(g: Goal, t: Shape)
    requires t.Branch?
    ensures Split(g, t) == Wrapped(Bare, Bare, 0, Split(g, t))
  {}

  lemma SplitHit(g: Goal, t: Shape)
    requires t.Branch? && Hit(g, t.n)
    ensures Split(g, t) == Parts(t.l, t.n, t.r, 0)
  {}

  lemma SplitTurn(g: Goal, t: Shape)
    requires t.Branch? && !Hit(g, t.n)
    ensures var d := Way(g, t); var u := Zig(g, t, d);
      Split(g, t) == if Near(t, d).Branch? && Near(u, d).Branch? then Split(g, Near(u, d)).Under(d, u.n, Far(u, d))
        else Parts(u.l, u.n, u.r, if Near(t, d).Branch? then 1 else 0)
  {}

  // One turn of a splay, with what has been built before around it.
  lemma WrapTurn(g: Goal, ls: Spine, t: Shape, rs: Spine, turns: nat, d: bool)
    requires t.Branch?
    ensures var u := Zig(g, t, d); var c := turns + if Near(t, d).Branch? then 1 else 0;
      && (Near(t, d).Branch? && Near(u, d).Branch? ==>
        var p := Split(g, Near(u, d));
        Wrapped(ls, rs, turns, p.Under(d, u.n, Far(u, d))) == if d then Wrapped(Grown(ls, u.n, Far(u, d)), rs, c, p)
          else Wrapped(ls, Grown(rs, u.n, Far(u, d)), c, p))
      && Wrapped(ls, rs, turns, Parts(u.l, u.n, u.r, c - turns)) == Wrapped(ls, rs, c, Parts(u.l, u.n, u.r, 0))
  {
    hide Split, Zig;
  }

  lemma ZigIs(g: Goal, t: Shape, d: bool)
    requires t.Branch?
    ensures Near(t, d).Leaf? ==> Zig(g, t, d) == t
    ensures Near(t, d).Branch? ==>
      var u := Near(t, d);
      Zig(g, t, d) == if Heads(g, u.n, d) then Mk(d, Near(u, d), u.n, Mk(!d, Far(t, d), t.n, Far(u, d))) else t
  {}

  lemma BareEnd(d: bool, s: Spine, t: Shape)
    requires t.Branch?
    ensures Near(if d then Assemble(s, t, Bare) else Assemble(Bare, t, s), d) == Near(t, d)
  {}

  lemma AssembleWrapped(ls: Spine, t: Shape, rs: Spine, turns: nat)
    requires t.Branch?
    ensures var p := Wrapped(ls, rs, turns, Parts(t.l, t.n, t.r, 0));
      Assemble(ls, t, rs) == Branch(p.l, p.n, p.r) && p.turns == turns
  {}

  // An access to the tree; what is entered is a new node.
  datatype Op = Look(k: int) | Enter(k: int)

  ghost predicate Accessed(op: Op, t: Shape, u: Shape, turns: nat) {
    if t.Leaf? then turns == 0 && (u == Leaf || (u.l == Leaf && u.r == Leaf))
    else
      var v := Splayed(Key(op.k), t);
      && turns == Split(Key(op.k), t).turns
      && (u == v || (u.Branch? && (u == Placed(v, u.n, false) || u == Placed(v, u.n, true))))
  }

  lemma OpPays(op: Op, t: Shape, u: Shape, turns: nat)
    requires Accessed(op, t, u, turns)
    ensures S(t) <= S(u) && Pow(2, turns) * Weight(u) <= Weight(t) * Pow(S(u), 4)
  {
    hide Splayed, Split, Placed;
    if t.Leaf? {
      SmallPays(u);
    } else {
      hide Weight, Pow;
      var v := Splayed(Key(op.k), t);
      SplayPays(Key(op.k), t);
      if u != v {
        PlacePays(v, u.n, false);
        PlacePays(v, u.n, true);
      }
      AccessPays(Pow(2, turns), Weight(t), Weight(v), Weight(u), S(t), S(u));
    }
  }

  lemma SmallPays(u: Shape)
    requires u == Leaf || (u.Branch? && u.l == Leaf && u.r == Leaf)
    ensures Pow(2, 0) * Weight(u) <= Weight(Leaf) * Pow(S(u), 4)
  {
    NoPower(2);
    NextPower(S(u), 1);
    Cube(S(u));
  }

  lemma RunsOn(m: nat, c: nat, x: nat, y: nat, w: nat, s: nat, t: nat, i: nat)
    requires Pow(2, m) * x <= w * Pow(s, 4 * i) && Pow(2, c) * y <= x * Pow(t, 4) && s <= t
    ensures Pow(2, m + c) * y <= w * Pow(t, 4 * (i + 1))
  {
    hide Pow;
    PowLe(s, t, 4 * i);
    Le(w, w, Pow(s, 4 * i), Pow(t, 4 * i));
    RunPays1(Pow(2, m), Pow(2, c), y, x, w, Pow(t, 4 * i), Pow(t, 4));
    PowAdd(2, m, c);
    PowAdd(t, 4 * i, 4);
  }

  lemma Begins(w: nat, s: nat)
    ensures Pow(2, 0) * w <= w * Pow(s, 4 * 0)
  {
    NoPower(2);
    NoPower(s);
  }

  function Goals(ks: seq<int>): (gs: seq<Goal>)
    ensures |gs| == |ks|
  {
    if ks == [] then [] else [Key(ks[0])] + Goals(ks[1..])
  }

  lemma TurnsNext(ks: seq<int>, i: nat, t: Shape)
    requires i < |ks| && t.Branch?
    ensures Turns(Goals(ks[i..]), t) ==
      Split(Key(ks[i]), t).turns + Turns(Goals(ks[i + 1..]), Splayed(Key(ks[i]), t))
  {
    assert ks[i..][1..] == ks[i + 1..];
  }

  lemma NoTurns(t: Shape)
    ensures t.Branch? ==> Turns(Goals([]), t) == 0
  {}

  lemma Enough(b: nat, e: nat)
    requires b >= 1
    ensures Pow(2, 0) <= Pow(b, e)
  {
    PowLe(1, b, e);
    OnePower(e);
  }

  lemma {:induction false} OnePower(e: nat)
    ensures Pow(1, e) == 1
  {
    if e > 0 {
      OnePower(e - 1);
    }
  }

  lemma {:induction false} SizeInOrder(t: Shape)
    ensures |t.InOrder()| == t.Size()
  {
    if t.Branch? {
      SizeInOrder(t.l);
      SizeInOrder(t.r);
    }
  }

  ghost function MemOf(ns: set<Node>): Mem
    reads ns
  {
    map n | n in ns :: Cell(n.left, n.right)
  }

  // SPLAY_LEFT (d = false) and SPLAY_RIGHT (d = true), read and written.
  method Kid(x: Node, d: bool, ghost ns: set<Node>) returns (v: Node?)
    requires x in ns
    ensures x in MemOf(ns) && v == MemOf(ns)[x].Kid(d)
  {
    v := if d then x.right else x.left;
  }

  method PutKid(x: Node, d: bool, v: Node?, ghost ns: set<Node>)
    requires x in ns
    modifies x
    ensures x in old(MemOf(ns)) && MemOf(ns) == SetKid(old(MemOf(ns)), x, d, v)
  {
    if d {
      x.right := v;
    } else {
      x.left := v;
    }
  }

  lemma MemGrow(ns: set<Node>, n: Node)
    requires n !in ns
    ensures MemOf(ns + {n}) == MemOf(ns)[n := Cell(n.left, n.right)] && MemOf(ns).Keys == ns
  {}

  // The pointer writes of SPLAY_INSERT with elm on the d side of the root x.
  method PlaceLinks(x: Node, elm: Node, d: bool, ghost ns: set<Node>)
    requires x in ns && elm in ns && x != elm
    modifies x, elm
    ensures x in old(MemOf(ns))
    ensures MemOf(ns) ==
      SetKid(SetKid(SetKid(old(MemOf(ns)), elm, d, old(MemOf(ns))[x].Kid(d)), elm, !d, x), x, d, null)
  {
    var near := Kid(x, d, ns);
    PutKid(elm, d, near, ns);
    PutKid(elm, !d, x, ns);
    PutKid(x, d, null, ns);
  }

  class Tree {
    var root: Node?
    ghost var nodes: set<Node>
    ghost var shape: Shape

    ghost predicate Valid()
      reads this, nodes
    {
      && Rep(MemOf(nodes), shape) && shape.Distinct() && shape.Nodes() == nodes
      && root == shape.Root() && Sorted(shape.InOrder())
    }

    constructor ()
      ensures Valid() && nodes == {} && shape == Leaf
    {
      root, nodes, shape := null, {}, Leaf;
    }

    ghost predicate Splitting(ns: set<Node>, header: Node, d: bool, s: Spine, t: Shape, o: Spine)
      reads this`root, ns
    {
      Layout(MemOf(ns), header, d, s, t, o) && root == t.Root()
    }

    // SPLAY_ROTATE_RIGHT (d = false) and SPLAY_ROTATE_LEFT (d = true) with tmp the child of the root.
    method Rotate(d: bool, tmp: Node, ghost ns: set<Node>, ghost header: Node,
        ghost s: Spine, ghost a: Shape, ghost b: Shape, ghost x: Node, ghost c: Shape, ghost o: Spine)
      requires Splitting(ns, header, d, s, Mk(d, Mk(d, a, tmp, b), x, c), o)
      modifies this`root, ns
      ensures Splitting(ns, header, d, s, Mk(d, a, tmp, Mk(!d, c, x, b)), o)
    {
      hide Layout;
      LayoutRotate(MemOf(ns), header, d, s, a, tmp, b, x, c, o);
      var near := Kid(tmp, !d, ns);
      PutKid(root, d, near, ns);
      PutKid(tmp, !d, root, ns);
      root := tmp;
    }

    // SPLAY_LINKLEFT (d = false) and SPLAY_LINKRIGHT (d = true)
    method Link(d: bool, tail: Node, ghost ns: set<Node>, ghost header: Node,
        ghost s: Spine, ghost near: Shape, ghost x: Node, ghost far: Shape, ghost o: Spine)
      returns (tail': Node)
      requires Splitting(ns, header, d, s, Mk(d, near, x, far), o) && tail == s.Tail(header)
      modifies this`root, ns
      ensures Splitting(ns, header, d, Grown(s, x, far), near, o) && tail' == x
    {
      hide Layout;
      LayoutLink(MemOf(ns), header, d, s, near, x, far, o);
      Apartness(MemOf(ns), header, d, s, Mk(d, near, x, far), o);
      PutKid(tail, d, root, ns);
      tail' := root;
      root := Kid(root, d, ns);
    }

    // One turn of the loop of SPLAY (always = false) or SPLAY_MINMAX (always = true) in
    // direction d: rotate if the search goes on in the same direction, then link.
    method Descend(d: bool, k: int, always: bool, tail: Node,
        ghost ns: set<Node>, ghost header: Node, ghost s: Spine, ghost t: Shape, ghost o: Spine)
      returns (more: bool, tail': Node, ghost s': Spine, ghost t': Shape)
      requires Splitting(ns, header, d, s, t, o) && t.Branch? && tail == s.Tail(header)
      modifies this`root, ns
      ensures Splitting(ns, header, d, s', t', o) && t'.Branch? && tail' == s'.Tail(header)
      ensures Middle(d, s', t', o) == Middle(d, s, t, o)
      ensures more ==> t'.Size() < t.Size()
      ensures !more ==> Near(t', d).Leaf?
      ensures var u := Zig(if always then Edge(d) else Key(k), t, d);
        && (more <==> Near(t, d).Branch? && Near(u, d).Branch?)
        && (if more then s' == Grown(s, u.n, Far(u, d)) && t' == Near(u, d) else s' == s && t' == u)
      ensures !always && Toward(k, t.n.key, d) && Beside(s.InOrder(d), k, d) && Sorted(Middle(d, s, t, o)) ==>
        Beside(s'.InOrder(d), k, d) && (!more ==> Toward(k, t'.n.key, d))
    {
      hide Layout, Middle, Whole, Sorted, Beside, Shape.InOrder, Spine.InOrder, Shape.Nodes, Spine.Nodes, MemOf,
        Zig;
      ZigIs(if always then Edge(d) else Key(k), t, d);
      more, tail', s', t' := false, tail, s, t;
      var tmp := RootKid(d, ns, header, s, t, o);
      if tmp == null {
        return;
      }
      ghost var near, x, far := Near(t, d), root, Far(t, d);
      if always || Toward(k, tmp.key, d) {
        ghost var a, b := Near(near, d), Far(near, d);
        RotateInOrder(d, a, tmp, b, x, far);
        Rotate(d, tmp, ns, header, s, a, b, x, far, o);
        t' := Mk(d, a, tmp, Mk(!d, far, x, b));
        MiddleSame(d, s, t, t', o);
        var grand := RootKid(d, ns, header, s, t', o);
        if grand == null {
          return;
        }
      }
      near, x, far := Near(t', d), root, Far(t', d);
      LinkInOrder(d, s, near, x, far, o);
      LinkKeeps(d, s, near, x, far, o, k);
      tail' := Link(d, tail, ns, header, s, near, x, far, o);
      more, s', t' := true, Grown(s, x, far), near;
    }

    // The child of the root in direction d.
    method RootKid(d: bool, ghost ns: set<Node>, ghost header: Node, ghost s: Spine, ghost t: Shape, ghost o: Spine)
      returns (v: Node?)
      requires Splitting(ns, header, d, s, t, o) && t.Branch?
      ensures v == Near(t, d).Root() && root == t.n
    {
      Apartness(MemOf(ns), header, d, s, t, o);
      v := Kid(root, d, ns);
    }

    // SPLAY_ASSEMBLE
    method Join(header: Node, left: Node, right: Node, ghost ns: set<Node>, ghost ls: Spine, ghost t: Shape,
      ghost rs: Spine)
      requires Splitting(ns, header, true, ls, t, rs) && t.Branch?
      requires left == ls.Tail(header) && right == rs.Tail(header)
      modifies ns
      ensures var u := Assemble(ls, t, rs);
        Rep(MemOf(ns), u) && u.Distinct() && u.Nodes() + {header} == ns && header !in u.Nodes()
    {
      hide Layout, Assemble, Rep;
      LayoutAssemble(MemOf(ns), header, ls, t, rs);
      ghost var m := MemOf(ns);
      var v := Kid(root, false, ns);
      PutKid(left, true, v, ns);
      v := Kid(root, true, ns);
      PutKid(right, false, v, ns);
      v := Kid(header, true, ns);
      PutKid(root, false, v, ns);
      v := Kid(header, false, ns);
      PutKid(root, true, v, ns);
      assert MemOf(ns) == AssembleMem(m, header, left, right, root);
      assert m.Keys == ns;
    }

    // SPLAY: the same nodes in the same order; a node with key k comes to the
    // root, and otherwise the root is next to where k belongs.
    method Splay(k: int) returns (ghost turns: nat)
      requires Valid() && root != null
      modifies `root, `shape, nodes
      ensures Valid() && nodes == old(nodes) && shape.InOrder() == old(shape.InOrder())
      ensures Parted(shape, k) && root != null
      ensures old(shape).Branch? && shape == Splayed(Key(k), old(shape)) && turns == Split(Key(k), old(shape)).turns
    {
      hide Layout, Whole, Sorted, Beside, Parted, Assemble, Split, Zig, Spine.Plug;
      turns := 0;
      var header := new Node(k);
      var left, right, more := header, header, true;
      ghost var ns := nodes + {header};
      ghost var ls, t, rs := Bare, shape, Bare;
      ghost var d := false;
      Start(header);
      Unwrapped(Key(k), shape);
      while root.key != k
        invariant Splitting(ns, header, true, ls, t, rs) && t.Branch?
        invariant left == ls.Tail(header) && right == rs.Tail(header)
        invariant Whole(ls, t, rs) == old(shape.InOrder())
        invariant Beside(ls.InOrder(true), k, true) && Beside(rs.InOrder(false), k, false)
        invariant more && old(shape).Branch?
        invariant Split(Key(k), old(shape)) == Wrapped(ls, rs, turns, Split(Key(k), t))
        decreases t.Size()
      {
        ghost var ls0, t0, rs0, n0 := ls, t, rs, turns;
        turns := turns + if Near(t, root.key < k).Branch? then 1 else 0;
        SplitTurn(Key(k), t);
        if k < root.key {
          d := false;
          LayoutFlip(MemOf(ns), header, true, ls, t, rs);
          more, right, rs, t := Descend(false, k, false, right, ns, header, rs, t, ls);
          LayoutFlip(MemOf(ns), header, false, rs, t, ls);
          WrapTurn(Key(k), ls0, t0, rs0, n0, false);
        } else {
          d := true;
          more, left, ls, t := Descend(true, k, false, left, ns, header, ls, t, rs);
          WrapTurn(Key(k), ls0, t0, rs0, n0, true);
        }
        if !more {
          break;
        }
      }
      assert Split(Key(k), old(shape)) == Wrapped(ls, rs, turns, Parts(t.l, t.n, t.r, 0)) by {
        if more {
          SplitHit(Key(k), t);
        }
      }
      AssembleWrapped(ls, t, rs, turns);
      AssembleParted(ls, t, rs, k, d);
      Finish(header, left, right, ns, ls, t, rs);
    }

    // SPLAY_MINMAX: the least (d = false) or greatest (d = true) node comes to the root.
    method SplayMinMax(d: bool) returns (ghost turns: nat)
      requires Valid() && root != null
      modifies `root, `shape, nodes
      ensures old(shape).Branch? && shape == Splayed(Edge(d), old(shape)) && turns == Split(Edge(d), old(shape)).turns
      ensures Valid() && nodes == old(nodes) && shape.InOrder() == old(shape.InOrder())
      ensures root != null && shape.Branch? && Near(shape, d).Leaf?
    {
      hide Layout, Whole, Sorted, Beside, Assemble, Split, Zig, Spine.Plug;
      turns := 0;
      var header := new Node(0);
      var tail, more := header, true;
      ghost var ns := nodes + {header};
      ghost var s, t := Bare, shape;
      Start(header);
      LayoutFlip(MemOf(ns), header, true, s, t, Bare);
      Unwrapped(Edge(d), shape);
      while more
        invariant Splitting(ns, header, d, s, t, Bare) && t.Branch? && tail == s.Tail(header)
        invariant Middle(d, s, t, Bare) == old(shape.InOrder())
        invariant !more ==> Near(t, d).Leaf?
        invariant old(shape).Branch? && Split(Edge(d), old(shape)) ==
          OneSided(d, s, turns, if more then Split(Edge(d), t) else Parts(t.l, t.n, t.r, 0))
        decreases more, t.Size()
      {
        ghost var s0, t0, n0 := s, t, turns;
        turns := turns + if Near(t, d).Branch? then 1 else 0;
        SplitTurn(Edge(d), t);
        more, tail, s, t := Descend(d, 0, true, tail, ns, header, s, t, Bare);
        if d {
          WrapTurn(Edge(d), s0, t0, Bare, n0, true);
        } else {
          WrapTurn(Edge(d), Bare, t0, s0, n0, false);
        }
      }
      BareEnd(d, s, t);
      if d {
        AssembleWrapped(s, t, Bare, turns);
      } else {
        AssembleWrapped(Bare, t, s, turns);
      }
      LayoutFlip(MemOf(ns), header, d, s, t, Bare);
      if d {
        Finish(header, tail, header, ns, s, t, Bare);
      } else {
        Finish(header, header, tail, ns, Bare, t, s);
      }
    }

    // The splay starts with empty partial trees.
    lemma Start(header: Node)
      requires Valid() && root != null && header !in nodes
      ensures Splitting(nodes + {header}, header, true, Bare, shape, Bare)
      ensures shape.Branch? && Whole(Bare, shape, Bare) == shape.InOrder() && Sorted(shape.InOrder())
      ensures Beside(Bare.InOrder(true), root.key, true) && forall k, d :: Beside([], k, d)
    {
      RepFrame(MemOf(nodes), MemOf(nodes + {header}), shape);
    }

    // SPLAY_ASSEMBLE, after which the header is gone.
    method Finish(header: Node, left: Node, right: Node, ghost ns: set<Node>, ghost ls: Spine, ghost t: Shape,
      ghost rs: Spine)
      requires Splitting(ns, header, true, ls, t, rs) && t.Branch?
      requires left == ls.Tail(header) && right == rs.Tail(header)
      requires Sorted(Whole(ls, t, rs)) && nodes + {header} == ns && header !in nodes
      modifies `shape, ns
      ensures Valid() && shape == Assemble(ls, t, rs)
      ensures shape.InOrder() == Whole(ls, t, rs) && nodes == old(nodes)
    {
      hide Layout, Rep, Sorted, Whole;
      Join(header, left, right, ns, ls, t, rs);
      AssembleInOrder(ls, t, rs);
      shape := Assemble(ls, t, rs);
      RepFrame(MemOf(ns), MemOf(nodes), shape);
    }

    // SPLAY_FIND
    method Find(k: int) returns (r: Node?, ghost turns: nat)
      requires Valid()
      modifies `root, `shape, nodes
      ensures if old(shape).Leaf? then shape == Leaf && turns == 0
        else shape == Splayed(Key(k), old(shape)) && turns == Split(Key(k), old(shape)).turns
      ensures Valid() && nodes == old(nodes) && shape.InOrder() == old(shape.InOrder())
      ensures r == null ==> forall n :: n in nodes ==> n.key != k
      ensures r != null ==> r in nodes && r.key == k && r == root
    {
      if root == null {
        return null, 0;
      }
      turns := Splay(k);
      AtRoot(k);
      r := if k == root.key then root else null;
    }

    // Any look-ups, one after the other: in all they take at most
    // (n + 3 m) log (n + 1) turns, for m of them in a tree of n nodes.
    method FindAll(ks: seq<int>) returns (found: seq<bool>, ghost turns: nat)
      requires Valid()
      modifies `root, `shape, nodes
      ensures Valid() && nodes == old(nodes) && shape.InOrder() == old(shape.InOrder())
      ensures |found| == |ks| && forall i :: 0 <= i < |ks| ==> (found[i] <==> exists n :: n in nodes && n.key == ks[i])
      ensures var n := |old(shape.InOrder())|; Pow(2, turns) <= Pow(n + 1, n + 3 * |ks|)
    {
      hide Rep, Sorted, Shape.InOrder, Shape.Nodes, Shape.Distinct, Split, Splayed, Pow, Turns;
      ghost var t, all := shape, nodes;
      SizeInOrder(t);
      found, turns := [], 0;
      for i := 0 to |ks|
        invariant Valid() && nodes == all && shape.InOrder() == t.InOrder() && (shape.Leaf? <==> t.Leaf?)
        invariant |found| == i && forall j :: 0 <= j < i ==> (found[j] <==> exists n :: n in nodes && n.key == ks[j])
        invariant if t.Leaf? then turns == 0 else Turns(Goals(ks), t) == turns + Turns(Goals(ks[i..]), shape)
      {
        ghost var u := shape;
        ghost var c;
        var r;
        r, c := Find(ks[i]);
        found := found + [r != null];
        turns := turns + c;
        if u.Branch? {
          TurnsNext(ks, i, u);
        }
      }
      if t.Branch? {
        assert ks[|ks|..] == [];
        NoTurns(shape);
        RunBound(Goals(ks), t);
      } else {
        Enough(|t.InOrder()| + 1, |t.InOrder()| + 3 * |ks|);
      }
    }

    // After a splay, a node with key k can only be the root.
    lemma AtRoot(k: int)
      requires Valid() && Parted(shape, k)
      ensures root != null && root in nodes && root == shape.n && forall n :: n in nodes && n.key == k ==> n == root
    {
      forall n | n in nodes && n.key == k ensures n == root {
        PartedFind(shape, k, n);
      }
    }

    // SPLAY_INSERT: null, or the node that has the key already.
    method Insert(elm: Node) returns (dup: Node?, ghost turns: nat)
      requires Valid()
      modifies `root, `shape, `nodes, nodes, elm
      ensures Valid()
      ensures old(shape).Leaf? ==> dup == null && turns == 0 && shape == Branch(Leaf, elm, Leaf)
      ensures old(shape).Branch? ==>
        var t := Splayed(Key(elm.key), old(shape));
        && turns == Split(Key(elm.key), old(shape)).turns
        && shape == if dup != null then t else Placed(t, elm, t.n.key < elm.key)
      ensures dup != null ==>
        dup in old(nodes) && dup.key == elm.key && nodes == old(nodes) && shape.InOrder() == old(shape.InOrder())
      ensures dup == null ==>
        && (forall n :: n in old(nodes) ==> n.key != elm.key)
        && nodes == old(nodes) + {elm} && root == elm
    {
      if root == null {
        elm.left, elm.right := null, null;
        root, nodes, shape := elm, {elm}, Branch(Leaf, elm, Leaf);
        return null, 0;
      }
      turns := Splay(elm.key);
      AtRoot(elm.key);
      if elm.key == root.key {
        return root, turns;
      }
      Place(elm, root.key < elm.key);
      dup := null;
    }

    // The new node takes the root's subtree in direction d and the root as its other child.
    method Place(elm: Node, d: bool)
      requires Valid() && Parted(shape, elm.key) && root != null && elm !in nodes && Toward(elm.key, root.key, d)
      modifies `root, `shape, `nodes, root, elm
      ensures Valid() && nodes == old(nodes) + {elm} && root == elm
      ensures old(shape).Branch? && shape == Placed(old(shape), elm, d)
    {
      hide Rep, Sorted, Parted, Shape.Distinct, Shape.InOrder, Shape.Nodes, SetKid, MemOf;
      ghost var t, m, c := shape, MemOf(nodes), Cell(elm.left, elm.right);
      ghost var t' := Mk(d, Near(t, d), elm, Mk(d, Leaf, t.n, Far(t, d)));
      PlaceOrder(t, elm, d);
      MemGrow(nodes, elm);
      PlaceRep(m, c, t, elm, d);
      nodes := nodes + {elm};
      PlaceLinks(root, elm, d, nodes);
      root := elm;
      shape := t';
    }

    // Any look-ups and insertions, one after the other: m of them take at most
    // 4 m log (n + 1) turns in all, besides the potential there was, if the tree
    // has n nodes in the end. Starting empty there is none.
    method Accesses(ops: seq<Op>) returns (ghost turns: nat)
      requires Valid()
      modifies `root, `shape, `nodes, nodes
      ensures Valid() && old(nodes) <= nodes && fresh(nodes - old(nodes))
      ensures forall op :: op in ops && op.Enter? ==> exists n :: n in nodes && n.key == op.k
      ensures var n := |shape.InOrder()|; Pow(2, turns) <= Weight(old(shape)) * Pow(n + 1, 4 * |ops|)
    {
      hide Rep, Sorted, Shape.InOrder, Shape.Nodes, Shape.Distinct, Split, Splayed, Placed, Pow, Weight;
      ghost var w := Weight(shape);
      turns := 0;
      Begins(w, S(shape));
      for i := 0 to |ops|
        invariant Valid() && old(nodes) <= nodes && fresh(nodes - old(nodes))
        invariant forall j :: 0 <= j < i && ops[j].Enter? ==> exists n :: n in nodes && n.key == ops[j].k
        invariant Pow(2, turns) * Weight(shape) <= w * Pow(S(shape), 4 * i)
      {
        ghost var t, n0 := shape, turns;
        ghost var c;
        match ops[i] {
          case Look(k) =>
            var r;
            r, c := Find(k);
          case Enter(k) =>
            var elm := new Node(k);
            var dup;
            dup, c := Insert(elm);
        }
        turns := turns + c;
        OpPays(ops[i], t, shape, c);
        RunsOn(n0, c, Weight(t), Weight(shape), w, S(t), S(shape), i);
      }
      SizeInOrder(shape);
      WeightBounds(shape);
      Le(Pow(2, turns), Pow(2, turns), 1, Weight(shape));
    }

    // SPLAY_REMOVE: elm if there was a node with its key, which is unlinked, and null otherwise.
    method Remove(elm: Node) returns (r: Node?)
      requires Valid()
      modifies `root, `shape, `nodes, nodes
      ensures Valid()
      ensures r == null ==>
        (forall n :: n in old(nodes) ==> n.key != elm.key) && nodes == old(nodes)
        && shape.InOrder() == old(shape.InOrder())
      ensures r != null ==> r == elm
      ensures r != null ==> exists n :: n in old(nodes) && n.key == elm.key && nodes == old(nodes) - {n}
    {
      hide Rep, Sorted, Beside, Parted, Shape.InOrder, Shape.Nodes, Shape.Distinct;
      if root == null {
        assert nodes == {} by { Empty(); }
        return null;
      }
      ghost var _ := Splay(elm.key);
      AtRoot(elm.key);
      if elm.key != root.key {
        return null;
      }
      ghost var n, all := root, nodes;
      CutRoot(elm.key);
      var tmp := root.right;
      if root.left == null {
        root, shape, nodes := tmp, shape.r, shape.r.Nodes();
      } else {
        RemoveBoth(elm.key, tmp);
      }
      assert n in all && nodes == all - {n};
      r := elm;
    }

    lemma Empty()
      requires Valid() && root == null
      ensures nodes == {} && shape == Leaf
    {}

    // The removed root has a left subtree: its greatest node takes the right subtree.
    method RemoveBoth(k: int, tmp: Node?)
      requires Valid() && root != null && root.key == k && root.left != null && root.right == tmp
      modifies `root, `shape, `nodes, nodes
      ensures Valid() && nodes == old(nodes) - {old(root)}
    {
      hide Rep, Sorted, Beside, Parted, Shape.InOrder;
      CutRoot(k);
      ghost var all, far := nodes, shape.r;
      root, shape, nodes := root.left, shape.l, shape.l.Nodes();
      ghost var _ := Splay(k);
      Attach(tmp, far, k);
    }

    // Both subtrees of the root are trees of their own.
    lemma CutRoot(k: int)
      requires Valid() && root != null && root.key == k
      ensures shape.Branch? && root == shape.n && root in nodes && root.left == shape.l.Root()
        && root.right == shape.r.Root()
      ensures Rep(MemOf(shape.l.Nodes()), shape.l) && Rep(MemOf(shape.r.Nodes()), shape.r)
      ensures Sorted(shape.l.InOrder()) && Sorted(shape.r.InOrder())
      ensures Beside(shape.l.InOrder(), k, true) && Beside(shape.r.InOrder(), k, false)
      ensures var l, r := shape.l, shape.r;
        && l.Distinct() && r.Distinct() && l.Nodes() !! r.Nodes() && root !in l.Nodes() && root !in r.Nodes()
        && nodes == l.Nodes() + {root} + r.Nodes() && (root.left == null ==> l.Nodes() == {})
    {
      SortedTree(shape);
      RepFrame(MemOf(nodes), MemOf(shape.l.Nodes()), shape.l);
      RepFrame(MemOf(nodes), MemOf(shape.r.Nodes()), shape.r);
    }

    // The greatest node came to the root: its right subtree is empty and takes the other tree.
    method Attach(tmp: Node?, ghost far: Shape, ghost k: int)
      requires Valid() && root != null && Parted(shape, k) && Beside(shape.InOrder(), k, true)
      requires Rep(MemOf(far.Nodes()), far) && far.Distinct() && far.Root() == tmp && far.Nodes() !! nodes
      requires Sorted(far.InOrder()) && Beside(far.InOrder(), k, false)
      modifies `shape, `nodes, root
      ensures Valid() && nodes == old(nodes) + far.Nodes()
    {
      ghost var t, m, f := shape, MemOf(nodes), MemOf(far.Nodes());
      NothingRight(t, k);
      AttachOrder(t, far, k);
      PutKid(root, true, tmp, nodes);
      nodes := nodes + far.Nodes();
      shape := Branch(t.l, t.n, far);
      RepFrame(m, MemOf(nodes), t.l);
      RepFrame(f, MemOf(nodes), far);
    }

    // SPLAY_NEXT: the node after elm.
    method Next(elm: Node) returns (r: Node?)
      requires Valid() && elm in nodes
      modifies `root, `shape, nodes
      ensures Valid() && nodes == old(nodes) && shape.InOrder() == old(shape.InOrder())
      ensures Follows(shape.InOrder(), elm, r)
    {
      ghost var _ := Splay(elm.key);
      AtRoot(elm.key);
      CutRoot(elm.key);
      r := elm.right;
      ghost var t := shape.r;
      NextOf(shape, elm);
      if r != null {
        RepNodes(MemOf(nodes), shape);
        while r.left != null
          invariant t.Branch? && t.n == r && Rep(MemOf(nodes), t) && t.InOrder()[0] == shape.r.InOrder()[0]
          decreases t.Size()
        {
          r := r.left;
          t := t.l;
        }
        assert t.InOrder()[0] == r;
      }
    }

    // SPLAY_MIN (d = false) and SPLAY_MAX (d = true)
    method MinMax(d: bool) returns (r: Node?)
      requires Valid()
      modifies `root, `shape, nodes
      ensures Valid() && nodes == old(nodes) && shape.InOrder() == old(shape.InOrder())
      ensures var s := shape.InOrder(); r == if s == [] then null else s[if d then |s| - 1 else 0]
    {
      if root == null {
        return null;
      }
      ghost var _ := SplayMinMax(d);
      r := root;
    }

    // SPLAY_FOREACH visits every node once, in order.
    method Each() returns (visited: seq<Node>)
      requires Valid()
      modifies `root, `shape, nodes
      ensures Valid() && nodes == old(nodes) && visited == shape.InOrder() == old(shape.InOrder())
    {
      hide Rep, Sorted, Shape.InOrder, Shape.Nodes, Shape.Distinct;
      ghost var s := shape.InOrder();
      visited := [];
      var x := MinMax(false);
      while x != null
        invariant Valid() && nodes == old(nodes) && shape.InOrder() == s && |visited| <= |s|
          && visited == s[..|visited|]
        invariant x == if |visited| < |s| then s[|visited|] else null
        decreases |s| - |visited|
      {
        InOrderNodes(shape, x);
        ghost var i, y: Node := |visited|, x;
        assert s[i] == y;
        visited := visited + [x];
        x := Next(x);
        assert Follows(s, y, x);
        FollowsAt(s, i, x);
      }
    }
  }

  lemma PlaceOrder(t: Shape, e: Node, d: bool)
    requires Sorted(t.InOrder()) && Parted(t, e.key) && Toward(e.key, t.n.key, d)
    ensures Sorted(Mk(d, Near(t, d), e, Mk(d, Leaf, t.n, Far(t, d))).InOrder())
  {
    hide Sorted, Beside;
    SortedTree(t);
    var l, x, r := t.l.InOrder(), [t.n], t.r.InOrder();
    if d {
      assert t.l.InOrder() + x + Leaf.InOrder() == l + x;
      assert Sorted(l + x) by { BeforeAll(l, t.n); }
      BesideOne(t.n, e.key, true);
      BesideConcat(l, x, e.key, true);
      SortedMake(l + x, e, r);
    } else {
      assert Leaf.InOrder() + x + t.r.InOrder() == x + r;
      assert Sorted(x + r) by { AfterAll(t.n, r); }
      BesideOne(t.n, e.key, false);
      BesideConcat(x, r, e.key, false);
      SortedMake(l, e, x + r);
    }
  }

  lemma BesideOne(n: Node, k: int, d: bool)
    ensures Beside([n], k, d) <==> Toward(n.key, k, !d)
  {
    assert [n][0] == n;
  }

  lemma BeforeAll(a: seq<Node>, n: Node)
    requires Sorted(a) && Beside(a, n.key, true)
    ensures Sorted(a + [n])
  {}

  lemma AfterAll(n: Node, b: seq<Node>)
    requires Sorted(b) && Beside(b, n.key, false)
    ensures Sorted([n] + b)
  {}

  lemma PlaceRep(m: Mem, c: Cell, t: Shape, e: Node, d: bool)
    requires Rep(m, t) && t.Branch? && t.Distinct() && t.Nodes() == m.Keys && e !in m
    ensures t.n in m && m[t.n].Kid(d) == Near(t, d).Root()
    ensures var t' := Mk(d, Near(t, d), e, Mk(d, Leaf, t.n, Far(t, d)));
      && Rep(SetKid(SetKid(SetKid(m[e := c], e, d, m[t.n].Kid(d)), e, !d, t.n), t.n, d, null), t')
      && t'.Distinct() && t'.Nodes() == t.Nodes() + {e}
  {
    hide Shape.InOrder;
    var m' := SetKid(SetKid(SetKid(m[e := c], e, d, m[t.n].Kid(d)), e, !d, t.n), t.n, d, null);
    RepFrame(m, m', t.l);
    RepFrame(m, m', t.r);
    PlaceNodes(t, e, d);
    assert Rep(m', Mk(d, Leaf, t.n, Far(t, d)));
  }

  lemma PlaceNodes(t: Shape, e: Node, d: bool)
    requires t.Branch? && t.Distinct() && e !in t.Nodes()
    ensures var t' := Mk(d, Near(t, d), e, Mk(d, Leaf, t.n, Far(t, d)));
      t'.Distinct() && t'.Nodes() == t.Nodes() + {e}
  {
    var f := Far(t, d);
    assert t.n !in f.Nodes() && f.Distinct();
    var u := Mk(d, Leaf, t.n, f);
    assert u.Nodes() == {t.n} + f.Nodes();
    assert u.Distinct();
  }

  lemma BesideParts(a: seq<Node>, b: seq<Node>, k: int, d: bool)
    requires Beside(a + b, k, d)
    ensures Beside(a, k, d) && Beside(b, k, d)
  {
    forall i | 0 <= i < |a| ensures (a + b)[i] == a[i] {}
    forall i | 0 <= i < |b| ensures (a + b)[|a| + i] == b[i] {}
  }

  lemma BothSides(s: seq<Node>, k: int)
    requires Beside(s, k, true) && Beside(s, k, false)
    ensures s == []
  {
    if s != [] {
      First(s, k, true);
      First(s, k, false);
      assert false;
    }
  }

  lemma First(s: seq<Node>, k: int, d: bool)
    requires Beside(s, k, d) && s != []
    ensures Toward(s[0].key, k, !d)
  {}

  lemma NothingRight(t: Shape, k: int)
    requires Parted(t, k) && Beside(t.InOrder(), k, true)
    ensures t.r == Leaf && t.n.key < k
  {
    BesideParts(t.l.InOrder() + [t.n], t.r.InOrder(), k, true);
    BesideParts(t.l.InOrder(), [t.n], k, true);
    BesideOne(t.n, k, true);
    BothSides(t.r.InOrder(), k);
  }

  lemma AttachOrder(t: Shape, far: Shape, k: int)
    requires t.Branch? && t.r == Leaf && Sorted(t.InOrder()) && t.n.key < k
    requires Sorted(far.InOrder()) && Beside(far.InOrder(), k, false)
    ensures Sorted(Branch(t.l, t.n, far).InOrder())
  {
    SortedTree(t);
    SortedMake(t.l.InOrder(), t.n, far.InOrder());
  }

  lemma SortedUnique(s: seq<Node>, i: nat, j: nat)
    requires Sorted(s) && i < |s| && j < |s| && s[i] == s[j]
    ensures i == j
  {}

  // r comes after n in s; it is null when n is the last.
  ghost predicate Follows(s: seq<Node>, n: Node, r: Node?) {
    forall i :: 0 <= i < |s| && s[i] == n ==> r == if i + 1 < |s| then s[i + 1] else null
  }

  lemma FollowsAt(s: seq<Node>, i: nat, r: Node?)
    requires i < |s| && Follows(s, s[i], r)
    ensures r == if i + 1 < |s| then s[i + 1] else null
  {}

  // The node after the root of t, in order, is the first of its right subtree.
  lemma NextOf(t: Shape, n: Node)
    requires t.Branch? && t.n == n && Sorted(t.InOrder())
    ensures forall i :: 0 <= i < |t.InOrder()| && t.InOrder()[i] == n ==>
      && (i + 1 < |t.InOrder()| <==> t.r.Branch?)
      && (t.r.Branch? ==> t.r.InOrder() != [] && t.InOrder()[i + 1] == t.r.InOrder()[0])
  {
    var s, j := t.InOrder(), |t.l.InOrder()|;
    assert s[j] == n;
    forall i | 0 <= i < |s| && s[i] == n ensures i == j {
      SortedUnique(s, i, j);
    }
    assert t.r.Branch? ==> t.r.InOrder()[|t.r.l.InOrder()|] == t.r.n;
  }

  lemma {:induction false} RepNodes(m: Mem, t: Shape)
    requires Rep(m, t)
    ensures t.Nodes() <= m.Keys
  {
    if t.Branch? {
      RepNodes(m, t.l);
      RepNodes(m, t.r);
    }
  }

  lemma LayoutFlip(m: Mem, header: Node, d: bool, s: Spine, t: Shape, o: Spine)
    requires Layout(m, header, d, s, t, o)
    ensures Layout(m, header, !d, o, t, s)
  {}

  lemma Apartness(m: Mem, header: Node, d: bool, s: Spine, t: Shape, o: Spine)
    requires Layout(m, header, d, s, t, o) && t.Branch?
    ensures t.n in m && t.n != s.Tail(header) && t.n != header && header in m && s.Tail(header) in m
    ensures m[t.n].Kid(d) == Near(t, d).Root()
  {
    TailIn(s, header);
  }

  lemma MiddleSame(d: bool, s: Spine, t: Shape, t': Shape, o: Spine)
    requires t.InOrder() == t'.InOrder()
    ensures Middle(d, s, t, o) == Middle(d, s, t', o)
  {}
}
