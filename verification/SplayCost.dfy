// What splaying does to a shape, turn by turn, and what it costs: at most
// 3 log (n + 1) turns each time, once the turns of other times are counted in.
module SplayCost {
  import opened SplayShape

  // What is looked for: a key, or the first (false) or last (true) node.
  datatype Goal = Key(k: int) | Edge(d: bool)

  // The goal lies in direction d of a node.
  predicate Heads(g: Goal, n: Node, d: bool) {
    match g
    case Key(k) => Toward(k, n.key, d)
    case Edge(e) => d == e
  }

  predicate Hit(g: Goal, n: Node) { !Heads(g, n, false) && !Heads(g, n, true) }

  // The root's child in direction d comes up.
  function Rotated(t: Shape, d: bool): (u: Shape)
    requires t.Branch? && Near(t, d).Branch?
    ensures u.Branch? && u.Size() == t.Size()
  {
    var u := Near(t, d);
    Mk(d, Near(u, d), u.n, Mk(!d, Far(t, d), t.n, Far(u, d)))
  }

  // The first half of a turn: a rotation if the search goes on in the same direction.
  function Zig(g: Goal, t: Shape, d: bool): (u: Shape)
    requires t.Branch?
    ensures u.Branch? && u.Size() == t.Size()
  {
    if Near(t, d).Branch? && Heads(g, Near(t, d).n, d) then Rotated(t, d) else t
  }

  lemma NearSmaller(t: Shape, d: bool)
    requires t.Branch?
    ensures Near(t, d).Size() + Far(t, d).Size() + 1 == t.Size()
  {}

  // The smaller nodes, the node that comes to the root, the greater ones, and
  // how many turns have moved something.
  datatype Parts = Parts(l: Shape, n: Node, r: Shape, turns: nat) {
    // The part that is built in direction d: the left one for d = true.
    function Part(d: bool): Shape { if d then l else r }

    // A node with its far subtree comes before the part in direction d.
    function Under(d: bool, x: Node, far: Shape): Parts {
      var p := Mk(d, Part(d), x, far);
      if d then Parts(p, n, r, turns + 1) else Parts(l, n, p, turns + 1)
    }
  }

  function Way(g: Goal, t: Shape): bool
    requires t.Branch?
  {
    Heads(g, t.n, true)
  }

  function Split(g: Goal, t: Shape): Parts
    requires t.Branch?
    decreases t.Size()
  {
    var d := Way(g, t);
    var u := Zig(g, t, d);
    NearSmaller(u, d);
    if Hit(g, t.n) || Near(t, d).Leaf? then Parts(t.l, t.n, t.r, 0)
    else if Near(u, d).Leaf? then Parts(u.l, u.n, u.r, 1)
    else Split(g, Near(u, d)).Under(d, u.n, Far(u, d))
  }

  // The tree after a splay.
  function Splayed(g: Goal, t: Shape): (u: Shape)
    requires t.Branch?
    ensures u.Branch?
  {
    var p := Split(g, t);
    Branch(p.l, p.n, p.r)
  }

  // ---- the cost ----

  function S(t: Shape): nat { t.Size() + 1 }

  // The potential, as a power of two: the product of the sizes of all subtrees.
  function Weight(t: Shape): nat { if t.Leaf? then 1 else Weight(t.l) * Weight(t.r) * S(t) }

  function Pow(b: nat, e: nat): nat { if e == 0 then 1 else b * Pow(b, e - 1) }

  lemma Le(a: nat, b: nat, c: nat, d: nat)
    requires a <= b && c <= d
    ensures a * c <= b * d
  {
    assert a * c <= b * c;
    assert b * c <= b * d;
  }

  lemma MkWeight(d: bool, a: Shape, n: Node, b: Shape)
    ensures Weight(Mk(d, a, n, b)) == Weight(a) * Weight(b) * (S(a) + S(b)) && S(Mk(d, a, n, b)) == S(a) + S(b)
  {
    var t, x, y := Mk(d, a, n, b), Weight(a), Weight(b);
    assert S(t) == S(a) + S(b);
    assert Weight(t) == (if d then y * x else x * y) * S(t);
    assert x * y == y * x;
  }

  // What the parts weigh, and the turns paid.
  function Bill(p: Parts): nat { Pow(2, p.turns) * (Weight(p.l) * Weight(p.r)) }

  lemma Regroup(k: nat, a: nat, b: nat, f: nat, s: nat)
    ensures (2 * k) * ((a * f * s) * b) == 2 * ((k * (a * b)) * (f * s))
    ensures (2 * k) * (a * (b * f * s)) == 2 * ((k * (a * b)) * (f * s))
  {}

  lemma UnderBill(p: Parts, d: bool, x: Node, far: Shape)
    ensures Bill(p.Under(d, x, far)) == 2 * (Bill(p) * (Weight(far) * (S(p.Part(d)) + S(far))))
  {
    hide Weight, S;
    MkWeight(d, p.Part(d), x, far);
    Regroup(Pow(2, p.turns), Weight(p.l), Weight(p.r), Weight(far), S(p.Part(d)) + S(far));
  }

  lemma {:induction false} SplitSizes(g: Goal, t: Shape)
    requires t.Branch?
    ensures S(Split(g, t).l) + S(Split(g, t).r) == S(t)
    decreases t.Size()
  {
    var d := Way(g, t);
    var u := Zig(g, t, d);
    NearSmaller(u, d);
    if !Hit(g, t.n) && Near(t, d).Branch? && Near(u, d).Branch? {
      SplitSizes(g, Near(u, d));
    }
  }

  // ---- the arithmetic of the turns ----

  lemma Pair(x: nat, y: nat)
    ensures 4 * (x * y) <= (x + y) * (x + y)
  {
    Square(x - y);
    assert (x + y) * (x + y) - 4 * (x * y) == (x - y) * (x - y);
  }

  lemma Square(x: int)
    ensures x * x >= 0
  {}

  lemma Le3(a: nat, b: nat, c: nat, d: nat, e: nat, f: nat)
    requires a <= b && c <= d && e <= f
    ensures a * c * e <= b * d * f
  {
    Le(a, b, c, d);
    Le(a * c, b * d, e, f);
  }

  // Two turns' worth of levels in one direction.
  lemma SameWay(a: nat, w: nat, p: nat, q: nat, x: nat, s: nat, t: nat)
    requires a <= w * (p * p) && x <= p <= s && t == p + q
    ensures 2 * (a * (q * (x + q))) <= (w * s * t) * (t * t)
  {
    Le(q, q, x + q, t);
    Le(a, w * (p * p), q * (x + q), q * t);
    SameWay1(w, p, q, t);
    Pair(p, q);
    Le3(w, w, p, s, t, t);
    Le(w * p * t, w * s * t, 2 * (p * q), t * t);
  }

  lemma SameWay1(w: nat, p: nat, q: nat, t: nat)
    ensures 2 * ((w * (p * p)) * (q * t)) == (w * p * t) * (2 * (p * q))
  {}

  lemma SameScaled(a: nat, w: nat, h: nat, c: nat, p: nat, q: nat, x: nat, s: nat, t: nat)
    requires a <= w * (p * p) && x <= p <= s && t == p + q
    ensures 2 * (a * ((c * h * q) * (x + q))) <= ((w * h * s) * c * t) * (t * t)
  {
    SameWay(a, w, p, q, x, s, t);
    Le(h * c, h * c, 2 * (a * (q * (x + q))), (w * s * t) * (t * t));
    SameScaled1(a, w, h, c, q, x + q, s, t);
  }

  lemma SameScaled1(a: nat, w: nat, h: nat, c: nat, q: nat, y: nat, s: nat, t: nat)
    ensures (h * c) * (2 * (a * (q * y))) == 2 * (a * ((c * h * q) * y))
    ensures (h * c) * ((w * s * t) * (t * t)) == ((w * h * s) * c * t) * (t * t)
  {}

  // One level in one direction, and what the next turn saves: seen from below.
  lemma OneWay(a: nat, w: nat, f: nat, d: nat, x: nat, y: nat, sa: nat, m: nat, s: nat, t: nat)
    requires a <= w * (d * d) && x + y == d && s == d + sa && t == s + m
    ensures 2 * (2 * (a * (f * (x + sa)))) * (y + m) <= (w * f * s) * (t * t * t)
  {
    Pair(x + sa, y + m);
    Le(d, s, d, t);
    Le(w, w, d * d, s * t);
    Le(a, w * (s * t), f, f);
    Le(a * f, w * (s * t) * f, 4 * ((x + sa) * (y + m)), t * t);
    OneWay1(a, w, f, x + sa, y + m, s, t);
  }

  lemma OneWay1(a: nat, w: nat, f: nat, u: nat, v: nat, s: nat, t: nat)
    ensures 2 * (2 * (a * (f * u))) * v == (a * f) * (4 * (u * v))
    ensures (w * (s * t) * f) * (t * t) == (w * f * s) * (t * t * t)
  {}

  // Two levels in one direction, seen from below.
  lemma TwoWay(a: nat, w: nat, f: nat, h: nat, e: nat, x: nat, y: nat, q: nat, m: nat, sd: nat, s: nat, t: nat)
    requires a <= w * (e * e) && x + y == e <= sd && s == e + q && t == s + m
    ensures 2 * (2 * (a * ((f * h * q) * (x + q)))) * (y + m) <= ((w * h * sd) * f * s) * (t * t * t)
  {
    Pair(x + q, y + m);
    Le(a, w * (e * e), f * h * q, f * h * q);
    Le3(e, sd, e, t, q, s);
    Le(w * f * h, w * f * h, e * e * q, sd * t * s);
    TwoWay1(w, f, h, e, q);
    Le(a * (f * h * q), (w * f * h) * (sd * t * s), 4 * ((x + q) * (y + m)), t * t);
    TwoWay2(a, f * h * q, x + q, y + m);
    TwoWay3(w, f, h, sd, s, t);
  }

  lemma TwoWay1(w: nat, f: nat, h: nat, e: nat, q: nat)
    ensures (w * (e * e)) * (f * h * q) == (w * f * h) * (e * e * q)
  {}

  lemma TwoWay2(a: nat, g: nat, u: nat, v: nat)
    ensures 2 * (2 * (a * (g * u))) * v == (a * g) * (4 * (u * v))
  {}

  lemma TwoWay3(w: nat, f: nat, h: nat, sd: nat, s: nat, t: nat)
    ensures ((w * f * h) * (sd * t * s)) * (t * t) == ((w * h * sd) * f * s) * (t * t * t)
  {}

  // The search ends below: at the root, or after a rotation.
  lemma StopsBelow(f: nat, s: nat, m: nat, t: nat)
    requires s >= 2 && t == s + m
    ensures 2 * f * (1 + m) <= (1 * f * s) * (t * t * t)
  {
    Le3(1, t, 1, t, 1 + m, t);
    Le(2, s, 1 + m, t * t * t);
    Le(f, f, 2 * (1 + m), s * (t * t * t));
    StopsBelow1(f, s, 1 + m, t * t * t);
  }

  lemma StopsBelow1(f: nat, s: nat, u: nat, c: nat)
    ensures f * (2 * u) == 2 * f * u && f * (s * c) == (1 * f * s) * c
  {}

  lemma TurnsBelow(f: nat, h: nat, q: nat, m: nat, sd: nat, s: nat, t: nat)
    requires sd >= 2 && 2 <= s && q <= s && t == s + m
    ensures 2 * (2 * (f * h * q)) * (1 + m) <= ((1 * h * sd) * f * s) * (t * t * t)
  {
    Le3(2, t, 1, t, 1 + m, t);
    Le(2, sd, 2 * (1 + m), t * t * t);
    Le(f * h * q, f * h * s, 4 * (1 + m), sd * (t * t * t)) by { Le(f * h, f * h, q, s); }
    TurnsBelow1(f, h, q, 1 + m, sd, s, t * t * t);
  }

  lemma TurnsBelow1(f: nat, h: nat, q: nat, u: nat, sd: nat, s: nat, c: nat)
    ensures (f * h * q) * (4 * u) == 2 * (2 * (f * h * q)) * u
    ensures (f * h * s) * (sd * c) == ((1 * h * sd) * f * s) * c
  {}

  // The search ends at the root, or after a rotation.
  lemma Stops(a: nat, b: nat, t: nat)
    requires t >= 1
    ensures a * b <= (a * b * t) * (t * t)
  {
    Le(1, t, 1, t);
    Le(1, t, 1, t * t);
    Le(a * b, a * b, 1, t * (t * t));
    assert (a * b) * (t * (t * t)) == (a * b * t) * (t * t);
  }

  lemma TurnsOnce(c: nat, h: nat, q: nat, s: nat, t: nat)
    requires 2 <= s && q <= t && t >= 1
    ensures 2 * (c * h * q) <= ((1 * h * s) * c * t) * (t * t)
  {
    Le(1, t, 1, t);
    Le3(2, s, q, t, 1, t * t);
    Le(c * h, c * h, 2 * q * 1, s * t * (t * t));
    TurnsOnce1(c, h, q, s, t, t * t);
  }

  lemma TurnsOnce1(c: nat, h: nat, q: nat, s: nat, t: nat, v: nat)
    ensures (c * h) * (2 * q * 1) == 2 * (c * h * q)
    ensures (c * h) * (s * t * v) == ((1 * h * s) * c * t) * v
  {}

  // The node looked for is the root's child.
  lemma Hits(a: nat, c: nat, x: nat, sc: nat, s: nat, t: nat)
    requires 2 <= s && x + sc <= t && t >= 1
    ensures 2 * (a * (c * (x + sc))) <= ((a * s) * c * t) * (t * t)
  {
    Le(1, t, 1, t);
    Le3(2, s, x + sc, t, 1, t * t);
    Le(a * c, a * c, 2 * (x + sc) * 1, s * t * (t * t));
    Hits1(a, c, x + sc, s, t, t * t);
  }

  lemma Hits1(a: nat, c: nat, u: nat, s: nat, t: nat, v: nat)
    ensures (a * c) * (2 * u * 1) == 2 * (a * (c * u))
    ensures (a * c) * (s * t * v) == ((a * s) * c * t) * v
  {}

  // The search turns below the root.
  lemma Turned(a: nat, w: nat, c: nat, u: nat, t: nat)
    requires 2 * a * u <= w * (t * t * t)
    ensures 2 * (a * (c * u)) <= (w * c * t) * (t * t)
  {
    Le(c, c, 2 * a * u, w * (t * t * t));
    Turned1(a, w, c, u, t);
  }

  lemma Turned1(a: nat, w: nat, c: nat, u: nat, t: nat)
    ensures c * (2 * a * u) == 2 * (a * (c * u)) && c * (w * (t * t * t)) == (w * c * t) * (t * t)
  {}

  // ---- the turns ----

  // The root of t and its child in direction d, by their subtrees.
  lemma Levels(t: Shape, d: bool)
    requires t.Branch?
    ensures Weight(t) == Weight(Near(t, d)) * Weight(Far(t, d)) * S(t)
    ensures S(t) == S(Near(t, d)) + S(Far(t, d)) >= 2
    ensures Weight(Leaf) == 1 && S(Leaf) == 1
  {
    MkWeight(d, Near(t, d), t.n, Far(t, d));
    assert t == Mk(d, Near(t, d), t.n, Far(t, d));
  }

  lemma RotatedLevels(t: Shape, d: bool)
    requires t.Branch? && Near(t, d).Branch?
    ensures var u, v := Rotated(t, d), Near(t, d);
      && Near(u, d) == Near(v, d) && S(Far(u, d)) == S(Far(t, d)) + S(Far(v, d))
      && Weight(Far(u, d)) == Weight(Far(t, d)) * Weight(Far(v, d)) * (S(Far(t, d)) + S(Far(v, d)))
  {
    var v := Near(t, d);
    MkWeight(!d, Far(t, d), t.n, Far(v, d));
  }

  // A split that has not gone below t.
  lemma StillBill(t: Shape, d: bool, turns: nat)
    requires t.Branch?
    ensures Bill(Parts(t.l, t.n, t.r, turns)) == Pow(2, turns) * (Weight(Near(t, d)) * Weight(Far(t, d)))
    ensures Parts(t.l, t.n, t.r, turns).Part(d) == Far(t, d) && Parts(t.l, t.n, t.r, turns).Part(!d) == Near(t, d)
    ensures Pow(2, 0) == 1 && Pow(2, 1) == 2
  {
    assert Pow(2, 1) == 2 * Pow(2, 0);
    assert Weight(t.l) * Weight(t.r) == Weight(t.r) * Weight(t.l);
  }

  // What splitting leaves to pay for is covered by the potential of t and twice
  // the logarithm of its size.
  lemma {:induction false} Affords(g: Goal, t: Shape)
    requires t.Branch?
    ensures Bill(Split(g, t)) <= Weight(t) * (S(t) * S(t))
    decreases t.Size(), 1
  {
    hide Weight, S, Bill, Pow, Parts.Under, Rotated;
    var d := Way(g, t);
    var near, far := Near(t, d), Far(t, d);
    Levels(t, d);
    NearSmaller(t, d);
    if Hit(g, t.n) || near.Leaf? {
      StillBill(t, d, 0);
      Stops(Weight(near), Weight(far), S(t));
    } else if Heads(g, near.n, d) {
      AffordsSame(g, t);
    } else if Hit(g, near.n) {
      AffordsHit(g, t);
    } else {
      var p := Split(g, near);
      Owes(g, near, S(far));
      UnderBill(p, d, t.n, far);
      Turned(Bill(p), Weight(near), Weight(far), S(p.Part(d)) + S(far), S(t));
    }
  }

  lemma AffordsHit(g: Goal, t: Shape)
    requires t.Branch? && !Hit(g, t.n) && Near(t, Way(g, t)).Branch? && Hit(g, Near(t, Way(g, t)).n)
    ensures Bill(Split(g, t)) <= Weight(t) * (S(t) * S(t))
  {
    hide Weight, S, Bill, Pow, Parts.Under, Rotated;
    var d := Way(g, t);
    var near, far := Near(t, d), Far(t, d);
    var p := Split(g, near);
    Levels(t, d);
    Levels(near, d);
    StillBill(near, d, 0);
    UnderBill(p, d, t.n, far);
    Hits(Bill(p), Weight(far), S(p.Part(d)), S(far), S(near), S(t));
  }

  lemma {:induction false} AffordsSame(g: Goal, t: Shape)
    requires t.Branch? && !Hit(g, t.n) && Near(t, Way(g, t)).Branch? && Heads(g, Near(t, Way(g, t)).n, Way(g, t))
    ensures Bill(Split(g, t)) <= Weight(t) * (S(t) * S(t))
    decreases t.Size(), 0
  {
    hide Weight, S, Bill, Pow, Parts.Under, Rotated;
    var d := Way(g, t);
    var near, far, u := Near(t, d), Far(t, d), Rotated(t, d);
    var a, b := Near(near, d), Far(near, d);
    Levels(t, d);
    Levels(near, d);
    NearSmaller(t, d);
    NearSmaller(near, d);
    RotatedLevels(t, d);
    var q := S(far) + S(b);
    if a.Leaf? {
      StillBill(u, d, 1);
      TurnsOnce(Weight(far), Weight(b), q, S(near), S(t));
    } else {
      var p := Split(g, a);
      Affords(g, a);
      SplitSizes(g, a);
      UnderBill(p, d, u.n, Far(u, d));
      SameScaled(Bill(p), Weight(a), Weight(b), Weight(far), S(a), q, S(p.Part(d)), S(near), S(t));
    }
  }

  // The same from one level below, where the next node goes to the other part,
  // which has m more to carry; a turn is saved.
  lemma {:induction false} Owes(g: Goal, t: Shape, m: nat)
    requires t.Branch? && !Hit(g, t.n)
    ensures var p, s := Split(g, t), S(t) + m;
      2 * Bill(p) * (S(p.Part(!Way(g, t))) + m) <= Weight(t) * (s * s * s)
    decreases t.Size(), 1
  {
    hide Weight, S, Bill, Pow, Parts.Under, Rotated;
    var d := Way(g, t);
    var near, far, s := Near(t, d), Far(t, d), S(t) + m;
    Levels(t, d);
    NearSmaller(t, d);
    if near.Leaf? {
      StillBill(t, d, 0);
      StopsBelow(Weight(far), S(t), m, s);
    } else if Heads(g, near.n, d) {
      OwesSame(g, t, m);
    } else {
      var p := Split(g, near);
      Affords(g, near);
      SplitSizes(g, near);
      UnderBill(p, d, t.n, far);
      UnderOther(p, d, t.n, far);
      OneWay(Bill(p), Weight(near), Weight(far), S(near), S(p.Part(d)), S(p.Part(!d)), S(far), m, S(t), s);
    }
  }

  lemma UnderOther(p: Parts, d: bool, x: Node, far: Shape)
    ensures p.Under(d, x, far).Part(!d) == p.Part(!d)
  {}

  lemma {:induction false} OwesSame(g: Goal, t: Shape, m: nat)
    requires t.Branch? && !Hit(g, t.n) && Near(t, Way(g, t)).Branch? && Heads(g, Near(t, Way(g, t)).n, Way(g, t))
    ensures var p, s := Split(g, t), S(t) + m;
      2 * Bill(p) * (S(p.Part(!Way(g, t))) + m) <= Weight(t) * (s * s * s)
    decreases t.Size(), 0
  {
    hide Weight, S, Bill, Pow, Parts.Under, Rotated;
    var d := Way(g, t);
    var near, far, u, s := Near(t, d), Far(t, d), Rotated(t, d), S(t) + m;
    var a, b := Near(near, d), Far(near, d);
    Levels(t, d);
    Levels(near, d);
    NearSmaller(t, d);
    NearSmaller(near, d);
    RotatedLevels(t, d);
    var q := S(far) + S(b);
    if a.Leaf? {
      StillBill(u, d, 1);
      TurnsBelow(Weight(far), Weight(b), q, m, S(near), S(t), s);
    } else {
      var p := Split(g, a);
      Affords(g, a);
      SplitSizes(g, a);
      UnderBill(p, d, u.n, Far(u, d));
      UnderOther(p, d, u.n, Far(u, d));
      TwoWay(Bill(p), Weight(a), Weight(far), Weight(b), S(a), S(p.Part(d)), S(p.Part(!d)), q, m, S(near), S(t), s);
    }
  }

  // One splay: the turns, and what the potential becomes, against what it was
  // and three times the logarithm of n + 1.
  lemma SplayPays(g: Goal, t: Shape)
    requires t.Branch?
    ensures Splayed(g, t).Size() == t.Size()
    ensures Pow(2, Split(g, t).turns) * Weight(Splayed(g, t)) <= Weight(t) * Pow(S(t), 3)
  {
    hide Weight, Pow, Split;
    var p, u := Split(g, t), Splayed(g, t);
    Affords(g, t);
    SplitSizes(g, t);
    Levels(u, true);
    StillBill(u, true, 0);
    SplayPays1(Pow(2, p.turns), Weight(p.l), Weight(p.r), Weight(t), S(t));
    Cube(S(t));
    assert Weight(u) == Weight(p.r) * Weight(p.l) * S(t);
  }

  lemma SplayPays1(k: nat, a: nat, b: nat, w: nat, s: nat)
    requires k * (a * b) <= w * (s * s)
    ensures k * (b * a * s) <= w * (s * s * s)
  {
    Le(k * (a * b), w * (s * s), s, s);
    assert k * (a * b) * s == k * (b * a * s);
    assert w * (s * s) * s == w * (s * s * s);
  }

  lemma Cube(s: nat)
    ensures Pow(s, 3) == s * s * s
  {
    assert Pow(s, 1) == s * Pow(s, 0) == s;
    assert Pow(s, 2) == s * s;
    assert s * (s * s) == s * s * s;
  }

  lemma {:induction false} PowAdd(b: nat, m: nat, n: nat)
    ensures Pow(b, m + n) == Pow(b, m) * Pow(b, n)
  {
    if m > 0 {
      PowAdd(b, m - 1, n);
      assert b * (Pow(b, m - 1) * Pow(b, n)) == (b * Pow(b, m - 1)) * Pow(b, n);
    }
  }

  lemma {:induction false} PowLe(a: nat, b: nat, n: nat)
    requires a <= b
    ensures Pow(a, n) <= Pow(b, n)
  {
    if n > 0 {
      PowLe(a, b, n - 1);
      Le(a, b, Pow(a, n - 1), Pow(b, n - 1));
    }
  }

  lemma {:induction false} WeightBounds(t: Shape)
    ensures 1 <= Weight(t) <= Pow(S(t), t.Size())
  {
    if t.Branch? {
      WeightBounds(t.l);
      WeightBounds(t.r);
      var s, x, y := S(t), t.l.Size(), t.r.Size();
      PowLe(S(t.l), s, x);
      PowLe(S(t.r), s, y);
      Le3(Weight(t.l), Pow(s, x), Weight(t.r), Pow(s, y), s, s);
      Le3(1, Weight(t.l), 1, Weight(t.r), 1, s);
      PowAdd(s, x, y);
      assert Pow(s, t.Size()) == s * Pow(s, x + y);
    }
  }

  // ---- many splays ----

  function After(gs: seq<Goal>, t: Shape): Shape
    requires t.Branch?
    ensures After(gs, t).Branch?
  {
    if gs == [] then t else After(gs[1..], Splayed(gs[0], t))
  }

  function Turns(gs: seq<Goal>, t: Shape): nat
    requires t.Branch?
    decreases |gs|
  {
    if gs == [] then 0 else Split(gs[0], t).turns + Turns(gs[1..], Splayed(gs[0], t))
  }

  lemma {:induction false} RunPays(gs: seq<Goal>, t: Shape)
    requires t.Branch?
    ensures Pow(2, Turns(gs, t)) * Weight(After(gs, t)) <= Weight(t) * Pow(S(t), 3 * |gs|)
    decreases |gs|
  {
    hide Weight, Pow, Split;
    if gs == [] {
      NoPower(2);
      NoPower(S(t));
    } else {
      var u, rest := Splayed(gs[0], t), gs[1..];
      SplayPays(gs[0], t);
      RunPays(rest, u);
      PowAdd(2, Split(gs[0], t).turns, Turns(rest, u));
      PowAdd(S(t), 3, 3 * |rest|);
      RunPays1(Pow(2, Split(gs[0], t).turns), Pow(2, Turns(rest, u)), Weight(After(rest, u)), Weight(u), Weight(t),
        Pow(S(t), 3), Pow(S(t), 3 * |rest|));
    }
  }

  lemma NoPower(b: nat)
    ensures Pow(b, 0) == 1
  {}

  lemma RunPays1(k: nat, l: nat, z: nat, u: nat, w: nat, c: nat, p: nat)
    requires k * u <= w * c && l * z <= u * p
    ensures (k * l) * z <= w * (c * p)
  {
    Le(k, k, l * z, u * p);
    Le(k * u, w * c, p, p);
    assert k * (l * z) == (k * l) * z && k * (u * p) == k * u * p && w * c * p == w * (c * p);
  }

  // m splays of a tree of n nodes take, in all, at most (n + 3 m) log (n + 1)
  // turns, whatever the tree and whatever is looked for.
  lemma RunBound(gs: seq<Goal>, t: Shape)
    requires t.Branch?
    ensures Pow(2, Turns(gs, t)) <= Pow(t.Size() + 1, t.Size() + 3 * |gs|)
  {
    hide Weight, Pow, Turns, After;
    RunPays(gs, t);
    WeightBounds(t);
    WeightBounds(After(gs, t));
    PowAdd(S(t), t.Size(), 3 * |gs|);
    Le(Pow(2, Turns(gs, t)), Pow(2, Turns(gs, t)), 1, Weight(After(gs, t)));
    Le(Weight(t), Pow(S(t), t.Size()), Pow(S(t), 3 * |gs|), Pow(S(t), 3 * |gs|));
  }

  // ---- insertion ----

  // The root's subtree in direction d goes to e, and the root under e.
  function Placed(t: Shape, e: Node, d: bool): (u: Shape)
    requires t.Branch?
    ensures u.Branch?
  {
    Mk(d, Near(t, d), e, Mk(d, Leaf, t.n, Far(t, d)))
  }

  lemma PlacePays(t: Shape, e: Node, d: bool)
    requires t.Branch?
    ensures S(Placed(t, e, d)) == S(t) + 1 && Weight(Placed(t, e, d)) <= Weight(t) * (S(t) + 1)
  {
    hide Weight, S;
    var near, far := Near(t, d), Far(t, d);
    Levels(t, d);
    MkWeight(d, Leaf, t.n, far);
    MkWeight(d, near, e, Mk(d, Leaf, t.n, far));
    SizePositive(near);
    Le(Weight(near) * Weight(far), Weight(near) * Weight(far), 1 + S(far), S(t));
    Le(Weight(near) * Weight(far) * (1 + S(far)), Weight(t), S(t) + 1, S(t) + 1);
    PlacePays1(Weight(near), Weight(far), 1 + S(far), S(t) + 1);
  }

  lemma SizePositive(t: Shape)
    ensures S(t) >= 1
  {}

  lemma PlacePays1(a: nat, b: nat, u: nat, v: nat)
    ensures a * (1 * b * u) * v == a * b * u * v
  {}

  // What one look-up or insertion costs, in a tree that has n - 1 nodes in the end.
  lemma AccessPays(k: nat, w: nat, w1: nat, w2: nat, s: nat, n: nat)
    requires k * w1 <= w * Pow(s, 3) && 1 <= s <= n && (w2 == w1 || (s < n && w2 <= w1 * (s + 1)))
    ensures k * w2 <= w * Pow(n, 4)
  {
    hide Pow;
    PowLe(s, n, 3);
    Le(w, w, Pow(s, 3), Pow(n, 3));
    NextPower(n, w);
    if w2 == w1 {
      Le(k * w1, w * Pow(n, 3), 1, n);
    } else {
      Le(k, k, w2, w1 * (s + 1));
      Groups(k, w1, s + 1);
      Le(k * w1, w * Pow(n, 3), s + 1, n);
    }
  }

  lemma Groups(a: nat, b: nat, c: nat)
    ensures a * (b * c) == a * b * c
  {}

  lemma NextPower(n: nat, w: nat)
    ensures w * Pow(n, 4) == w * Pow(n, 3) * n
  {
    var p := Pow(n, 3);
    assert Pow(n, 4) == n * p;
    assert w * (n * p) == w * p * n;
  }
}
