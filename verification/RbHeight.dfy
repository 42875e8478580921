// How high a red-black tree can be.
module RbHeight {
  import opened PowerOfTwo
  import opened RbShape

  // A black height of h takes at least 2^h - 1 nodes, and red nodes at most double the paths.
  lemma {:induction false} ColouredSize(t: Shape, h: int)
    requires Coloured(t, h)
    ensures h >= 0 && Pow2(h) <= |t.InOrder()| + 1 && t.Height() <= 2 * h + if t.Red() then 1 else 0
  {
    if t.Branch? {
      var k := if t.red then h else h - 1;
      ColouredSize(t.l, k);
      ColouredSize(t.r, k);
    }
  }

  // The height of a tree of n nodes is at most 2 log (n + 1): it is at most 2 h
  // for an h with 2^h no more than n + 1.
  lemma HeightBound(t: Shape) returns (h: nat)
    requires Balanced(t)
    ensures Pow2(h) <= |t.InOrder()| + 1 && t.Height() <= 2 * h
  {
    var black: int :| Coloured(t, black);
    ColouredSize(t, black);
    h := black;
  }
}
