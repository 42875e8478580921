// ThreadMsgBase.cpp: the message list of a thread, a circular singly linked
// list that is reached through its last node.
module ThreadMsg {
  import opened Sequences

  class NodeMsg<T> {
    var next: NodeMsg?<T>
    const msg: T
    ghost var deleted: bool

    constructor (msg: T)
      ensures this.msg == msg && next == null && !deleted
    {
      this.msg, next, deleted := msg, null, false;
    }
  }

  // The messages of some nodes.
  ghost function Msgs<T>(ns: seq<NodeMsg<T>>): (s: seq<T>)
    ensures |s| == |ns|
  {
    if ns == [] then [] else [ns[0].msg] + Msgs(ns[1..])
  }

  lemma {:induction false} MsgsConcat<T>(a: seq<NodeMsg<T>>, b: seq<NodeMsg<T>>)
    ensures Msgs(a + b) == Msgs(a) + Msgs(b)
  {
    if a == [] {
      assert a + b == b;
    } else {
      assert (a + b)[1..] == a[1..] + b;
      MsgsConcat(a[1..], b);
    }
  }

  function Flatten<T>(s: seq<seq<T>>): seq<T> { if s == [] then [] else s[0] + Flatten(s[1..]) }

  ghost function After<T>(ns: seq<NodeMsg<T>>, i: nat): NodeMsg<T>
    requires i < |ns|
  {
    if i + 1 < |ns| then ns[i + 1] else ns[0]
  }

  ghost predicate LinkAt<T>(ns: seq<NodeMsg<T>>, i: nat)
    requires i < |ns|
    reads ns
  {
    ns[i].next == After(ns, i) && !ns[i].deleted
  }

  // The nodes before the i-th have been deleted.
  ghost predicate GoneTo<T>(ns: seq<NodeMsg<T>>, i: nat)
    reads ns
  {
    forall k: nat :: k < i && k < |ns| ==> ns[k].deleted
  }

  lemma FlattenStep<T>(s: seq<seq<T>>, i: nat, c: seq<T>)
    requires i < |s|
    ensures c + Flatten(s[i..]) == (c + s[i]) + Flatten(s[i + 1..])
  {
    assert s[i..][1..] == s[i + 1..];
  }

  // The nodes from the i-th on are linked in a ring in this order, and have not been deleted.
  ghost predicate RingFrom<T>(ns: seq<NodeMsg<T>>, i: nat)
    reads ns
  {
    forall k: nat {:trigger LinkAt(ns, k)} :: i <= k < |ns| ==> LinkAt(ns, k)
  }

  class MsgList<T> {
    var tail: NodeMsg?<T>
    ghost var nodes: seq<NodeMsg<T>>
    ghost var repr: set<NodeMsg<T>>

    ghost predicate Valid()
      reads this, nodes
    {
      && (forall n :: n in nodes ==> n in repr) && Distinct(nodes) && RingFrom(nodes, 0)
      && if nodes == [] then tail == null else tail == nodes[|nodes| - 1]
    }

    ghost function Contents(): seq<T>
      reads this
    {
      Msgs(nodes)
    }

    constructor ()
      ensures Valid() && Contents() == [] && repr == {}
    {
      tail, nodes, repr := null, [], {};
    }

    // PushBackMsg
    method PushBack(m: T)
      requires Valid()
      modifies this, repr
      ensures Valid() && Contents() == old(Contents()) + [m]
      ensures fresh(repr - old(repr))
    {
      var msg := new NodeMsg(m);
      ghost var k := |nodes|;
      if tail == null {
        msg.next := msg;
      } else {
        assert LinkAt(nodes, k - 1);
        msg.next := tail.next;
        tail.next := msg;
      }
      tail := msg;
      MsgsConcat(nodes, [msg]);
      ghost var ns := nodes;
      nodes, repr := nodes + [msg], repr + {msg};
      forall i: nat | i < |nodes| ensures LinkAt(nodes, i) {
        if i < k {
          assert old(LinkAt(ns, i)) && nodes[i] == ns[i];
        }
      }
    }

    // The arrivals of one moment, in order.
    method PushAll(ms: seq<T>)
      requires Valid()
      modifies this, repr
      ensures Valid() && Contents() == old(Contents()) + ms
      ensures fresh(repr - old(repr))
    {
      for i := 0 to |ms|
        invariant Valid() && Contents() == old(Contents()) + ms[..i]
        invariant fresh(repr - old(repr))
      {
        PushBack(ms[i]);
        assert ms[..i + 1] == ms[..i] + [ms[i]];
      }
    }

    // A message is handled, while arrivals are pushed to the new list, and its node deleted.
    method Handle(req: NodeMsg<T>, arrivals: seq<T>, ghost batch: seq<NodeMsg<T>>, ghost i: nat)
      requires Valid() && Detached(batch) && i < |batch| && batch[i] == req && RingFrom(batch, i) && GoneTo(batch, i)
      modifies this, repr, req`deleted
      ensures Valid() && Detached(batch) && RingFrom(batch, i + 1) && GoneTo(batch, i + 1)
      ensures fresh(repr - old(repr)) && Contents() == old(Contents()) + arrivals
    {
      PushAll(arrivals);
      assert RingFrom(batch, i) && GoneTo(batch, i) by {
        forall k: nat | i <= k < |batch|
          ensures LinkAt(batch, k) { assert old(LinkAt(batch, k)) && batch[k] !in old(repr); }
        forall k: nat | k < i ensures batch[k].deleted { assert old(batch[k].deleted) && batch[k] !in old(repr); }
      }
      label Pushed:
      req.deleted := true;
      forall k: nat | i + 1 <= k < |batch| ensures LinkAt(batch, k) {
        assert old@Pushed(LinkAt(batch, k)) && batch[k] != req;
      }
    }

    // The nodes are not, or no longer, in the list.
    ghost predicate Detached(batch: seq<NodeMsg<T>>)
      reads `repr
    {
      Distinct(batch) && forall k :: 0 <= k < |batch| ==> batch[k] !in repr
    }

    // One turn of the outer loop of DispatchThreadMsg with a message waiting: the list
    // is detached and its messages are handled one by one, in the order in which they
    // were pushed, each once. While each is handled, other threads may push arrivals.
    method Dispatch(arrivals: seq<seq<T>>) returns (handled: seq<T>)
      requires Valid() && nodes != [] && |arrivals| == |nodes|
      modifies this, repr
      ensures Valid() && handled == old(Contents()) && Contents() == Flatten(arrivals)
      ensures GoneTo(old(nodes), |old(nodes)|)
    {
      hide Flatten, Msgs, Distinct;
      ghost var batch := nodes;
      EmptyLists<T>();
      assert LinkAt(batch, |batch| - 1);
      FirstApart(batch);
      var first := tail.next;
      var next: NodeMsg?<T> := first;
      tail := null;
      nodes, repr := [], {};
      handled := [];
      var i := 0;
      assert arrivals[0..] == arrivals && [] + Flatten(arrivals) == Flatten(arrivals);
      while next != null
        invariant 0 <= i <= |batch| && next == if i < |batch| then batch[i] else null
        invariant Valid() && fresh(repr) && Detached(batch) && GoneTo(batch, i) && RingFrom(batch, i)
        invariant handled == Msgs(batch)[..i] && Contents() + Flatten(arrivals[i..]) == Flatten(arrivals)
        decreases |batch| - i
      {
        var req := next;
        assert LinkAt(batch, i) && !req.deleted;
        next := if req.next != first then req.next else null;
        FlattenStep(arrivals, i, Contents());
        MsgsAt(batch, i);
        Handle(req, arrivals[i], batch, i);
        handled := handled + [req.msg];
        i := i + 1;
      }
      assert arrivals[i..] == [] && Contents() + [] == Contents();
    }
  }

  lemma FirstApart<T>(ns: seq<NodeMsg<T>>)
    requires Distinct(ns) && ns != []
    ensures forall k :: 0 < k < |ns| ==> ns[k] != ns[0]
  {}

  lemma EmptyLists<T>()
    ensures Msgs<T>([]) == [] && Flatten<T>([]) == [] && Distinct<NodeMsg<T>>([])
  {}

  lemma {:induction false} MsgsAt<T>(ns: seq<NodeMsg<T>>, i: nat)
    requires i < |ns|
    ensures Msgs(ns)[i] == ns[i].msg
  {
    if i > 0 {
      MsgsAt(ns[1..], i - 1);
    }
  }
}
