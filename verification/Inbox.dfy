// A thread of UVThread.cpp with its message list: the list of ThreadMsg holds
// what the registry takes for the thread's queue.
module Inbox {
  import opened ThreadMsg
  import opened Registry

  class Endpoint {
    const thread: Thread
    const list: MsgList<Msg>

    ghost predicate Valid()
      reads thread, list, list.nodes
    {
      list.Valid() && list.Contents() == thread.queue
    }

    constructor (kind: nat)
      ensures Valid() && fresh(thread) && fresh(list) && thread.kind == kind && thread.View() == map[]
    {
      thread := new Thread(kind);
      list := new MsgList();
    }

    // PushBackMsg
    method Push(msg: Msg)
      requires Valid()
      modifies thread`queue, list, list.repr
      ensures Valid() && fresh(list.repr - old(list.repr))
      ensures thread.queue == old(thread.queue) + [msg] && thread.View() == Apply(old(thread.View()), msg)
    {
      list.PushBack(msg);
      thread.PushBackMsg(msg);
    }

    // One turn of DispatchThreadMsg: the thread has handled exactly what was
    // waiting, in order, and what arrives meanwhile waits, in order.
    method Dispatch(arrivals: seq<seq<Msg>>)
      requires Valid() && thread.queue != [] && |arrivals| == |list.nodes|
      modifies thread, list, list.repr
      ensures Valid() && thread.queue == Flatten(arrivals)
      ensures thread.local == old(thread.View())
      ensures thread.View() == Replay(old(thread.View()), Flatten(arrivals))
    {
      hide Replay, Apply, Flatten;
      ghost var m, q := thread.local, thread.queue;
      var handled := list.Dispatch(arrivals);
      Arrive(Flatten(arrivals));
      assert q[0..] == q;
      for i := 0 to |handled|
        invariant list.Valid() && list.Contents() == Flatten(arrivals)
        invariant thread.queue == q[i..] + Flatten(arrivals)
        invariant Replay(thread.local, q[i..]) == Replay(m, q)
      {
        assert thread.queue[0] == handled[i] == q[i] && thread.queue[1..] == q[i + 1..] + Flatten(arrivals);
        ReplayStep(thread.local, q, i);
        thread.HandleNext();
      }
      ReplayNone(thread.local);
      assert q[|handled|..] == [] && [] + Flatten(arrivals) == Flatten(arrivals);
    }

    method Arrive(ms: seq<Msg>)
      modifies thread`queue
      ensures thread.queue == old(thread.queue) + ms
    {
      for i := 0 to |ms|
        invariant thread.queue == old(thread.queue) + ms[..i]
      {
        thread.PushBackMsg(ms[i]);
        assert ms[..i + 1] == ms[..i] + [ms[i]];
      }
    }
  }

  lemma ReplayStep(m: Directory, q: seq<Msg>, i: nat)
    requires i < |q|
    ensures Replay(m, q[i..]) == Replay(Apply(m, q[i]), q[i + 1..])
  {
    assert q[i..][1..] == q[i + 1..];
  }

  lemma ReplayNone(m: Directory)
    ensures Replay(m, []) == m
  {}
}
