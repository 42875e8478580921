// loop-watcher.c: the prepare, check and idle handles of a loop. The three
// instances of the macro are the same code over different lists.
module LoopWatcher {
  import opened Queue
  import opened Sequences

  // The rest of a uv_prepare_t, uv_check_t or uv_idle_t.
  datatype Handle = Handle(active: bool, cb: bool)

  type Watcher = Node<Handle>

  // What a callback may do to the handles of its loop while it runs; cb says
  // whether uv_*_start is given a callback. Closing a handle stops it.
  datatype Call = Start(h: Watcher, cb: bool) | Stop(h: Watcher)

  // ---- one pass, on sequences ----

  // The active handles: those in the loop's list and those not yet called in this pass.
  datatype Lists = Lists(main: seq<Watcher>, todo: seq<Watcher>)

  // Where h is in s, and s without it there.
  function IndexOf(s: seq<Watcher>, h: Watcher): (k: nat)
    ensures k <= |s| && (k < |s| ==> s[k] == h) && (k == |s| <==> h !in s)
  {
    if s == [] || s[0] == h then 0 else 1 + IndexOf(s[1..], h)
  }

  function TakeOut(s: seq<Watcher>, h: Watcher): seq<Watcher> {
    var k := IndexOf(s, h);
    if k == |s| then s else s[..k] + s[k + 1..]
  }

  lemma TakeOutAbsent(s: seq<Watcher>, h: Watcher)
    requires h !in s
    ensures TakeOut(s, h) == s
  {}

  function Do(l: Lists, c: Call): Lists {
    match c
    case Start(h, cb) => if h in l.main || h in l.todo || !cb then l else Lists([h] + l.main, l.todo)
    case Stop(h) => Lists(TakeOut(l.main, h), TakeOut(l.todo, h))
  }

  function DoAll(l: Lists, cs: seq<Call>): Lists
    decreases |cs|
  {
    if cs == [] then l else DoAll(Do(l, cs[0]), cs[1..])
  }

  // The calls of the next callback; callbacks past the end of the script make none.
  function First(script: seq<seq<Call>>): seq<Call> { if script == [] then [] else script[0] }

  function Rest(script: seq<seq<Call>>): seq<seq<Call>> { if script == [] then [] else script[1..] }

  lemma TakeOutFacts(s: seq<Watcher>, h: Watcher)
    requires Distinct(s)
    ensures Distinct(TakeOut(s, h)) && forall x :: x in TakeOut(s, h) <==> x in s && x != h
  {
    var k := IndexOf(s, h);
    if k < |s| {
      assert s == s[..k] + ([h] + s[k + 1..]);
      DistinctParts(s[..k], [h] + s[k + 1..]);
      DistinctParts([h], s[k + 1..]);
      DistinctJoin(s[..k], s[k + 1..]);
    }
  }

  lemma {:induction false} DoAllShrinks(l: Lists, cs: seq<Call>)
    ensures |DoAll(l, cs).todo| <= |l.todo|
    decreases |cs|
  {
    if cs != [] {
      DoAllShrinks(Do(l, cs[0]), cs[1..]);
    }
  }

  // The handles called in one pass, in order, and the loop's list after it.
  function Pass(l: Lists, script: seq<seq<Call>>): (r: (seq<Watcher>, seq<Watcher>))
    decreases |l.todo|
  {
    if l.todo == [] then ([], l.main) else
      var h := l.todo[0];
      var l' := DoAll(Lists(l.main + [h], l.todo[1..]), First(script));
      DoAllShrinks(Lists(l.main + [h], l.todo[1..]), First(script));
      var r := Pass(l', Rest(script));
      ([h] + r.0, r.1)
  }

  ghost predicate Good(l: Lists) {
    Distinct(l.main) && Distinct(l.todo) && forall x :: x in l.main ==> x !in l.todo
  }

  lemma DoGood(l: Lists, c: Call)
    requires Good(l)
    ensures Good(Do(l, c))
    ensures forall x :: x in Do(l, c).todo <==> x in l.todo && c != Stop(x)
    ensures forall x :: x in Do(l, c).main || x in Do(l, c).todo <==>
      ((x in l.main || x in l.todo) && c != Stop(x)) || c == Start(x, true)
  {
    TakeOutFacts(l.main, c.h);
    TakeOutFacts(l.todo, c.h);
    if c.h !in l.main {
      DistinctJoin([c.h], l.main);
    }
  }

  lemma {:induction false} DoAllGood(l: Lists, cs: seq<Call>)
    requires Good(l)
    ensures Good(DoAll(l, cs))
    ensures forall x :: x in DoAll(l, cs).todo <==> x in l.todo && Stop(x) !in cs
    decreases |cs|
  {
    if cs != [] {
      DoGood(l, cs[0]);
      DoAllGood(Do(l, cs[0]), cs[1..]);
    }
  }

  // The lists when the first of todo has been taken and its callback has returned.
  function Turn(l: Lists, cs: seq<Call>): Lists
    requires l.todo != []
  {
    DoAll(Lists(l.main + [l.todo[0]], l.todo[1..]), cs)
  }

  lemma TurnGood(l: Lists, cs: seq<Call>)
    requires Good(l) && l.todo != []
    ensures Good(Lists(l.main + [l.todo[0]], l.todo[1..])) && Good(Turn(l, cs))
    ensures forall x :: x in Turn(l, cs).todo <==> x in l.todo && x != l.todo[0] && Stop(x) !in cs
  {
    var h := l.todo[0];
    assert l.todo == [h] + l.todo[1..];
    DistinctParts([h], l.todo[1..]);
    DistinctJoin(l.main, [h]);
    DoAllGood(Lists(l.main + [h], l.todo[1..]), cs);
  }

  lemma PassStep(l: Lists, script: seq<seq<Call>>)
    requires l.todo != []
    ensures var r := Pass(Turn(l, First(script)), Rest(script)); Pass(l, script) == ([l.todo[0]] + r.0, r.1)
    ensures |Turn(l, First(script)).todo| < |l.todo|
  {
    DoAllShrinks(Lists(l.main + [l.todo[0]], l.todo[1..]), First(script));
  }

  lemma PassEnd(l: Lists, script: seq<seq<Call>>)
    requires l.todo == []
    ensures Pass(l, script) == ([], l.main)
  {}

  lemma InTodo(l: Lists)
    requires Good(l) && l.todo != []
    ensures l.todo[0] in l.todo && l.todo[0] !in l.main && l.todo[0] !in l.todo[1..]
    ensures forall x :: x in l.todo[1..] ==> x in l.todo
  {}

  // No handle is called twice, and only handles that were waiting when the
  // pass began: none that a callback starts.
  lemma {:induction false} PassOnce(l: Lists, script: seq<seq<Call>>)
    requires Good(l)
    ensures Distinct(Pass(l, script).0) && Distinct(Pass(l, script).1)
    ensures forall x :: x in Pass(l, script).0 ==> x in l.todo
    decreases |l.todo|
  {
    if l.todo != [] {
      var h, l' := l.todo[0], Turn(l, First(script));
      TurnGood(l, First(script));
      DoAllShrinks(Lists(l.main + [h], l.todo[1..]), First(script));
      PassOnce(l', Rest(script));
      DistinctJoin([h], Pass(l', Rest(script)).0);
    }
  }

  // The callback that ran as number j stopped h.
  predicate StopsAt(script: seq<seq<Call>>, j: nat, h: Watcher) { j < |script| && Stop(h) in script[j] }

  ghost predicate StoppedBeforeTurn(called: seq<Watcher>, script: seq<seq<Call>>, h: Watcher) {
    exists j: nat :: j < |called| && StopsAt(script, j, h) && h !in called[..j + 1]
  }

  lemma StopsFirst(script: seq<seq<Call>>, h: Watcher)
    ensures StopsAt(script, 0, h) <==> Stop(h) in First(script)
    ensures forall j: nat :: StopsAt(script, j + 1, h) <==> StopsAt(Rest(script), j, h)
  {}

  // A handle that is waiting is called in this pass exactly if no callback stops it before its turn.
  lemma {:induction false} PassExact(l: Lists, script: seq<seq<Call>>, h: Watcher)
    requires Good(l) && h in l.todo
    ensures h in Pass(l, script).0 <==> !StoppedBeforeTurn(Pass(l, script).0, script, h)
    decreases |l.todo|
  {
    hide Pass, Turn, Good, First;
    var q, l', c := l.todo[0], Turn(l, First(script)), Pass(l, script).0;
    TurnGood(l, First(script));
    PassStep(l, script);
    var c' := Pass(l', Rest(script)).0;
    PassOnce(l', Rest(script));
    assert c == [q] + c' && c[..1] == [q];
    if h == q {
      forall j: nat | j < |c| && StopsAt(script, j, h) ensures h in c[..j + 1] { assert c[..j + 1][0] == h; }
    } else if Stop(h) in First(script) {
      assert StopsAt(script, 0, h) by { StopsFirst(script, h); }
    } else {
      StopsFirst(script, h);
      PassExact(l', Rest(script), h);
      if StoppedBeforeTurn(c', Rest(script), h) {
        var j: nat :| j < |c'| && StopsAt(Rest(script), j, h) && h !in c'[..j + 1];
        assert StopsAt(script, j + 1, h) && c[..j + 2] == [q] + c'[..j + 1];
      }
      if StoppedBeforeTurn(c, script, h) {
        var j: nat :| j < |c| && StopsAt(script, j, h) && h !in c[..j + 1];
        assert StopsAt(Rest(script), j - 1, h) && c[..j + 1] == [q] + c'[..j];
      }
    }
  }

  // Without stops, every waiting handle is called, in order.
  lemma {:induction false} PassAll(l: Lists, script: seq<seq<Call>>)
    requires Good(l) && forall cs, h :: cs in script && h in l.todo ==> Stop(h) !in cs
    ensures Pass(l, script).0 == l.todo
    decreases |l.todo|
  {
    if l.todo != [] {
      assert script != [] ==> First(script) in script;
      assert forall cs :: cs in Rest(script) ==> cs in script;
      var h := l.todo[0];
      TurnGood(l, First(script));
      KeepsTodo(Lists(l.main + [h], l.todo[1..]), First(script));
      PassAll(Turn(l, First(script)), Rest(script));
    }
  }

  lemma {:induction false} KeepsTodo(l: Lists, cs: seq<Call>)
    requires forall h :: h in l.todo ==> Stop(h) !in cs
    ensures DoAll(l, cs).todo == l.todo
    decreases |cs|
  {
    if cs != [] {
      KeepsTodo(Do(l, cs[0]), cs[1..]);
    }
  }

  // A pass without starts and stops leaves the list in its order.
  lemma {:induction false} PassKeeps(l: Lists)
    ensures Pass(l, []) == (l.todo, l.main + l.todo)
    decreases |l.todo|
  {
    if l.todo == [] {
      assert l.main + [] == l.main;
    } else {
      PassStep(l, []);
      PassKeeps(Turn(l, []));
      assert l.todo == [l.todo[0]] + l.todo[1..];
      Associative(l.main, [l.todo[0]], l.todo[1..]);
    }
  }

  function Reversed(s: seq<Watcher>): seq<Watcher> { if s == [] then [] else Reversed(s[1..]) + [s[0]] }

  lemma {:induction false} ReversedMembers(s: seq<Watcher>)
    ensures forall x :: x in Reversed(s) <==> x in s
  {
    if s != [] {
      ReversedMembers(s[1..]);
      assert s == [s[0]] + s[1..];
    }
  }

  function Starts(s: seq<Watcher>): seq<Call> { if s == [] then [] else [Start(s[0], true)] + Starts(s[1..]) }

  lemma {:induction false} StartAll(l: Lists, s: seq<Watcher>)
    requires Distinct(s) && forall x :: x in s ==> x !in l.main && x !in l.todo
    ensures DoAll(l, Starts(s)) == Lists(Reversed(s) + l.main, l.todo)
    decreases |s|
  {
    if s == [] {
      assert [] + l.main == l.main;
    } else {
      assert s == [s[0]] + s[1..];
      DistinctParts([s[0]], s[1..]);
      assert Starts(s)[1..] == Starts(s[1..]);
      StartAll(Do(l, Start(s[0], true)), s[1..]);
      Associative(Reversed(s[1..]), [s[0]], l.main);
    }
  }

  // Handles started one after the other are called in the reverse order by the
  // next pass, and by the passes after it, before those that were active already.
  lemma LastStartedFirst(main: seq<Watcher>, s: seq<Watcher>)
    requires Distinct(s) && forall x :: x in s ==> x !in main
    ensures var l := DoAll(Lists(main, []), Starts(s));
      Pass(Lists([], l.main), []) == (Reversed(s) + main, Reversed(s) + main)
  {
    StartAll(Lists(main, []), s);
    PassKeeps(Lists([], Reversed(s) + main));
    assert [] + (Reversed(s) + main) == Reversed(s) + main;
  }

  lemma {:induction false} ReversedPush(s: seq<Watcher>, h: Watcher)
    ensures Reversed(s + [h]) == [h] + Reversed(s)
  {
    if s == [] {
      assert s + [h] == [h] && [h] + [] == [h];
    } else {
      assert (s + [h])[1..] == s[1..] + [h];
      ReversedPush(s[1..], h);
    }
  }

  lemma StartNext(hs: seq<Watcher>, i: nat)
    requires Distinct(hs) && i < |hs|
    ensures var l := Lists(Reversed(hs[..i]), []); Do(l, Start(hs[i], true)) == Lists(Reversed(hs[..i + 1]), [])
    ensures DoAll(Lists([], []), Starts(hs[..i + 1])) == Lists(Reversed(hs[..i + 1]), [])
  {
    assert hs[..i + 1] == hs[..i] + [hs[i]];
    ReversedPush(hs[..i], hs[i]);
    ReversedMembers(hs[..i]);
    StartAll(Lists([], []), hs[..i + 1]);
    assert Reversed(hs[..i + 1]) + [] == Reversed(hs[..i + 1]);
  }

  // Stopping takes the handle out of its place and leaves the rest in order.
  lemma StopKeepsOrder(a: seq<Watcher>, h: Watcher, b: seq<Watcher>)
    requires Distinct(a + [h] + b)
    ensures Do(Lists(a + [h] + b, []), Stop(h)) == Lists(a + b, [])
    ensures Do(Lists([], a + [h] + b), Stop(h)) == Lists([], a + b)
  {
    var s := a + [h] + b;
    assert s[|a|] == h;
    var k := IndexOf(s, h);
    assert k == |a|;
    assert s[..k] + s[k + 1..] == a + b;
  }

  // ---- the loop's list ----

  class Loop {
    // loop->*_handles, a list head; all are the handles of the loop.
    var handles: Watcher
    ghost var all: set<Watcher>

    // The handles hang in the loop's list or, during a pass, in the local list
    // queue; exactly those are active, and each of them has a callback.
    ghost predicate Holds(queue: Node?<Handle>, l: Lists)
      reads this, all, handles, queue
    {
      var ns := Nodes(queue);
      && handles !in all && queue != handles && queue !in all
      && List(MemOf(ns), handles, l.main)
      && (if queue == null then l.todo == [] else List(MemOf(ns), queue, l.todo))
      && Good(l)
      && (forall x :: x in l.main ==> x in all) && (forall x :: x in l.todo ==> x in all)
      && (forall x :: x in all ==> (x.data.active <==> x in l.main || x in l.todo))
      && (forall x :: x in all && x.data.active ==> x.data.cb)
    }

    ghost function Nodes(queue: Node?<Handle>): set<Watcher>
      reads this`handles, this`all
    {
      if queue == null then all + {handles} else var q: Watcher := queue; all + {handles, q}
    }

    // uv_loop_init: no handles yet.
    constructor ()
      ensures fresh(handles) && all == {} && Holds(null, Lists([], []))
    {
      handles := new Node(Handle(false, false));
      all := {};
      new;
      assert LinkAt(MemOf({handles}), handles, [], -1);
    }

    // uv_*_init: a new handle, inactive and without a callback. It may come
    // between the calls of a pass.
    method Init(ghost queue: Node?<Handle>, ghost l: Lists) returns (h: Watcher)
      requires Holds(queue, l)
      modifies this`all
      ensures fresh(h) && all == old(all) + {h} && h.data == Handle(false, false) && Holds(queue, l)
    {
      h := new Node(Handle(false, false));
      ghost var m := MemOf(Nodes(queue));
      all := all + {h};
      ListFrame(m, MemOf(Nodes(queue)), handles, l.main);
      if queue != null {
        ListFrame(m, MemOf(Nodes(queue)), queue, l.todo);
      }
    }

    // uv_*_start: 0, or -EINVAL without a callback.
    method DoStart(h: Watcher, cb: bool, ghost queue: Node?<Handle>, ghost l: Lists) returns (ok: bool)
      requires Holds(queue, l) && h in all
      modifies Nodes(queue)
      ensures Holds(queue, Do(l, Start(h, cb)))
      ensures ok <==> old(h.data.active) || cb
      ensures h.data == if old(h.data.active) || !cb then old(h.data) else Handle(true, true)
      ensures !old(h.data.active) && cb ==> handles.next == h && h.next == old(handles.next) && h.prev == handles
      ensures forall x :: x in all && x != h ==> x.data == old(x.data)
    {
      if h.data.active {
        return true;
      }
      if !cb {
        return false;
      }
      ghost var ns, m := Nodes(queue), MemOf(Nodes(queue));
      InsertAt(handles, h, false, ns, l.main);
      FrontOf(m, MemOf(ns), handles, l.main, h);
      if queue != null {
        OtherList(m, MemOf(ns), handles, l.main, h, queue, l.todo);
      }
      DoGood(l, Start(h, cb));
      h.data := h.data.(cb := cb, active := true);
      ok := true;
    }

    // uv_*_stop
    method DoStop(h: Watcher, ghost queue: Node?<Handle>, ghost l: Lists)
      requires Holds(queue, l) && h in all
      modifies Nodes(queue)
      ensures Holds(queue, Do(l, Stop(h)))
      ensures h.data == old(h.data).(active := false)
      ensures forall x :: x in all && x != h ==> x.data == old(x.data)
    {
      if !h.data.active {
        return;
      }
      hide List, Good, TakeOut, MemOf;
      DoGood(l, Stop(h));
      ghost var inMain := h in l.main;
      TakeOutAbsent(if inMain then l.todo else l.main, h);
      GoodParts(l);
      ghost var other: Node?<Handle> := if inMain then queue else handles;
      Unhook(h, Nodes(queue), if inMain then handles else queue, if inMain then l.main else l.todo,
        other, if inMain then l.todo else l.main);
      h.data := h.data.(active := false);
    }

    // What a callback does to the handles of the loop.
    method Callback(cs: seq<Call>, ghost queue: Node?<Handle>, ghost l: Lists)
      requires Holds(queue, l) && forall c :: c in cs ==> c.h in all
      modifies Nodes(queue)
      ensures Holds(queue, DoAll(l, cs))
    {
      hide Holds, Do;
      ghost var k := l;
      for i := 0 to |cs|
        invariant Holds(queue, k) && DoAll(k, cs[i..]) == DoAll(l, cs)
      {
        assert cs[i..][0] == cs[i] && cs[i..][1..] == cs[i + 1..];
        match cs[i] {
          case Start(h, cb) =>
            var ok := DoStart(h, cb, queue, k);
          case Stop(h) =>
            DoStop(h, queue, k);
        }
        k := Do(k, cs[i]);
      }
    }

    // QUEUE_MOVE into the local list: every active handle waits for its turn.
    method Detach(queue: Watcher, ghost main: seq<Watcher>)
      requires Holds(null, Lists(main, [])) && queue !in all && queue != handles
      modifies Nodes(queue)
      ensures Holds(queue, Lists([], main))
    {
      ghost var m := MemOf(Nodes(null));
      ListFrame(m, MemOf(Nodes(queue)), handles, main);
      Move(handles, queue, Nodes(queue), main);
    }

    // The first waiting handle goes to the end of the loop's list.
    method Take(queue: Watcher, ghost l: Lists) returns (q: Watcher)
      requires Holds(queue, l) && l.todo != []
      modifies Nodes(queue)`next, Nodes(queue)`prev
      ensures q == l.todo[0] && Holds(queue, Lists(l.main + [q], l.todo[1..]))
      ensures q.data.active && q.data.cb
    {
      hide List, Untouched, Distinct, MemOf;
      ghost var ns, m := Nodes(queue), MemOf(Nodes(queue));
      q := Head(queue, ns, l.todo);
      TurnGood(l, []);
      InTodo(l);
      Remove(q, ns, queue, l.todo, 0);
      ghost var m1 := MemOf(ns);
      OtherList(m, m1, queue, l.todo, queue, handles, l.main);
      assert l.todo[..0] + l.todo[1..] == l.todo[1..];
      InsertAt(handles, q, true, ns, l.main);
      OtherList(m1, MemOf(ns), handles, l.main, q, queue, l.todo[1..]);
    }

    // Whether no handle waits any more.
    method Done(queue: Watcher, ghost l: Lists) returns (empty: bool)
      requires Holds(queue, l)
      ensures empty <==> l.todo == []
      ensures empty ==> Holds(null, l)
    {
      empty := Empty(queue, Nodes(queue), l.todo);
      if empty {
        ListFrame(MemOf(Nodes(queue)), MemOf(Nodes(null)), handles, l.main);
      }
    }

    // uv__run_*
    method Run(script: seq<seq<Call>>, ghost main: seq<Watcher>)
      returns (called: seq<Watcher>, ghost main': seq<Watcher>)
      requires Holds(null, Lists(main, []))
      requires forall cs, c :: cs in script && c in cs ==> c.h in all
      modifies Nodes(null)
      ensures (called, main') == Pass(Lists([], main), script)
      ensures Holds(null, Lists(main', []))
    {
      hide Holds, Pass;
      var queue := new Node(Handle(false, false));
      Detach(queue, main);
      ghost var l := Lists([], main);
      var rest := script;
      called := [];
      var empty := Done(queue, l);
      while !empty
        invariant Holds(queue, l) && (empty <==> l.todo == []) && (empty ==> Holds(null, l))
        invariant forall cs, c :: cs in rest && c in cs ==> c.h in all
        invariant called + Pass(l, rest).0 == Pass(Lists([], main), script).0
        invariant Pass(l, rest).1 == Pass(Lists([], main), script).1
        decreases |l.todo|
      {
        PassStep(l, rest);
        Associative(called, [l.todo[0]], Pass(Turn(l, First(rest)), Rest(rest)).0);
        var q := Take(queue, l);
        called := called + [q];
        Callback(First(rest), queue, Lists(l.main + [q], l.todo[1..]));
        l := Turn(l, First(rest));
        rest := Rest(rest);
        empty := Done(queue, l);
      }
      PassEnd(l, rest);
      assert called + [] == called;
      main' := l.main;
    }

    // Handles started one after the other, and then a pass in which the
    // callbacks start and stop nothing: the last one started is called first.
    method StartThenRun(hs: seq<Watcher>) returns (called: seq<Watcher>)
      requires Holds(null, Lists([], [])) && Distinct(hs) && forall h :: h in hs ==> h in all
      modifies Nodes(null)
      ensures called == Reversed(hs) && Holds(null, Lists(Reversed(hs), []))
    {
      hide Holds, Pass, Do, Distinct;
      ghost var l := Lists([], []);
      for i := 0 to |hs|
        invariant Holds(null, DoAll(l, Starts(hs[..i]))) && DoAll(l, Starts(hs[..i])) == Lists(Reversed(hs[..i]), [])
      {
        StartNext(hs, i);
        var ok := DoStart(hs[i], true, null, DoAll(l, Starts(hs[..i])));
      }
      assert hs[..|hs|] == hs;
      ghost var main;
      called, main := Run([], Reversed(hs));
      PassKeeps(Lists([], Reversed(hs)));
      assert [] + Reversed(hs) == Reversed(hs);
    }
  }

  // With h first in the list, it stands between the head and what was first.
  lemma FrontOf(m: Mem<Handle>, m': Mem<Handle>, head: Watcher, s: seq<Watcher>, h: Watcher)
    requires List(m, head, s) && List(m', head, [h] + s)
    ensures head in m && head in m' && h in m'
    ensures m'[head].next == h && m'[h].prev == head && m'[h].next == m[head].next
  {
    assert LinkAt(m, head, s, -1);
    assert LinkAt(m', head, [h] + s, -1) && LinkAt(m', head, [h] + s, 0);
  }

  lemma GoodParts(l: Lists)
    requires Good(l)
    ensures Distinct(l.main) && Distinct(l.todo)
    ensures forall x :: x in l.main ==> x !in l.todo
  {}

  // QUEUE_REMOVE of one of the nodes s below the head; the other list, if there is one, stays.
  method Unhook(h: Watcher, ghost ns: set<Watcher>, ghost head: Watcher, ghost s: seq<Watcher>,
      ghost other: Node?<Handle>, ghost t: seq<Watcher>)
    requires List(MemOf(ns), head, s) && h in s
    requires other != null ==>
      && List(MemOf(ns), other, t) && other != head && other !in s && head !in t
      && forall x :: x in t ==> x !in s
    modifies ns`next, ns`prev
    ensures List(MemOf(ns), head, TakeOut(s, h))
    ensures other != null ==> List(MemOf(ns), other, t)
  {
    ghost var m := MemOf(ns);
    Remove(h, ns, head, s, IndexOf(s, h));
    if other != null {
      OtherList(m, MemOf(ns), head, s, head, other, t);
    }
  }

  // A list none of whose nodes was touched is still there.
  lemma OtherList(m: Mem<Handle>, m': Mem<Handle>, h: Watcher, s: seq<Watcher>, q: Watcher, h': Watcher,
    s': seq<Watcher>)
    requires Untouched(m, m', h, s, q) && List(m, h', s')
    requires h' != h && h' !in s && h' != q && h !in s' && q !in s' && forall x :: x in s' ==> x !in s
    ensures List(m', h', s')
  {
    assert LinkAt(m, h', s', -1);
    ListFrame(m, m', h', s');
  }
}
