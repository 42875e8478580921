// What the wakeups of async.c come to over whole runs: which handles are open,
// that every wakeup is served, and in which order.
module AsyncRuns {
  import opened Sequences
  import opened Async

  predicate Opens(a: Action, h: Handle) { a.Open? && a.h == h }

  ghost predicate Opened(acts: seq<Action>, h: Handle) { exists cb :: Open(h, cb) in acts }

  // uv_async_init has been called for h, and uv_close has not.
  ghost predicate InUse(acts: seq<Action>, h: Handle) { Opened(acts, h) && Close(h) !in acts }

  lemma OpenNext(s: State, a: Action, h: Handle)
    requires Inv(s) && Enabled(s, a)
    ensures IsOpen(Next(s, a), h) <==> (IsOpen(s, h) || Opens(a, h)) && a != Close(h)
    ensures h in Next(s, a).pending <==> h in s.pending || Opens(a, h)
    ensures h in Next(s, a).hasCallback <==> h in s.hasCallback || a == Open(h, true)
  {
    hide CountOk, DescriptorOk, WakeupsOk, Apart, Count, DoRead, DoVisit, Without;
    match a
    case Close(x) =>
      WithoutMembers(s.list, x);
      WithoutMembers(s.todo, x);
    case Visit =>
      VisitKeeps(s);
      assert s.todo == [s.todo[0]] + s.todo[1..];
      VisitCallbacks(s);
    case Read =>
      ReadKeeps(s);
    case Swap(t) =>
      assert SenderOk(s, t);
    case Move =>
      assert !s.phase.Dispatching? && s.todo == [];
    case _ =>
  }

  lemma VisitCallbacks(s: State)
    requires s.todo != []
    ensures DoVisit(s).hasCallback == s.hasCallback && DoVisit(s).phase == s.phase && DoVisit(s).unread == s.unread
    ensures DoVisit(s).senders == s.senders && DoVisit(s).won == s.won && DoVisit(s).eventfd == s.eventfd
  {}

  // From any state on: h is open at the end exactly if it was, or has been
  // opened, and has not been closed; it is opened once at most.
  lemma {:induction false} OpenRun(s: State, acts: seq<Action>, h: Handle)
    requires Inv(s) && Runs(s, acts)
    ensures h in s.pending ==> !Opened(acts, h)
    ensures IsOpen(Last(s, acts), h) <==> (IsOpen(s, h) || Opened(acts, h)) && Close(h) !in acts
    ensures h in Last(s, acts).hasCallback <==> h in s.hasCallback || Open(h, true) in acts
    decreases |acts|
  {
    hide Next, Enabled, IsOpen, Inv;
    if acts != [] {
      var a, rest := acts[0], acts[1..];
      RunsFirst(s, acts);
      assert acts == [a] + rest;
      OpenNext(s, a, h);
      NextInv(s, a);
      OpenRun(Next(s, a), rest, h);
      OpenEnabled(s, a, h);
      assert Opened(acts, h) <==> Opens(a, h) || Opened(rest, h) by { OpenedFirst(acts, h); }
    }
  }

  lemma OpenEnabled(s: State, a: Action, h: Handle)
    requires Inv(s) && Enabled(s, a)
    ensures Opens(a, h) ==> h !in s.pending && !IsOpen(s, h)
    ensures a == Close(h) ==> IsOpen(s, h) && h in s.pending
    ensures IsOpen(s, h) ==> h in s.pending
  {}

  lemma OpenedFirst(acts: seq<Action>, h: Handle)
    requires acts != []
    ensures Opened(acts, h) <==> Opens(acts[0], h) || Opened(acts[1..], h)
  {
    assert acts == [acts[0]] + acts[1..];
    if Opens(acts[0], h) {
      assert Open(h, acts[0].callback) in acts;
    }
  }

  // A handle is open exactly from uv_async_init to uv_close, and has the
  // callback it was given.
  lemma OpenExactly(eventfd: bool, capacity: nat, acts: seq<Action>, h: Handle)
    requires capacity > 0 && Runs(Init(eventfd, capacity), acts)
    ensures var s := Last(Init(eventfd, capacity), acts);
      && Inv(s)
      && (IsOpen(s, h) <==> InUse(acts, h))
      && (h in s.hasCallback <==> Open(h, true) in acts)
  {
    InitInv(eventfd, capacity);
    RunInv(Init(eventfd, capacity), acts);
    OpenRun(Init(eventfd, capacity), acts, h);
  }

  // No wakeup is lost: when the loop waits and no sender of h is on its way, a
  // pending handle in use makes the descriptor readable.
  lemma NoLostWakeup(eventfd: bool, capacity: nat, acts: seq<Action>, h: Handle)
    requires capacity > 0 && Runs(Init(eventfd, capacity), acts) && InUse(acts, h)
    ensures var s := Last(Init(eventfd, capacity), acts);
      Pending(s, h) && s.phase.Idle? && !InFlight(s, h) ==> Enabled(s, Poll)
  {
    OpenExactly(eventfd, capacity, acts, h);
  }

  // Sends are coalesced, none is dropped and no callback comes unasked; the
  // assertion after the read loop holds.
  lemma Coalescing(eventfd: bool, capacity: nat, acts: seq<Action>, h: Handle)
    requires capacity > 0 && Runs(Init(eventfd, capacity), acts)
    ensures var s := Last(Init(eventfd, capacity), acts);
      && !s.aborted
      && (Open(h, true) in acts ==> Count(s.won, h) == Count(s.calls, h) + if Pending(s, h) then 1 else 0)
      && (Open(h, true) !in acts ==> Count(s.calls, h) == 0)
  {
    OpenExactly(eventfd, capacity, acts, h);
    assert CountOk(Last(Init(eventfd, capacity), acts), h);
  }

  // A thread can send to any handle in use, and never waits in uv_async_send.
  lemma CanSend(eventfd: bool, capacity: nat, acts: seq<Action>, t: Thread, h: Handle)
    requires capacity > 0 && Runs(Init(eventfd, capacity), acts)
    ensures var s := Last(Init(eventfd, capacity), acts);
      && (At(s, t).Out? && InUse(acts, h) ==> Enabled(s, Peek(t, h)))
      && (!At(s, t).Out? ==> Enabled(s, Swap(t)) || Enabled(s, Write(t)))
  {
    OpenExactly(eventfd, capacity, acts, h);
  }

  // Any handle can be opened once, and closed while it is in use.
  lemma CanOpenAndClose(eventfd: bool, capacity: nat, acts: seq<Action>, h: Handle, cb: bool)
    requires capacity > 0 && Runs(Init(eventfd, capacity), acts)
    ensures var s := Last(Init(eventfd, capacity), acts);
      && (Enabled(s, Open(h, cb)) <==> !Opened(acts, h)) && (Enabled(s, Close(h)) <==> InUse(acts, h))
  {
    OpenExactly(eventfd, capacity, acts, h);
    KnownRun(Init(eventfd, capacity), acts, h);
  }

  lemma {:induction false} KnownRun(s: State, acts: seq<Action>, h: Handle)
    requires Inv(s) && Runs(s, acts)
    ensures h in Last(s, acts).pending <==> h in s.pending || Opened(acts, h)
    decreases |acts|
  {
    hide Next, Enabled, Inv;
    if acts != [] {
      RunsFirst(s, acts);
      OpenNext(s, acts[0], h);
      NextInv(s, acts[0]);
      KnownRun(Next(s, acts[0]), acts[1..], h);
      OpenedFirst(acts, h);
    }
  }

  lemma {:induction false} Concat(s: State, a: seq<Action>, b: seq<Action>)
    ensures Runs(s, a + b) <==> Runs(s, a) && Runs(Last(s, a), b)
    ensures Runs(s, a + b) ==> Last(s, a + b) == Last(Last(s, a), b)
    decreases |a|
  {
    hide Next, Enabled;
    if a == [] {
      assert a + b == b;
    } else {
      assert (a + b)[0] == a[0] && (a + b)[1..] == a[1..] + b;
      if Enabled(s, a[0]) {
        Concat(Next(s, a[0]), a[1..], b);
      }
    }
  }

  // Once sent to, a handle in use is served before the end of the next pass.
  lemma PassServes(eventfd: bool, capacity: nat, acts: seq<Action>, more: seq<Action>, h: Handle)
    requires capacity > 0 && Runs(Init(eventfd, capacity), acts + more) && InUse(acts + more, h) && Opened(acts, h)
    requires Runs(Init(eventfd, capacity), acts) && Pending(Last(Init(eventfd, capacity), acts), h)
    requires Move in more && Last(Init(eventfd, capacity), acts + more).phase.Idle?
    ensures var s, t := Last(Init(eventfd, capacity), acts), Last(Init(eventfd, capacity), acts + more);
      && Count(t.taken, h) > Count(s.taken, h)
      && (Open(h, true) in acts ==> Count(t.calls, h) > Count(s.calls, h))
  {
    hide Next, Enabled, Runs, Last, Count, Pending, Inv;
    var s0 := Init(eventfd, capacity);
    Concat(s0, acts, more);
    OpenExactly(eventfd, capacity, acts, h);
    ServedInPass(Last(s0, acts), more, h);
  }

  // No callback comes after a handle has been closed, not even for a wakeup under way.
  lemma NoCallAfterClose(eventfd: bool, capacity: nat, acts: seq<Action>, more: seq<Action>, h: Handle)
    requires capacity > 0 && Runs(Init(eventfd, capacity), acts + [Close(h)] + more)
    ensures Runs(Init(eventfd, capacity), acts)
    ensures Count(Last(Init(eventfd, capacity), acts + [Close(h)] + more).calls, h)
      == Count(Last(Init(eventfd, capacity), acts).calls, h)
  {
    hide Next, Enabled, Inv, Count;
    var s0 := Init(eventfd, capacity);
    Concat(s0, acts + [Close(h)], more);
    Concat(s0, acts, [Close(h)]);
    OpenExactly(eventfd, capacity, acts, h);
    var s := Last(s0, acts);
    RunsFirst(s, [Close(h)]);
    InvQueues(s);
    CloseCloses(s, h);
    ClosedRun(Next(s, Close(h)), more, h);
  }

  lemma InvQueues(s: State)
    requires Inv(s)
    ensures QueuesOk(s) && (!s.phase.Dispatching? ==> s.todo == [])
  {}

  // ---- the loop thread alone ----

  predicate OfLoop(a: Action) { a.Poll? || a.Read? || a.Move? || a.Visit? || a.Return? }

  function Way(s: State): nat {
    match s.phase
    case Idle => 0
    case Dispatching => |s.todo| + 1
    case Drained => |s.list| + 2
    case Reading => s.unread + |s.list| + 3
  }

  // The loop's next step, when it does not wait: the read loop ends, a pass
  // begins after it and ends, and the descriptor is read empty before it.
  lemma LoopStep(s: State) returns (a: Action)
    requires Inv(s) && !s.phase.Idle?
    ensures OfLoop(a) && Enabled(s, a) && Way(Next(s, a)) < Way(s) && Next(s, a).won == s.won
    ensures a.Move? <==> s.phase.Drained?
    ensures s.phase.Reading? ==> Next(s, a).phase.Reading? || (Next(s, a).phase.Drained? && Next(s, a).unread == 0)
    ensures s.phase.Drained? ==> Next(s, a).phase.Dispatching?
    ensures s.phase.Dispatching? ==>
      (Next(s, a).phase.Dispatching? || Next(s, a).phase.Idle?) && Next(s, a).unread == s.unread
  {
    match s.phase
    case Reading => a := Read;
    case Drained => a := Move;
    case Dispatching => a := if s.todo == [] then Return else Visit;
  }

  // Whatever the loop is at, it gets back to waiting by itself.
  lemma {:induction false} LoopReturns(s: State) returns (run: seq<Action>)
    requires Inv(s)
    ensures Runs(s, run) && Last(s, run).phase.Idle? && Inv(Last(s, run)) && Last(s, run).won == s.won
    ensures forall a :: a in run ==> OfLoop(a)
    ensures s.phase.Reading? || s.phase.Drained? <==> Move in run
    ensures s.phase.Dispatching? || s.phase.Idle? ==> Last(s, run).unread == s.unread
    decreases Way(s)
  {
    if s.phase.Idle? {
      return [];
    }
    var a := LoopStep(s);
    NextInv(s, a);
    hide Next, Enabled, Inv, Way;
    var rest := LoopReturns(Next(s, a));
    run := [a] + rest;
    assert run[0] == a && run[1..] == rest;
  }

  // The same from waiting, when there is something to read.
  lemma LoopTurns(s: State) returns (run: seq<Action>)
    requires Inv(s) && s.phase.Idle? && s.unread > 0
    ensures Runs(s, run) && Last(s, run).phase.Idle? && Inv(Last(s, run)) && Last(s, run).won == s.won
    ensures (forall a :: a in run ==> OfLoop(a)) && Move in run
  {
    NextInv(s, Poll);
    var rest := LoopReturns(Next(s, Poll));
    run := [Poll] + rest;
    assert run[0] == Poll && run[1..] == rest;
  }

  // A pending handle in use whose senders have written is served by the loop
  // thread alone, wherever that is.
  lemma ServedAlone(s: State, h: Handle) returns (run: seq<Action>)
    requires Inv(s) && IsOpen(s, h) && Pending(s, h) && !InFlight(s, h)
    ensures Runs(s, run) && (forall a :: a in run ==> OfLoop(a)) && Last(s, run).phase.Idle?
    ensures !Pending(Last(s, run), h)
    ensures h in s.hasCallback ==> Count(Last(s, run).calls, h) == Count(s.calls, h) + 1
  {
    hide Next, Runs, Last, Count, Pending, InFlight, Apart, Distinct, CountsOk;
    assert Covered(s, h);
    if s.phase.Idle? {
      run := LoopTurns(s);
    } else {
      run := LoopReturns(s);
      if s.phase.Dispatching? && h !in s.todo {
        var t := Last(s, run);
        var more := LoopTurns(t);
        Concat(s, run, more);
        run := run + more;
      }
    }
    WaitsRun(s, run, h, Count(s.taken, h), s.phase.Dispatching? && h in s.todo);
    ServedCount(s, run, h);
  }

  lemma ServedCount(s: State, run: seq<Action>, h: Handle)
    requires Inv(s) && Runs(s, run) && Inv(Last(s, run)) && Pending(s, h) && Last(s, run).won == s.won
    requires Count(Last(s, run).taken, h) > Count(s.taken, h)
    ensures !Pending(Last(s, run), h)
    ensures h in s.hasCallback ==> Count(Last(s, run).calls, h) == Count(s.calls, h) + 1
  {
    assert CountOk(s, h) && CountOk(Last(s, run), h);
    if h in s.hasCallback {
      CallbackStays(s, run, h);
    }
  }

  // ---- the order of the handles ----

  function Visited(s: State, acts: seq<Action>): seq<Handle>
    requires Runs(s, acts)
    decreases |acts|
  {
    if acts == [] then [] else
      var v := Visited(Next(s, acts[0]), acts[1..]);
      if acts[0].Visit? then [s.todo[0]] + v else v
  }

  // The handles opened and not closed, in the order in which they were opened.
  function InOrder(acts: seq<Action>): seq<Handle> {
    if acts == [] then [] else
      var init := InOrder(acts[..|acts| - 1]);
      match acts[|acts| - 1]
      case Open(h, _) => init + [h]
      case Close(h) => Without(init, h)
      case _ => init
  }

  predicate Calm(acts: seq<Action>) { forall a :: a in acts ==> !a.Move? && !a.Close? }

  // A pass goes through the handles it found in the order they have in the list.
  lemma {:induction false} VisitedInOrder(s: State, acts: seq<Action>)
    requires Runs(s, acts) && Calm(acts)
    ensures Visited(s, acts) + Last(s, acts).todo == s.todo
    ensures (forall a :: a in acts ==> !a.Open?) ==> Last(s, acts).list == s.list + Visited(s, acts)
    decreases |acts|
  {
    hide Next, Enabled;
    if acts == [] {
      assert s.list + [] == s.list;
    } else {
      RunsFirst(s, acts);
      var t := Next(s, acts[0]);
      VisitedInOrder(t, acts[1..]);
      CalmStep(s, acts[0]);
      assert acts == [acts[0]] + acts[1..];
      if acts[0].Visit? {
        assert s.todo == [s.todo[0]] + t.todo;
        Associative(s.list, [s.todo[0]], Visited(t, acts[1..]));
      }
    }
  }

  lemma CalmStep(s: State, a: Action)
    requires Enabled(s, a) && !a.Move? && !a.Close?
    ensures Next(s, a).todo == if a.Visit? then s.todo[1..] else s.todo
    ensures Next(s, a).list == s.list + (if a.Visit? then [s.todo[0]] else if a.Open? then [a.h] else [])
  {
    hide DoRead, DoVisit, Without, Count, Pending, IsOpen;
    if a.Visit? { VisitKeeps(s); }
    if a.Read? { ReadKeeps(s); }
  }

  // Before the first pass the list holds the handles in the order of uv_async_init.
  lemma {:induction false} ListInOrder(eventfd: bool, capacity: nat, acts: seq<Action>)
    requires capacity > 0 && Runs(Init(eventfd, capacity), acts) && Move !in acts
    ensures var s := Last(Init(eventfd, capacity), acts); s.list == InOrder(acts) && s.todo == []
    decreases |acts|
  {
    if acts != [] {
      var s0, init, a := Init(eventfd, capacity), acts[..|acts| - 1], acts[|acts| - 1];
      assert acts == init + [a];
      Concat(s0, init, [a]);
      ListInOrder(eventfd, capacity, init);
      RunsFirst(Last(s0, init), [a]);
      if !a.Close? {
        CalmStep(Last(s0, init), a);
      }
    }
  }

  // The first pass visits the handles in the order in which they were opened.
  lemma FirstPass(eventfd: bool, capacity: nat, acts: seq<Action>, more: seq<Action>)
    requires capacity > 0 && Runs(Init(eventfd, capacity), acts + ([Move] + more)) && Move !in acts && Calm(more)
    ensures Runs(Init(eventfd, capacity), acts)
    ensures Runs(Last(Init(eventfd, capacity), acts), [Move] + more)
    ensures Visited(Last(Init(eventfd, capacity), acts), [Move] + more) <= InOrder(acts)
  {
    hide Enabled, InOrder;
    var s0 := Init(eventfd, capacity);
    Concat(s0, acts, [Move] + more);
    ListInOrder(eventfd, capacity, acts);
    var s := Last(s0, acts);
    assert ([Move] + more)[1..] == more;
    RunsFirst(s, [Move] + more);
    VisitedInOrder(Next(s, Move), more);
  }

  // A pass to the end, without handles opened or closed in it, visits each
  // handle once and leaves the list as it was.
  lemma PassKeepsOrder(s: State, more: seq<Action>)
    requires Inv(s) && Runs(s, [Move] + more) && Calm(more) && (forall a :: a in more ==> !a.Open?)
    requires Last(s, [Move] + more).phase.Idle?
    ensures Visited(s, [Move] + more) == s.list == Last(s, [Move] + more).list
  {
    hide Enabled, Inv;
    var all := [Move] + more;
    assert all[1..] == more;
    RunsFirst(s, all);
    var t := Next(s, Move);
    VisitedInOrder(t, more);
    RunInv(s, all);
    InvQueues(Last(s, all));
    assert t.todo == s.list && t.list == [];
    assert Visited(t, more) + [] == Visited(t, more) && [] + Visited(t, more) == Visited(t, more);
  }

  // ---- the descriptor ----

  function Writes(acts: seq<Action>): nat {
    if acts == [] then 0 else (if acts[0].Write? then 1 else 0) + Writes(acts[1..])
  }

  // Between reads the descriptor counts the writes, as far as it holds them.
  lemma {:induction false} WritesCounted(s: State, acts: seq<Action>)
    requires Runs(s, acts) && Read !in acts && s.unread <= s.capacity
    ensures var t := Last(s, acts);
      t.unread == if s.unread + Writes(acts) < s.capacity then s.unread + Writes(acts) else s.capacity
    decreases |acts|
  {
    if acts != [] {
      assert acts == [acts[0]] + acts[1..];
      WriteStep(s, acts[0]);
      WritesCounted(Next(s, acts[0]), acts[1..]);
    }
  }

  lemma WriteStep(s: State, a: Action)
    requires Enabled(s, a) && !a.Read? && s.unread <= s.capacity
    ensures Next(s, a).capacity == s.capacity
    ensures Next(s, a).unread == s.unread + if a.Write? && s.unread < s.capacity then 1 else 0
  {}
}
