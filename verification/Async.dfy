// async.c: wakeups of an event loop from other threads. Every action is one
// atomic operation of a sender or one step of the loop thread, so any
// interleaving is a sequence of actions.
module Async {
  import opened Sequences

  type Handle = nat
  type Thread = nat

  // Where a thread is in uv_async_send: outside, past the cheap read that saw
  // 0, or past the compare-and-swap that won and before the end of write().
  datatype Sender = Out | Peeked(h: Handle) | Won(h: Handle)

  // Where the loop thread is: not in uv__async_io, in its read loop, between
  // the read loop and QUEUE_MOVE, or in the loop of uv__async_event.
  datatype Phase = Idle | Reading | Drained | Dispatching

  datatype State = State(
    eventfd: bool,              // else a pipe
    capacity: nat,              // what the descriptor holds before write() fails with EAGAIN
    unread: nat,                // the eventfd counter, or the bytes in the pipe
    phase: Phase,
    list: seq<Handle>,          // loop->async_handles
    todo: seq<Handle>,          // the local queue of uv__async_event
    pending: map<Handle, bool>, // handle->pending, of every handle ever opened
    hasCallback: set<Handle>,   // handle->async_cb != NULL
    senders: map<Thread, Sender>,
    won: map<Handle, nat>,      // compare-and-swaps from 0 to 1
    taken: map<Handle, nat>,    // compare-and-swaps from 1 to 0
    calls: map<Handle, nat>,    // async_cb calls
    aborted: bool)

  function Init(eventfd: bool, capacity: nat): State {
    State(eventfd, capacity, 0, Idle, [], [], map[], {}, map[], map[], map[], map[], false)
  }

  datatype Action =
    | Open(h: Handle, callback: bool)
    | Close(h: Handle)
    | Peek(t: Thread, h: Handle)
    | Swap(t: Thread)
    | Write(t: Thread)
    | Poll
    | Read
    | Move
    | Visit
    | Return

  function At(s: State, t: Thread): Sender { if t in s.senders then s.senders[t] else Out }

  predicate IsOpen(s: State, h: Handle) { h in s.list || h in s.todo }

  predicate Pending(s: State, h: Handle) { h in s.pending && s.pending[h] }

  function Count(m: map<Handle, nat>, h: Handle): nat { if h in m then m[h] else 0 }

  function Bump(m: map<Handle, nat>, h: Handle): map<Handle, nat> { m[h := Count(m, h) + 1] }

  // A wakeup may come whenever a thread has a handle that is open; what the
  // loop does next depends on where it is.
  predicate Enabled(s: State, a: Action) {
    match a
    case Open(h, _) => h !in s.pending
    case Close(h) => IsOpen(s, h)
    case Peek(t, h) => At(s, t).Out? && IsOpen(s, h)
    case Swap(t) => At(s, t).Peeked?
    case Write(t) => At(s, t).Won?
    case Poll => s.phase.Idle? && s.unread > 0
    case Read => s.phase.Reading?
    case Move => s.phase.Drained?
    case Visit => s.phase.Dispatching? && s.todo != []
    case Return => s.phase.Dispatching? && s.todo == []
  }

  // One turn of the read loop: an eventfd is reset by one read of 8 bytes, a
  // pipe gives up to 1024 bytes and is read again after a full buffer. With
  // nothing to read, read() fails with EAGAIN, and the loop asserts that an
  // eventfd gave it 8 bytes.
  function DoRead(s: State): State {
    if s.eventfd then
      s.(unread := 0, phase := Drained, aborted := s.aborted || s.unread == 0)
    else if s.unread >= 1024 then
      s.(unread := s.unread - 1024)
    else
      s.(unread := 0, phase := Drained)
  }

  // One turn of the loop of uv__async_event
  function DoVisit(s: State): State
    requires s.todo != []
  {
    var h := s.todo[0];
    var wakes := Pending(s, h);
    s.(todo := s.todo[1..], list := s.list + [h],
      pending := if wakes then s.pending[h := false] else s.pending,
      taken := if wakes then Bump(s.taken, h) else s.taken,
      calls := if wakes && h in s.hasCallback then Bump(s.calls, h) else s.calls)
  }

  function Next(s: State, a: Action): State
    requires Enabled(s, a)
  {
    match a
    case Open(h, callback) =>
      s.(pending := s.pending[h := false], list := s.list + [h],
        hasCallback := if callback then s.hasCallback + {h} else s.hasCallback)
    case Close(h) => s.(list := Without(s.list, h), todo := Without(s.todo, h))
    case Peek(t, h) => if Pending(s, h) then s else s.(senders := s.senders[t := Peeked(h)])
    case Swap(t) =>
      var h := s.senders[t].h;
      if Pending(s, h) then s.(senders := s.senders[t := Out])
      else s.(senders := s.senders[t := Won(h)], pending := s.pending[h := true], won := Bump(s.won, h))
    case Write(t) =>
      s.(senders := s.senders[t := Out], unread := if s.unread < s.capacity then s.unread + 1 else s.unread)
    case Poll => s.(phase := Reading)
    case Read => DoRead(s)
    case Move => s.(phase := Dispatching, todo := s.list, list := [])
    case Visit => DoVisit(s)
    case Return => s.(phase := Idle)
  }

  ghost predicate Runs(s: State, acts: seq<Action>)
    decreases |acts|
  {
    acts == [] || (Enabled(s, acts[0]) && Runs(Next(s, acts[0]), acts[1..]))
  }

  ghost function Last(s: State, acts: seq<Action>): State
    requires Runs(s, acts)
    decreases |acts|
  {
    if acts == [] then s else Last(Next(s, acts[0]), acts[1..])
  }

  ghost predicate InFlight(s: State, h: Handle) {
    exists t :: At(s, t) == Won(h)
  }

  // Why a handle with pending == 1 will be seen: its wakeup is in the
  // descriptor, or its sender has still to write it, or the loop has read and
  // has not come to it.
  ghost predicate Covered(s: State, h: Handle) {
    s.unread > 0 || InFlight(s, h) || s.phase.Reading? || s.phase.Drained? || h in s.todo
  }

  ghost predicate Apart(list: seq<Handle>, todo: seq<Handle>) {
    Distinct(list) && Distinct(todo) && forall h :: h in list ==> h !in todo
  }

  ghost predicate QueuesOk(s: State) {
    && Apart(s.list, s.todo)
    && (forall h :: h in s.list ==> h in s.pending) && (forall h :: h in s.todo ==> h in s.pending)
    && (!s.phase.Dispatching? ==> s.todo == [])
  }

  ghost predicate CountOk(s: State, h: Handle) {
    && Count(s.won, h) == Count(s.taken, h) + (if Pending(s, h) then 1 else 0)
    && (h in s.hasCallback ==> h in s.pending && Count(s.calls, h) == Count(s.taken, h))
    && (h !in s.hasCallback ==> Count(s.calls, h) == 0)
    && (h !in s.pending ==> Count(s.won, h) == 0)
  }

  ghost predicate SenderOk(s: State, t: Thread) {
    !At(s, t).Out? ==> At(s, t).h in s.pending
  }

  ghost predicate CountsOk(s: State) {
    (forall h {:trigger CountOk(s, h)} :: CountOk(s, h)) && (forall t {:trigger SenderOk(s, t)} :: SenderOk(s, t))
  }

  ghost predicate DescriptorOk(s: State) {
    s.capacity > 0 && !s.aborted && (s.eventfd && s.phase.Reading? ==> s.unread > 0)
  }

  ghost predicate WakeupsOk(s: State) {
    forall h :: IsOpen(s, h) && Pending(s, h) ==> Covered(s, h)
  }

  ghost predicate Inv(s: State) { QueuesOk(s) && CountsOk(s) && DescriptorOk(s) && WakeupsOk(s) }

  lemma InitInv(eventfd: bool, capacity: nat)
    requires capacity > 0
    ensures Inv(Init(eventfd, capacity))
  {}

  lemma CloseApart(list: seq<Handle>, todo: seq<Handle>, h: Handle)
    requires Apart(list, todo)
    ensures Apart(Without(list, h), Without(todo, h))
  {
    WithoutMembers(list, h);
    WithoutMembers(todo, h);
    WithoutDistinct(list, h);
    WithoutDistinct(todo, h);
  }

  lemma VisitApart(list: seq<Handle>, todo: seq<Handle>)
    requires Apart(list, todo) && todo != []
    ensures Apart(list + [todo[0]], todo[1..])
    ensures forall h :: h in todo <==> h == todo[0] || h in todo[1..]
  {
    DistinctAppend(list, todo[0]);
    assert todo == [todo[0]] + todo[1..];
  }

  lemma NextQueues(s: State, a: Action)
    requires Enabled(s, a) && QueuesOk(s)
    ensures QueuesOk(Next(s, a))
  {
    hide Distinct, Without, Count, DoRead, DoVisit;
    match a
    case Read =>
      ReadKeeps(s);
    case Open(h, _) =>
      DistinctAppend(s.list, h);
    case Close(h) =>
      CloseApart(s.list, s.todo, h);
      WithoutMembers(s.list, h);
      WithoutMembers(s.todo, h);
    case Visit =>
      VisitKeeps(s);
      VisitApart(s.list, s.todo);
    case Move =>
      EmptyDistinct();
    case _ =>
  }

  lemma EmptyDistinct()
    ensures Distinct<Handle>([])
  {}

  // The read loop touches the descriptor only.
  lemma ReadKeeps(s: State)
    ensures var s' := DoRead(s); s' == s.(unread := s'.unread, phase := s'.phase, aborted := s'.aborted)
    ensures s.phase.Reading? ==> DoRead(s).phase.Reading? || DoRead(s).phase.Drained?
  {}

  lemma VisitKeeps(s: State)
    requires s.todo != []
    ensures var s' := DoVisit(s);
      && s' == s.(todo := s.todo[1..], list := s.list + [s.todo[0]], pending := s'.pending, taken := s'.taken,
        calls := s'.calls)
      && s'.pending.Keys == s.pending.Keys
  {}

  lemma VisitCount(s: State, h: Handle)
    requires CountOk(s, h) && s.todo != []
    ensures CountOk(DoVisit(s), h)
  {
    hide Count, Bump;
    var q, s' := s.todo[0], DoVisit(s);
    BumpCount(s.taken, q, h);
    BumpCount(s.calls, q, h);
  }

  lemma BumpCount(m: map<Handle, nat>, q: Handle, h: Handle)
    ensures Count(Bump(m, q), h) == Count(m, h) + if h == q then 1 else 0
  {}

  lemma SwapCount(s: State, t: Thread, h: Handle)
    requires Enabled(s, Swap(t)) && CountOk(s, h) && SenderOk(s, t)
    ensures CountOk(Next(s, Swap(t)), h)
  {
    hide DoVisit, DoRead, Without, Count, Bump;
    var x := s.senders[t].h;
    BumpCount(s.won, x, h);
  }

  lemma CountNext(s: State, a: Action, h: Handle)
    requires Enabled(s, a) && QueuesOk(s) && CountsOk(s)
    ensures CountOk(Next(s, a), h)
  {
    hide QueuesOk, Distinct, Without, DoRead, DoVisit, Count;
    assert CountOk(s, h);
    match a
    case Swap(t) =>
      assert SenderOk(s, t);
      SwapCount(s, t, h);
    case Visit =>
      VisitCount(s, h);
    case Read =>
      ReadKeeps(s);
    case _ =>
  }

  lemma SenderNext(s: State, a: Action, t: Thread)
    requires Enabled(s, a) && QueuesOk(s) && CountsOk(s)
    ensures SenderOk(Next(s, a), t)
  {
    hide Apart, Distinct, Without, Count, DoRead, DoVisit, CountOk, Pending;
    assert SenderOk(s, t);
    if a.Visit? { VisitKeeps(s); }
    if a.Read? { ReadKeeps(s); }
  }

  lemma NextCounts(s: State, a: Action)
    requires Enabled(s, a) && QueuesOk(s) && CountsOk(s)
    ensures CountsOk(Next(s, a))
  {
    hide Next, CountOk, SenderOk;
    forall h ensures CountOk(Next(s, a), h) { CountNext(s, a, h); }
    forall t ensures SenderOk(Next(s, a), t) { SenderNext(s, a, t); }
  }

  lemma NextDescriptor(s: State, a: Action)
    requires Enabled(s, a) && DescriptorOk(s)
    ensures DescriptorOk(Next(s, a))
  {}

  // A thread other than the one that moves stays where it is.
  lemma StillInFlight(s: State, a: Action, h: Handle)
    requires Enabled(s, a) && InFlight(s, h) && Next(s, a).unread == 0 && s.capacity > 0
    ensures InFlight(Next(s, a), h)
  {
    hide DoRead, DoVisit, Without, Pending;
    if a.Visit? { VisitKeeps(s); }
    if a.Read? { ReadKeeps(s); }
    var t :| At(s, t) == Won(h);
    assert At(Next(s, a), t) == Won(h);
  }

  lemma CoveredNext(s: State, a: Action, h: Handle)
    requires Inv(s) && Enabled(s, a) && IsOpen(Next(s, a), h) && Pending(Next(s, a), h)
    ensures Covered(Next(s, a), h)
  {
    hide Apart, CountsOk, Without, Count, DoVisit, DoRead, InFlight;
    var s' := Next(s, a);
    assert Pending(s, h) && IsOpen(s, h) ==> Covered(s, h);
    if InFlight(s, h) && s'.unread == 0 {
      StillInFlight(s, a, h);
    }
    match a
    case Close(x) =>
      WithoutMembers(s.list, x);
      WithoutMembers(s.todo, x);
    case Swap(t) =>
      if !Pending(s, h) {
        SwapCovered(s, t, h);
      }
    case Visit =>
      VisitCovered(s, h);
    case Read =>
      ReadKeeps(s);
    case _ =>
  }

  lemma SwapCovered(s: State, t: Thread, h: Handle)
    requires Enabled(s, Swap(t)) && !Pending(s, h) && Pending(Next(s, Swap(t)), h)
    ensures InFlight(Next(s, Swap(t)), h)
  {
    hide DoVisit, DoRead, Without, Count;
    assert At(Next(s, Swap(t)), t) == Won(h);
  }

  lemma VisitCovered(s: State, h: Handle)
    requires s.todo != [] && IsOpen(DoVisit(s), h) && Pending(DoVisit(s), h)
    ensures Pending(s, h) && IsOpen(s, h) && DoVisit(s).unread == s.unread && DoVisit(s).phase == s.phase
    ensures h in s.todo ==> h in DoVisit(s).todo
  {
    hide Count, Bump;
    assert s.todo == [s.todo[0]] + s.todo[1..];
  }

  lemma NextInv(s: State, a: Action)
    requires Inv(s) && Enabled(s, a)
    ensures Inv(Next(s, a))
  {
    NextQueues(s, a);
    NextCounts(s, a);
    NextDescriptor(s, a);
    forall h | IsOpen(Next(s, a), h) && Pending(Next(s, a), h) ensures Covered(Next(s, a), h) {
      CoveredNext(s, a, h);
    }
  }

  lemma {:induction false} RunInv(s: State, acts: seq<Action>)
    requires Inv(s) && Runs(s, acts)
    ensures Inv(Last(s, acts))
    decreases |acts|
  {
    if acts != [] {
      NextInv(s, acts[0]);
      RunInv(Next(s, acts[0]), acts[1..]);
    }
  }

  // However uv_async_send goes, pending is 1 at the step that decides it.
  lemma SendDecided(s: State, t: Thread, h: Handle)
    requires Inv(s)
    ensures Enabled(s, Peek(t, h)) && At(Next(s, Peek(t, h)), t).Out? ==> Pending(Next(s, Peek(t, h)), h)
    ensures At(s, t) == Peeked(h) ==> Pending(Next(s, Swap(t)), h)
  {}

  // h has been served since base, or it is pending and, once a pass has begun, waits in it.
  ghost predicate Waits(s: State, h: Handle, base: nat, begun: bool) {
    Count(s.taken, h) > base || (Count(s.taken, h) == base && Pending(s, h) && IsOpen(s, h) && (begun ==> h in s.todo))
  }

  lemma WaitsNext(s: State, a: Action, h: Handle, base: nat, begun: bool)
    requires Inv(s) && Enabled(s, a) && Waits(s, h, base, begun) && a != Close(h)
    ensures Waits(Next(s, a), h, base, begun || a.Move?)
  {
    hide Inv, Without, DoRead, DoVisit, Count;
    match a
    case Close(x) =>
      WithoutMembers(s.list, x);
      WithoutMembers(s.todo, x);
    case Visit =>
      VisitWaits(s, h, base, begun);
    case Read =>
      ReadKeeps(s);
    case Move =>
      assert s.todo == [] by { InvDrained(s); }
    case Swap(t) =>
      SwapWaits(s, t, h, base, begun);
    case Open(x, _) =>
      OpenWaits(s, x, a.callback, h, base, begun);
    case _ =>
  }

  lemma InvDrained(s: State)
    requires Inv(s) && s.phase.Drained?
    ensures s.todo == []
  {}

  lemma VisitWaits(s: State, h: Handle, base: nat, begun: bool)
    requires s.todo != [] && Waits(s, h, base, begun)
    ensures Waits(DoVisit(s), h, base, begun)
  {
    hide Count, Bump;
    BumpCount(s.taken, s.todo[0], h);
    assert s.todo == [s.todo[0]] + s.todo[1..];
  }

  lemma SwapWaits(s: State, t: Thread, h: Handle, base: nat, begun: bool)
    requires Enabled(s, Swap(t)) && Waits(s, h, base, begun)
    ensures Waits(Next(s, Swap(t)), h, base, begun)
  {
    hide DoRead, DoVisit, Without;
  }

  lemma OpenWaits(s: State, x: Handle, callback: bool, h: Handle, base: nat, begun: bool)
    requires Enabled(s, Open(x, callback)) && Waits(s, h, base, begun)
    ensures Waits(Next(s, Open(x, callback)), h, base, begun)
  {
    hide DoRead, DoVisit, Without;
  }

  lemma {:induction false} WaitsRun(s: State, acts: seq<Action>, h: Handle, base: nat, begun: bool)
    requires Inv(s) && Runs(s, acts) && Waits(s, h, base, begun) && Close(h) !in acts
    ensures Waits(Last(s, acts), h, base, begun || Move in acts) && Inv(Last(s, acts))
    decreases |acts|
  {
    if acts != [] {
      WaitsNext(s, acts[0], h, base, begun);
      NextInv(s, acts[0]);
      WaitsRun(Next(s, acts[0]), acts[1..], h, base, begun || acts[0].Move?);
    }
  }

  // Whatever else happens, a handle that is pending is served before the end of the next pass of the loop.
  lemma ServedInPass(s: State, acts: seq<Action>, h: Handle)
    requires Inv(s) && Runs(s, acts) && Pending(s, h) && IsOpen(s, h)
    requires Move in acts && Close(h) !in acts && Last(s, acts).phase.Idle?
    ensures Inv(Last(s, acts)) && Count(Last(s, acts).taken, h) > Count(s.taken, h)
    ensures h in s.hasCallback ==> Count(Last(s, acts).calls, h) > Count(s.calls, h)
  {
    hide Next, Enabled, Runs, Last, Count, Pending;
    WaitsRun(s, acts, h, Count(s.taken, h), false);
    assert CountOk(s, h) && CountOk(Last(s, acts), h);
    if h in s.hasCallback {
      CallbackStays(s, acts, h);
    }
  }

  lemma {:induction false} CallbackStays(s: State, acts: seq<Action>, h: Handle)
    requires Runs(s, acts) && h in s.hasCallback
    ensures h in Last(s, acts).hasCallback
    decreases |acts|
  {
    hide Next;
    if acts != [] {
      CallbackStep(s, acts[0]);
      CallbackStays(Next(s, acts[0]), acts[1..], h);
    }
  }

  lemma CallbackStep(s: State, a: Action)
    requires Enabled(s, a)
    ensures s.hasCallback <= Next(s, a).hasCallback
  {
    hide DoRead, DoVisit, Without, Pending, Count;
    if a.Visit? { VisitKeeps(s); }
    if a.Read? { ReadKeeps(s); }
  }

  function Visits(acts: seq<Action>): nat {
    if acts == [] then 0 else (if acts[0].Visit? then 1 else 0) + Visits(acts[1..])
  }

  lemma TodoShrinks(s: State, a: Action)
    requires Enabled(s, a) && !a.Move?
    ensures |Next(s, a).todo| + (if a.Visit? then 1 else 0) <= |s.todo|
  {
    hide DoRead, Count, Pending;
    if a.Close? { WithoutMembers(s.todo, a.h); }
    if a.Read? { ReadKeeps(s); }
  }

  // A pass ends: the handles it visits are no more than those it found.
  lemma {:induction false} PassEnds(s: State, acts: seq<Action>)
    requires Runs(s, acts) && Move !in acts
    ensures Visits(acts) <= |s.todo|
    decreases |acts|
  {
    if acts != [] {
      TodoShrinks(s, acts[0]);
      PassEnds(Next(s, acts[0]), acts[1..]);
    }
  }

  // Closed for good: known, and in no list.
  predicate Closed(s: State, h: Handle) { h in s.pending && !IsOpen(s, h) }

  lemma CloseCloses(s: State, h: Handle)
    requires Enabled(s, Close(h)) && QueuesOk(s)
    ensures Closed(Next(s, Close(h)), h) && Next(s, Close(h)).calls == s.calls
  {
    WithoutMembers(s.list, h);
    WithoutMembers(s.todo, h);
  }

  lemma ClosedNext(s: State, a: Action, h: Handle)
    requires Enabled(s, a) && Closed(s, h)
    ensures Closed(Next(s, a), h) && Count(Next(s, a).calls, h) == Count(s.calls, h)
  {
    hide Without, DoRead, DoVisit, Count;
    match a
    case Close(x) =>
      WithoutMembers(s.list, x);
      WithoutMembers(s.todo, x);
    case Visit =>
      VisitOther(s, h);
    case Read =>
      ReadKeeps(s);
    case _ =>
  }

  lemma VisitOther(s: State, h: Handle)
    requires s.todo != [] && Closed(s, h)
    ensures Closed(DoVisit(s), h) && Count(DoVisit(s).calls, h) == Count(s.calls, h)
  {
    hide Count, Bump;
    BumpCount(s.calls, s.todo[0], h);
    assert s.todo == [s.todo[0]] + s.todo[1..];
  }

  lemma {:induction false} ClosedRun(s: State, acts: seq<Action>, h: Handle)
    requires Runs(s, acts) && Closed(s, h)
    ensures Count(Last(s, acts).calls, h) == Count(s.calls, h)
    decreases |acts|
  {
    hide Next, Enabled, Closed, Count;
    if acts != [] {
      RunsFirst(s, acts);
      ClosedNext(s, acts[0], h);
      ClosedRun(Next(s, acts[0]), acts[1..], h);
    }
  }

  lemma RunsFirst(s: State, acts: seq<Action>)
    requires Runs(s, acts) && acts != []
    ensures Enabled(s, acts[0]) && Runs(Next(s, acts[0]), acts[1..])
  {}
}
