// Every request gets its callback if only the workers and its loop go on.
module ThreadPoolServes {
  import opened Sequences
  import opened ThreadPool
  import opened ThreadPoolSteps
  import opened ThreadPoolRuns
  import opened ThreadPoolOrder

  function Load(s: State): nat { 4 * |s.wq| + Phases(s.phase) }

  lemma {:induction false} Join(s: State, a: seq<Action>, b: seq<Action>)
    requires Possible(s, a) && Possible(After(s, a), b)
    ensures Possible(s, a + b) && After(s, a + b) == After(After(s, a), b)
    decreases |a|
  {
    hide Next, Enabled;
    if a == [] {
      assert a + b == b;
    } else {
      assert (a + b)[0] == a[0] && (a + b)[1..] == a[1..] + b;
      Join(Next(s, a[0]), a[1..], b);
    }
  }

  // With a request at the head of the queue some worker can move.
  lemma WorkerStep(s: State) returns (a: Action)
    requires Inv(s) && s.phase != [] && s.wq != [] && s.wq[0].Job?
    ensures OfWorker(a) && Enabled(s, a) && Load(Next(s, a)) < Load(s)
  {
    assert Exited !in s.phase;
    assert exists i :: 0 <= i < |s.phase| && Awake(s.phase[i]) by {
      if Asleep !in s.phase {
        assert s.phase[0] in s.phase && Awake(s.phase[0]);
      }
    }
    var i: nat :| i < |s.phase| && Awake(s.phase[i]);
    var p := s.phase[i];
    assert p in s.phase && Awake(p);
    if p.Running? || p.Ran? {
      a := HolderStep(s, i);
    } else {
      var w := if Asleep in s.phase then IndexOf(s.phase, Asleep) else 0;
      a := Turn(i, w);
      PhasesUpdate(s.phase, i, Running(s.wq[0].r));
      assert s.wq == [s.wq[0]] + s.wq[1..];
    }
  }

  // A worker that holds a request can go on with it.
  lemma HolderStep(s: State, i: nat) returns (a: Action)
    requires Inv(s) && i < |s.phase| && (s.phase[i].Running? || s.phase[i].Ran?)
    ensures a == (if s.phase[i].Ran? then Finish(i) else Execute(i)) && Enabled(s, a) && Load(Next(s, a)) < Load(s)
  {
    var r := s.phase[i].r;
    NeverAborts(s, i, r);
    a := if s.phase[i].Ran? then Finish(i) else Execute(i);
    PhasesUpdate(s.phase, i, if s.phase[i].Ran? then Ready else Ran(r));
  }

  // The request waits ahead of any exit message, or a worker has it.
  ghost predicate InWork(s: State, r: Req) {
    r in s.place && (Job(r) in BeforeExit(s.wq) || s.place[r].OnWorker?)
  }

  lemma InWorkNext(s: State, a: Action, r: Req)
    requires Inv(s) && Enabled(s, a) && OfWorker(a) && InWork(s, r) && Inv(Next(s, a))
    ensures InWork(Next(s, a), r) || (r in Next(s, a).work && Next(s, a).work[r] == Null)
    ensures Next(s, a).home == s.home && |Next(s, a).phase| == |s.phase|
  {
    TakenIsStarted(s, a);
    assert Story(s, r) && Story(Next(s, a), r);
  }

  lemma BeforeExitHead(q: seq<Item>)
    ensures BeforeExit(q) != [] ==> q != [] && q[0].Job?
  {}

  lemma {:induction false} WorkersRun(s: State, r: Req) returns (run: seq<Action>)
    requires Inv(s) && s.phase != [] && InWork(s, r)
    ensures Possible(s, run) && (forall a :: a in run ==> OfWorker(a))
    ensures var t := After(s, run); Inv(t) && r in t.work && t.work[r] == Null && t.home == s.home
    decreases Load(s)
  {
    var a;
    if s.place[r].OnWorker? {
      a := HolderStep(s, s.place[r].i);
    } else {
      BeforeExitHead(s.wq);
      a := WorkerStep(s);
    }
    NextInv(s, a);
    InWorkNext(s, a, r);
    hide Inv, Next, Enabled, Load;
    if InWork(Next(s, a), r) {
      var rest := WorkersRun(Next(s, a), r);
      run := [a] + rest;
      assert run[0] == a && run[1..] == rest;
    } else {
      run := [a];
      assert run[0] == a && run[1..] == [];
    }
  }

  predicate OfLoop(a: Action, l: nat) { a == CancelInsert(l) || a == Collect(l) || a == Fire(l) }

  function Backlog(s: State, l: nat): nat
    requires l < |s.loops|
  {
    var q := s.loops[l];
    (if q.limbo.Some? then 3 else 0) + 2 * |q.wq| + |q.batch|
  }

  // The request is on its way to its callback in loop l.
  ghost predicate AtLoop(s: State, l: nat, r: Req) {
    && l < |s.loops| && r in s.place && r in s.home && s.home[r] == l
    && (s.place[r].InLimbo? || s.place[r].InLoop? || s.place[r].InBatch?)
  }

  lemma LoopStep(s: State, l: nat, r: Req) returns (a: Action)
    requires Inv(s) && AtLoop(s, l, r)
    ensures OfLoop(a, l) && Enabled(s, a)
    ensures var t := Next(s, a); (AtLoop(t, l, r) || Reported(t, r)) && l < |t.loops| && Backlog(t, l) < Backlog(s, l)
  {
    hide WakeOk, ExitOk, PoolOk, WorkersOk;
    assert LoopOk(s, l);
    var q := s.loops[l];
    if q.limbo.Some? {
      a := CancelInsert(l);
    } else if q.batch == [] {
      a := Collect(l);
    } else {
      a := Fire(l);
      assert Story(s, q.batch[0]);
      assert q.batch == [q.batch[0]] + q.batch[1..];
      if r == q.batch[0] {
        assert (r, s.work[r] == Cancelled) in Next(s, a).fired;
      }
    }
  }

  lemma {:induction false} LoopRuns(s: State, l: nat, r: Req) returns (run: seq<Action>)
    requires Inv(s) && AtLoop(s, l, r)
    ensures Possible(s, run) && (forall a :: a in run ==> OfLoop(a, l)) && Reported(After(s, run), r)
    decreases Backlog(s, l)
  {
    var a := LoopStep(s, l, r);
    NextInv(s, a);
    hide Inv, Next, Enabled, AtLoop, Reported;
    if Reported(Next(s, a), r) {
      run := [a];
      assert run[0] == a && run[1..] == [];
    } else {
      var rest := LoopRuns(Next(s, a), l, r);
      run := [a] + rest;
      assert run[0] == a && run[1..] == rest;
    }
  }

  // A thread whose cancel is not under way can submit a new request, and cancel
  // one of its loop until its callback has come; the pool can be told to exit once.
  lemma CanCall(s: State, l: nat, r: Req) returns (w: nat)
    requires Inv(s) && l < |s.loops| && s.loops[l].limbo.None?
    ensures r !in s.work ==> Enabled(s, Submit(r, l, w))
    ensures r in s.work && s.home[r] == l ==> (Enabled(s, Cancel(r, l)) <==> !Reported(s, r))
    ensures ExitMessage !in s.wq ==> Enabled(s, Exit(w))
  {
    w := if Asleep in s.phase then IndexOf(s.phase, Asleep) else 0;
  }

  // From every reachable state, whatever the other threads have done, the
  // workers and one loop can bring any request to its callback, unless it was
  // submitted after the exit message or there is no worker.
  lemma Served(s: State, r: Req) returns (run: seq<Action>)
    requires Inv(s) && r in s.work && (Job(r) in s.wq ==> r in s.early && s.phase != [])
    ensures Possible(s, run) && Reported(After(s, run), r)
    ensures forall a :: a in run ==> OfWorker(a) || OfLoop(a, s.home[r])
  {
    assert Story(s, r);
    run := [];
    if s.place[r].InPool? || s.place[r].OnWorker? {
      run := WorkersRun(s, r);
    }
    var t := After(s, run);
    Located(t, r);
    if AtLoop(t, s.home[r], r) {
      var more := LoopRuns(t, s.home[r], r);
      Join(s, run, more);
      run := run + more;
    }
  }

  lemma Located(t: State, r: Req)
    requires Inv(t) && r in t.work && r in t.place &&
      (t.work[r] == Null || (!t.place[r].InPool? && !t.place[r].OnWorker?))
    ensures Reported(t, r) || (r in t.home && AtLoop(t, t.home[r], r))
  {
    assert Story(t, r);
  }
}
