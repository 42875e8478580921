// What holds of the thread pool in every interleaving.
module ThreadPoolRuns {
  import opened Sequences
  import opened ThreadPool
  import opened ThreadPoolSteps

  // An interleaving: each action is enabled where it happens.
  predicate Possible(s: State, run: seq<Action>)
    decreases |run|
  {
    run != [] ==> Enabled(s, run[0]) && Possible(Next(s, run[0]), run[1..])
  }

  function After(s: State, run: seq<Action>): State
    requires Possible(s, run)
    decreases |run|
  {
    if run == [] then s else After(Next(s, run[0]), run[1..])
  }

  lemma {:induction false} RunInv(s: State, run: seq<Action>)
    requires Inv(s) && Possible(s, run)
    ensures Inv(After(s, run))
    decreases |run|
  {
    if run != [] {
      NextInv(s, run[0]);
      hide Inv, Next, Enabled;
      RunInv(Next(s, run[0]), run[1..]);
    }
  }

  // Where the data structures, not the bookkeeping, put a request.
  ghost predicate Found(s: State, r: Req, p: Place) {
    match p
    case InPool => Job(r) in s.wq
    case OnWorker(i) => i < |s.phase| && (s.phase[i] == Running(r) || s.phase[i] == Ran(r))
    case InLimbo => exists l: nat :: l < |s.loops| && s.loops[l].limbo == Some(r)
    case InLoop => exists l: nat :: l < |s.loops| && r in s.loops[l].wq
    case InBatch => exists l: nat :: l < |s.loops| && r in s.loops[l].batch
    case Fired => exists b :: (r, b) in s.fired
  }

  // A submitted request is in exactly one place, and no list holds it twice.
  lemma OnePlace(s: State, r: Req, p: Place)
    requires Inv(s) && r in s.work
    ensures Found(s, r, p) <==> p == s.place[r]
    ensures Distinct(s.wq) && forall l: nat :: l < |s.loops| ==> Distinct(s.loops[l].wq) && Distinct(s.loops[l].batch)
  {
    assert Story(s, r) && LoopOk(s, s.home[r]);
    forall l: nat | l < |s.loops|
      ensures Distinct(s.loops[l].wq) && Distinct(s.loops[l].batch)
      ensures (r in s.loops[l].wq ==> s.place[r] == InLoop) && (r in s.loops[l].batch ==> s.place[r] == InBatch)
      ensures s.loops[l].limbo == Some(r) ==> s.place[r] == InLimbo
    {
      assert LoopOk(s, l);
    }
    hide LoopsOk, Distinct;
  }

  predicate Once(fired: seq<(Req, bool)>, r: Req) {
    forall j, k :: 0 <= j < k < |fired| ==> fired[j].0 != r || fired[k].0 != r
  }

  // In every interleaving, from an idle pool of any size: done is called at most
  // once for a request; if uv__work_cancel returned 0 for it, the work function
  // never runs and done gets UV_ECANCELED; if it returned UV_EBUSY, a worker has
  // taken the request and is bound to enter the work function, and done gets 0.
  lemma CancelVerdict(workers: nat, loops: nat, run: seq<Action>, r: Req)
    requires Possible(Init(workers, loops), run)
    ensures var t := After(Init(workers, loops), run);
      && Once(t.fired, r)
      && (r in t.zero ==> r !in t.started && r !in t.busy && (r, false) !in t.fired)
      && (r in t.busy ==> r in t.started && (r, true) !in t.fired)
      && ((r, true) in t.fired ==> r in t.zero)
      && ((r, false) in t.fired ==> r in t.started)
  {
    InitInv(workers, loops);
    RunInv(Init(workers, loops), run);
    var t := After(Init(workers, loops), run);
    if r in t.place {
      assert Story(t, r);
    }
  }

  // uv__work_cancel succeeds on exactly the requests no worker has taken, and a
  // worker never takes a cancelled one (uv__cancelled would abort the process).
  lemma CancelOutcome(s: State, r: Req, l: nat)
    requires Inv(s) && Enabled(s, Cancel(r, l))
    ensures r !in s.started <==> r !in s.self && s.work[r] != Null
    ensures r in s.started <==> r in DoCancel(s, r, l).busy
  {
    assert Story(s, r);
  }

  lemma NeverAborts(s: State, i: nat, r: Req)
    requires Inv(s) && i < |s.phase| && (s.phase[i] == Running(r) || s.phase[i] == Ran(r))
    ensures r in s.work && s.work[r] == Work && Enabled(s, if s.phase[i].Ran? then Finish(i) else Execute(i))
  {
    assert At(s, r, OnWorker(i)) && Story(s, r);
  }

  // No lost wakeup, and no early exit, in every interleaving.
  lemma NoLostWakeup(workers: nat, loops: nat, run: seq<Action>)
    requires Possible(Init(workers, loops), run)
    ensures var t := After(Init(workers, loops), run);
      && (t.wq != [] && (exists p :: p in t.phase && p != Exited) ==> exists p :: p in t.phase && Awake(p))
      && (Exited in t.phase ==> forall r :: r in t.early ==> Job(r) !in t.wq)
  {
    InitInv(workers, loops);
    RunInv(Init(workers, loops), run);
    var t := After(Init(workers, loops), run);
    if t.wq != [] && exists p :: p in t.phase && p != Exited {
      var p :| p in t.phase && p != Exited;
      if !Awake(p) {
        var i :| 0 <= i < |t.phase| && Awake(t.phase[i]);
        assert t.phase[i] in t.phase;
      }
    }
  }

  // How far the workers are from having all exited.
  function Cost(p: Phase): nat { match p case Running(_) => 3 case Ran(_) => 2 case Exited => 0 case _ => 1 }

  function Phases(p: seq<Phase>): nat { if p == [] then 0 else Phases(p[..|p| - 1]) + Cost(p[|p| - 1]) }

  lemma {:induction false} PhasesUpdate(p: seq<Phase>, i: nat, x: Phase)
    requires i < |p|
    ensures Phases(p[i := x]) == Phases(p) - Cost(p[i]) + Cost(x)
  {
    var n := |p| - 1;
    if i < n {
      PhasesUpdate(p[..n], i, x);
      assert p[i := x][..n] == p[..n][i := x];
    } else {
      assert p[i := x][..n] == p[..n];
    }
  }

  predicate OfWorker(a: Action) { a.Turn? || a.Execute? || a.Finish? }

  // Some worker can move, and moving brings the workers closer to having exited.
  lemma ExitStep(s: State) returns (a: Action)
    requires Inv(s) && ExitMessage in s.wq && exists p :: p in s.phase && p != Exited
    ensures OfWorker(a) && Enabled(s, a)
    ensures var t := Next(s, a); ExitMessage in t.wq && 4 * |t.wq| + Phases(t.phase) < 4 * |s.wq| + Phases(s.phase)
  {
    var i: nat :| i < |s.phase| && Awake(s.phase[i]);
    var p := s.phase[i];
    assert Awake(p);
    if p.Running? {
      a := Execute(i);
      assert Enabled(s, a);
      PhasesUpdate(s.phase, i, Ran(p.r));
    } else if p.Ran? {
      a := Finish(i);
      NeverAborts(s, i, p.r);
      assert Enabled(s, a);
      PhasesUpdate(s.phase, i, Ready);
    } else {
      var w := if Asleep in s.phase then IndexOf(s.phase, Asleep) else 0;
      a := Turn(i, w);
      TurnCost(s, i, w);
    }
  }

  lemma TurnCost(s: State, i: nat, w: nat)
    requires ExitMessage in s.wq && Enabled(s, Turn(i, w))
    ensures var t := DoTurn(s, i, w); ExitMessage in t.wq && 4 * |t.wq| + Phases(t.phase) < 4 * |s.wq| + Phases(s.phase)
  {
    PhasesUpdate(s.phase, i, DoTurn(s, i, w).phase[i]);
    if Asleep in s.phase {
      PhasesUpdate(s.phase, w, Woken);
      PhasesUpdate(s.phase[w := Woken], i, Exited);
    }
    assert s.wq == [s.wq[0]] + s.wq[1..];
  }

  // A worker takes a request off the queue only to run it.
  lemma TakenIsStarted(s: State, a: Action)
    requires OfWorker(a) && Enabled(s, a)
    ensures var t := Next(s, a);
      && s.started <= t.started && |t.phase| == |s.phase|
      && forall r :: Job(r) in BeforeExit(s.wq) ==> Job(r) in BeforeExit(t.wq) || r in t.started
  {}

  // When all workers have exited, what was started has run to its end.
  lemma StartedHasRun(s: State, r: Req)
    requires Inv(s) && r in s.started && forall p :: p in s.phase ==> p == Exited
    ensures r in s.work && s.work[r] == Null
  {
    assert Story(s, r);
    forall i | 0 <= i < |s.phase| ensures s.phase[i] == Exited {
      assert s.phase[i] in s.phase;
    }
  }

  // Once the exit message is posted, the workers alone, scheduled in some order,
  // run every request submitted before it and then all exit.
  lemma ExitChain(s: State) returns (run: seq<Action>)
    requires Inv(s) && ExitMessage in s.wq
    ensures Possible(s, run) && forall a :: a in run ==> OfWorker(a)
    ensures var t := After(s, run);
      && (forall p :: p in t.phase ==> p == Exited)
      && (s.phase != [] ==> forall r :: r in s.early && Job(r) in s.wq ==>
        r in t.started && r in t.work && t.work[r] == Null)
  {
    run := Shutdown(s);
    RunInv(s, run);
    var t := After(s, run);
    forall r | s.phase != [] && r in s.early && Job(r) in s.wq
      ensures r in t.started && r in t.work && t.work[r] == Null
    {
      assert Job(r) in BeforeExit(s.wq);
      StartedHasRun(t, r);
    }
  }

  lemma {:induction false} Shutdown(s: State) returns (run: seq<Action>)
    requires Inv(s) && ExitMessage in s.wq
    ensures Possible(s, run) && forall p :: p in After(s, run).phase ==> p == Exited
    ensures forall a :: a in run ==> OfWorker(a)
    ensures s.phase != [] ==>
      forall r :: Job(r) in BeforeExit(s.wq) || r in s.started ==> r in After(s, run).started
    decreases 4 * |s.wq| + Phases(s.phase)
  {
    if forall p :: p in s.phase ==> p == Exited {
      if s.phase != [] {
        assert s.phase[0] in s.phase;
      }
      return [];
    }
    var a := ExitStep(s);
    NextInv(s, a);
    TakenIsStarted(s, a);
    hide Inv, Enabled, Next;
    var rest := Shutdown(Next(s, a));
    run := [a] + rest;
    assert run[1..] == rest;
  }

  function IndexOf(p: seq<Phase>, x: Phase): (i: nat)
    requires x in p
    ensures i < |p| && p[i] == x
  {
    if p[0] == x then 0 else 1 + IndexOf(p[1..], x)
  }
}
