// The order in which the thread pool takes requests and reports them.
module ThreadPoolOrder {
  import opened Sequences
  import opened ThreadPool
  import opened ThreadPoolSteps
  import opened ThreadPoolRuns

  // Every x in q comes before every y.
  ghost predicate Before<T>(q: seq<T>, x: T, y: T) {
    forall i, j :: 0 <= i < |q| && 0 <= j < |q| && q[i] == x && q[j] == y ==> i < j
  }

  lemma {:induction false} BeforeWithout<T>(q: seq<T>, x: T, y: T, z: T)
    requires Before(q, x, y)
    ensures Before(Without(q, z), x, y)
  {
    if q != [] {
      var t := q[1..];
      forall i, j | 0 <= i < |t| && 0 <= j < |t| && t[i] == x && t[j] == y ensures i < j {
        assert q[i + 1] == x && q[j + 1] == y;
      }
      BeforeWithout(t, x, y, z);
      WithoutMembers(t, z);
      forall k | 0 <= k < |t| && q[0] == y ensures t[k] != x {
        assert q[k + 1] == t[k];
      }
      var w, tail := Without(q, z), Without(t, z);
      forall i, j | 0 <= i < |w| && 0 <= j < |w| && w[i] == x && w[j] == y ensures i < j {
        if q[0] != z {
          assert w == [q[0]] + tail;
          assert i > 0 ==> tail[i - 1] == x && x in tail;
          assert j > 0 ==> tail[j - 1] == y;
        }
      }
    }
  }

  lemma BeforeAppend<T>(q: seq<T>, x: T, y: T, z: T)
    requires Before(q, x, y) && z != x
    ensures Before(q + [z], x, y)
  {
    var r := q + [z];
    forall i, j | 0 <= i < |r| && 0 <= j < |r| && r[i] == x && r[j] == y ensures i < j {
      if j < |q| {
        assert q[i] == x && q[j] == y;
      }
    }
  }

  lemma FirstIsNot<T>(q: seq<T>, x: T, y: T)
    requires Before(q, x, y) && x in q
    ensures q[0] != y
  {
    var i :| 0 <= i < |q| && q[i] == x;
    assert q[0] == y ==> i < 0;
  }

  // ---- taking ----

  // While a waits in the pool, b has not been taken and is not ahead of it.
  ghost predicate InLine(s: State, a: Req, b: Req) {
    Job(a) in s.wq ==> b !in s.started && Before(s.wq, Job(a), Job(b))
  }

  lemma InLineNext(s: State, act: Action, a: Req, b: Req)
    requires Inv(s) && Enabled(s, act) && a != b && a in s.work && InLine(s, a, b)
    ensures InLine(Next(s, act), a, b) && a in Next(s, act).work
  {
    match act
    case Submit(r, l, w) =>
      BeforeAppend(s.wq, Job(a), Job(b), Job(r));
    case Exit(w) =>
      BeforeAppend(s.wq, Job(a), Job(b), ExitMessage);
    case Turn(i, w) =>
      TurnInLine(s, i, w, a, b);
    case Cancel(r, l) =>
      WithoutMembers(s.wq, Job(r));
      BeforeWithout(s.wq, Job(a), Job(b), Job(r));
    case _ =>
  }

  lemma TurnInLine(s: State, i: nat, w: nat, a: Req, b: Req)
    requires Enabled(s, Turn(i, w)) && a != b && InLine(s, a, b)
    ensures InLine(DoTurn(s, i, w), a, b)
  {
    var q := s.wq;
    if q != [] && q[0].Job? {
      var t := q[1..];
      if Job(a) in t {
        var k :| 0 <= k < |t| && t[k] == Job(a);
        assert q[k + 1] == Job(a);
        forall i, j | 0 <= i < |t| && 0 <= j < |t| && t[i] == Job(a) && t[j] == Job(b) ensures i < j {
          assert q[i + 1] == Job(a) && q[j + 1] == Job(b);
        }
      }
    }
  }

  lemma {:induction false} InLineRun(s: State, run: seq<Action>, a: Req, b: Req)
    requires Inv(s) && Possible(s, run) && a != b && a in s.work && InLine(s, a, b)
    ensures InLine(After(s, run), a, b)
    decreases |run|
  {
    if run != [] {
      NextInv(s, run[0]);
      InLineNext(s, run[0], a, b);
      hide Inv, Next, Enabled, InLine;
      InLineRun(Next(s, run[0]), run[1..], a, b);
    }
  }

  // Where in a run a request is submitted.
  predicate SubmitAt(run: seq<Action>, i: nat, r: Req) { i < |run| && run[i].Submit? && run[i].r == r }

  lemma {:induction false} Split(s: State, run: seq<Action>, k: nat)
    requires Possible(s, run) && k <= |run|
    ensures Possible(s, run[..k]) && Possible(After(s, run[..k]), run[k..])
    ensures After(s, run) == After(After(s, run[..k]), run[k..])
    decreases k
  {
    hide Next, Enabled;
    if k == 0 {
      assert run[..0] == [] && run[0..] == run;
    } else {
      assert run[..k][0] == run[0] && run[..k][1..] == run[1..][..k - 1] && run[1..][k - 1..] == run[k..];
      Split(Next(s, run[0]), run[1..], k - 1);
    }
  }

  // Requests are taken in the order of uv__work_submit: when a worker has taken
  // b, an a that was submitted before it is not waiting any more. A worker took
  // it, or it has been cancelled.
  lemma TakenInOrder(workers: nat, loops: nat, run: seq<Action>, i: nat, j: nat, a: Req, b: Req)
    requires Possible(Init(workers, loops), run) && i < j && SubmitAt(run, i, a) && SubmitAt(run, j, b)
    ensures var t := After(Init(workers, loops), run);
      b in t.started ==> a in t.work && Job(a) !in t.wq && (a in t.started || a in t.zero || At(t, a, InLimbo))
  {
    hide Next, Inv;
    var s0 := Init(workers, loops);
    InitInv(workers, loops);
    Split(s0, run, j);
    var s, rest := After(s0, run[..j]), run[j..];
    RunInv(s0, run[..j]);
    Submitted(s0, run[..j], i, a);
    assert rest[0] == run[j];
    NotYet(s, b);
    assert a != b;
    InLineRun(s, rest, a, b);
    StaysKnown(s, rest, a);
    RunInv(s0, run);
    if b in After(s0, run).started {
      Elsewhere(After(s0, run), a);
    }
  }

  lemma NotYet(s: State, b: Req)
    requires Inv(s) && b !in s.work
    ensures b !in s.started && Job(b) !in s.wq
  {}

  lemma Elsewhere(t: State, a: Req)
    requires Inv(t) && a in t.work && Job(a) !in t.wq
    ensures a in t.started || a in t.zero || At(t, a, InLimbo)
  {
    assert Story(t, a);
  }

  lemma KnownNext(s: State, act: Action, a: Req)
    requires Enabled(s, act)
    ensures a in s.work || (act.Submit? && act.r == a) ==> a in Next(s, act).work
  {}

  lemma {:induction false} StaysKnown(s: State, run: seq<Action>, a: Req)
    requires Possible(s, run) && a in s.work
    ensures a in After(s, run).work
    decreases |run|
  {
    if run != [] {
      KnownNext(s, run[0], a);
      hide Next, Enabled;
      StaysKnown(Next(s, run[0]), run[1..], a);
    }
  }

  lemma {:induction false} Submitted(s: State, run: seq<Action>, i: nat, a: Req)
    requires Possible(s, run) && SubmitAt(run, i, a)
    ensures a in After(s, run).work
    decreases |run|
  {
    KnownNext(s, run[0], a);
    hide Next, Enabled;
    if i == 0 {
      StaysKnown(Next(s, run[0]), run[1..], a);
    } else {
      assert run[1..][i - 1] == run[i];
      Submitted(Next(s, run[0]), run[1..], i - 1, a);
    }
  }

  // ---- reporting ----

  lemma HomeNext(s: State, act: Action, r: Req)
    requires Inv(s) && Enabled(s, act)
    ensures r in s.home ==> r in Next(s, act).home && Next(s, act).home[r] == s.home[r]
    ensures act.Submit? ==> act.r in Next(s, act).home && Next(s, act).home[act.r] == act.l
  {}

  lemma {:induction false} HomeRun(s: State, run: seq<Action>, r: Req)
    requires Inv(s) && Possible(s, run)
    ensures r in s.home ==> r in After(s, run).home && After(s, run).home[r] == s.home[r]
    ensures forall i: nat :: SubmitAt(run, i, r) ==> r in After(s, run).home && After(s, run).home[r] == run[i].l
    decreases |run|
  {
    if run != [] {
      HomeNext(s, run[0], r);
      NextInv(s, run[0]);
      hide Inv, Next, Enabled;
      HomeRun(Next(s, run[0]), run[1..], r);
      forall i: nat | SubmitAt(run, i, r)
        ensures r in After(s, run).home && After(s, run).home[r] == run[i].l
      {
        if i > 0 {
          assert run[1..][i - 1] == run[i] && SubmitAt(run[1..], i - 1, r);
        }
      }
    }
  }

  // uv__work_done of a loop calls done for requests submitted to that loop only.
  lemma FiresOwn(workers: nat, loops: nat, run: seq<Action>, l: nat, r: Req, i: nat)
    requires Possible(Init(workers, loops), run) && Enabled(After(Init(workers, loops), run), Fire(l))
    requires After(Init(workers, loops), run).loops[l].batch[0] == r && SubmitAt(run, i, r)
    ensures run[i].l == l
  {
    hide Next;
    var s0 := Init(workers, loops);
    InitInv(workers, loops);
    RunInv(s0, run);
    HomeRun(s0, run, r);
    assert LoopOk(After(s0, run), l);
  }

  ghost predicate Reported(s: State, r: Req) { exists e :: (r, e) in s.fired }

  // a has run, and until it is reported to loop l, b is behind it there.
  ghost predicate Behind(s: State, l: nat, a: Req, b: Req) {
    && l < |s.loops| && a in s.work && s.work[a] == Null
    && a in s.home && b in s.home && s.home[a] == s.home[b] == l
    && var q := s.loops[l];
    !Reported(s, a) ==>
      !Reported(s, b) && (b in q.batch ==> a in q.batch) && Before(q.batch, a, b) && Before(q.wq, a, b)
  }

  lemma BehindNext(s: State, act: Action, l: nat, a: Req, b: Req)
    requires Inv(s) && Enabled(s, act) && a != b && Behind(s, l, a, b)
    ensures Behind(Next(s, act), l, a, b)
  {
    hide PoolOk, WakeOk, ExitOk, Before, Without, Reported, Signal, WorkersOk, HistoryOk, LoopsOk;
    HomeNext(s, act, a);
    HomeNext(s, act, b);
    match act
    case Finish(i) =>
      FinishBehind(s, i, l, a, b);
    case Cancel(r, k) =>
      CancelBehind(s, r, k, l, a, b);
    case CancelInsert(k) =>
      InsertBehind(s, k, l, a, b);
    case Collect(k) =>
      CollectBehind(s, k, l, a, b);
    case Fire(k) =>
      FireBehind(s, k, l, a, b);
    case Submit(r, k, w) =>
      SameReports(s, Next(s, act), a, b);
    case _ =>
      SameReports(s, Next(s, act), a, b);
  }

  lemma SameReports(s: State, t: State, a: Req, b: Req)
    requires t.fired == s.fired
    ensures (Reported(t, a) <==> Reported(s, a)) && (Reported(t, b) <==> Reported(s, b))
  {}

  lemma FinishBehind(s: State, i: nat, l: nat, a: Req, b: Req)
    requires Inv(s) && Enabled(s, Finish(i)) && a != b && Behind(s, l, a, b)
    ensures Behind(DoFinish(s, i), l, a, b)
  {
    hide Before, Reported, WakeOk, ExitOk, PoolOk, LoopsOk;
    var r := s.phase[i].r;
    NeverAborts(s, i, r);
    SameReports(s, DoFinish(s, i), a, b);
    if Before(s.loops[l].wq, a, b) {
      BeforeAppend(s.loops[l].wq, a, b, r);
    }
  }

  lemma CancelBehind(s: State, r: Req, k: nat, l: nat, a: Req, b: Req)
    requires Inv(s) && Enabled(s, Cancel(r, k)) && a != b && Behind(s, l, a, b)
    ensures Behind(DoCancel(s, r, k), l, a, b)
  {
    hide Before, Reported, Inv, Without;
    SameReports(s, DoCancel(s, r, k), a, b);
    var q := s.loops[l];
    WithoutMembers(q.batch, r);
    if Before(q.batch, a, b) && Before(q.wq, a, b) {
      BeforeWithout(q.batch, a, b, r);
      BeforeWithout(q.wq, a, b, r);
    }
  }

  lemma InsertBehind(s: State, k: nat, l: nat, a: Req, b: Req)
    requires Inv(s) && Enabled(s, CancelInsert(k)) && a != b && Behind(s, l, a, b)
    ensures Behind(DoCancelInsert(s, k), l, a, b)
  {
    hide Before, Reported, WakeOk, ExitOk, PoolOk, WorkersOk;
    var r := s.loops[k].limbo.value;
    assert LoopOk(s, k) && At(s, r, InLimbo) && Story(s, r);
    SameReports(s, DoCancelInsert(s, k), a, b);
    if Before(s.loops[l].wq, a, b) {
      BeforeAppend(s.loops[l].wq, a, b, r);
    }
  }

  lemma CollectBehind(s: State, k: nat, l: nat, a: Req, b: Req)
    requires Inv(s) && Enabled(s, Collect(k)) && a != b && Behind(s, l, a, b)
    ensures Behind(DoCollect(s, k), l, a, b)
  {
    hide WakeOk, ExitOk, PoolOk, WorkersOk;
    SameReports(s, DoCollect(s, k), a, b);
    assert Story(s, a) && LoopOk(s, l);
  }

  lemma FireBehind(s: State, k: nat, l: nat, a: Req, b: Req)
    requires Inv(s) && Enabled(s, Fire(k)) && a != b && Behind(s, l, a, b)
    ensures Behind(DoFire(s, k), l, a, b)
  {
    hide WakeOk, ExitOk, PoolOk, WorkersOk, HistoryOk;
    var t, x := DoFire(s, k), s.loops[k].batch[0];
    assert LoopOk(s, k);
    forall r: Req ensures Reported(t, r) <==> Reported(s, r) || r == x {
      if r == x {
        assert (x, s.work[x] == Cancelled) in t.fired;
      }
      if Reported(s, r) {
        var e :| (r, e) in s.fired;
        assert (r, e) in t.fired;
      }
    }
    if !Reported(t, a) && k == l {
      var q, rest := s.loops[l].batch, s.loops[l].batch[1..];
      assert q == [x] + rest;
      if a in q {
        FirstIsNot(q, a, b);
      }
      forall i, j | 0 <= i < |rest| && 0 <= j < |rest| && rest[i] == a && rest[j] == b ensures i < j {
        assert q[i + 1] == a && q[j + 1] == b;
      }
    }
  }

  lemma {:induction false} BehindRun(s: State, run: seq<Action>, l: nat, a: Req, b: Req)
    requires Inv(s) && Possible(s, run) && a != b && Behind(s, l, a, b)
    ensures Behind(After(s, run), l, a, b)
    decreases |run|
  {
    if run != [] {
      NextInv(s, run[0]);
      BehindNext(s, run[0], l, a, b);
      hide Inv, Next, Enabled, Behind;
      BehindRun(Next(s, run[0]), run[1..], l, a, b);
    }
  }

  // Requests of one loop are reported in the order in which they were finished:
  // b, which is not yet finished or cancelled when a is, is reported after a.
  lemma ReportedInOrder(s: State, run: seq<Action>, a: Req, b: Req)
    requires Inv(s) && Possible(s, run) && a in s.work && b in s.work && s.work[a] == Null
    requires s.home[a] == s.home[b] && (s.place[b].InPool? || s.place[b].OnWorker? || s.place[b].InLimbo?)
    ensures Reported(After(s, run), b) ==> Reported(After(s, run), a)
  {
    hide Next;
    var l := s.home[a];
    assert Story(s, a) && Story(s, b) && LoopOk(s, l);
    BehindRun(s, run, l, a, b);
  }
}
