// The invariant of the thread pool is kept by every action, part by part.
module ThreadPoolSteps {
  import opened Sequences
  import opened ThreadPool

  lemma LoopAt(s: State, l: nat)
    requires LoopsOk(s) && l < |s.loops|
    ensures LoopOk(s, l)
  {}

  lemma SubmitPlaces(s: State, r: Req, l: nat, w: nat)
    requires Inv(s) && Enabled(s, Submit(r, l, w))
    ensures var t := Next(s, Submit(r, l, w)); Keys(t) && PoolOk(t) && WorkersOk(t)
  {
    hide LoopsOk, WakeOk, ExitOk, HistoryOk;
  }

  lemma SubmitLoops(s: State, r: Req, l: nat, w: nat)
    requires Inv(s) && Enabled(s, Submit(r, l, w))
    ensures LoopsOk(Next(s, Submit(r, l, w)))
  {
    hide WakeOk, ExitOk, HistoryOk, PoolOk;
    var t := Next(s, Submit(r, l, w));
    forall k: nat | k < |t.loops| ensures LoopOk(t, k) {
      assert LoopOk(s, k);
    }
  }

  lemma SubmitHistory(s: State, r: Req, l: nat, w: nat)
    requires Inv(s) && Enabled(s, Submit(r, l, w))
    ensures HistoryOk(Next(s, Submit(r, l, w)))
  {
    hide WakeOk, ExitOk, LoopsOk;
    var t := Next(s, Submit(r, l, w));
    forall q | q in t.place ensures Story(t, q) {
      assert q in s.place ==> Story(s, q);
    }
  }

  lemma ExitKeeps(s: State, w: nat)
    requires Inv(s) && Enabled(s, Exit(w))
    ensures var t := Next(s, Exit(w)); Keys(t) && PoolOk(t) && WorkersOk(t) && LoopsOk(t) && HistoryOk(t)
  {
    hide WakeOk, ExitOk;
    var t := Next(s, Exit(w));
    forall k: nat | k < |t.loops| ensures LoopOk(t, k) {
      assert LoopOk(s, k);
    }
    forall q | q in t.place ensures Story(t, q) {
      assert Story(s, q);
    }
  }

  lemma TurnAway(s: State, i: nat, w: nat)
    requires Inv(s) && Enabled(s, Turn(i, w)) && (s.wq == [] || s.wq[0] == ExitMessage)
    ensures var t := Next(s, Turn(i, w)); Keys(t) && PoolOk(t) && WorkersOk(t)
  {
    hide LoopsOk, WakeOk, ExitOk, HistoryOk, Distinct;
  }

  lemma TurnTakes(s: State, i: nat, w: nat)
    requires Inv(s) && Enabled(s, Turn(i, w)) && s.wq != [] && s.wq[0].Job?
    ensures var t := Next(s, Turn(i, w)); Keys(t) && PoolOk(t) && WorkersOk(t)
  {
    hide LoopsOk, WakeOk, ExitOk, HistoryOk, Signal;
  }

  lemma TurnPlaces(s: State, i: nat, w: nat)
    requires Inv(s) && Enabled(s, Turn(i, w))
    ensures var t := Next(s, Turn(i, w)); Keys(t) && PoolOk(t) && WorkersOk(t)
  {
    hide Inv, Next, Enabled, Keys, PoolOk, WorkersOk;
    if s.wq != [] && s.wq[0].Job? {
      TurnTakes(s, i, w);
    } else {
      TurnAway(s, i, w);
    }
  }

  lemma TurnLoops(s: State, i: nat, w: nat)
    requires Inv(s) && Enabled(s, Turn(i, w))
    ensures LoopsOk(Next(s, Turn(i, w)))
  {
    hide WakeOk, ExitOk, HistoryOk, Signal, Distinct;
    var t := Next(s, Turn(i, w));
    forall k: nat | k < |t.loops| ensures LoopOk(t, k) {
      assert LoopOk(s, k);
    }
  }

  lemma TurnHistory(s: State, i: nat, w: nat)
    requires Inv(s) && Enabled(s, Turn(i, w))
    ensures HistoryOk(Next(s, Turn(i, w)))
  {
    hide WakeOk, ExitOk, LoopsOk;
    var t := Next(s, Turn(i, w));
    forall q | q in t.place ensures Story(t, q) {
      assert q in s.place ==> Story(s, q);
    }
  }

  lemma WakeupKeeps(s: State, i: nat)
    requires Inv(s) && Enabled(s, Wakeup(i))
    ensures var t := Next(s, Wakeup(i)); Keys(t) && PoolOk(t) && WorkersOk(t) && LoopsOk(t) && HistoryOk(t)
  {
    hide WakeOk, ExitOk;
    var t := Next(s, Wakeup(i));
    forall k: nat | k < |t.loops| ensures LoopOk(t, k) {
      assert LoopOk(s, k);
    }
    forall q | q in t.place ensures Story(t, q) {
      assert Story(s, q);
    }
  }

  lemma ExecuteKeeps(s: State, i: nat)
    requires Inv(s) && Enabled(s, Execute(i))
    ensures var t := Next(s, Execute(i)); Keys(t) && PoolOk(t) && WorkersOk(t) && LoopsOk(t) && HistoryOk(t)
  {
    hide WakeOk, ExitOk;
    var t := Next(s, Execute(i));
    forall k: nat | k < |t.loops| ensures LoopOk(t, k) {
      assert LoopOk(s, k);
    }
    forall q | q in t.place ensures Story(t, q) {
      assert Story(s, q);
    }
  }

  lemma FinishPlaces(s: State, i: nat)
    requires Inv(s) && Enabled(s, Finish(i))
    ensures var t := Next(s, Finish(i)); Keys(t) && PoolOk(t) && WorkersOk(t)
  {
    hide LoopsOk, WakeOk, ExitOk, HistoryOk;
    assert At(s, s.phase[i].r, OnWorker(i));
  }

  lemma FinishLoops(s: State, i: nat)
    requires Inv(s) && Enabled(s, Finish(i))
    ensures LoopsOk(Next(s, Finish(i)))
  {
    hide WakeOk, ExitOk, HistoryOk, PoolOk, Distinct;
    assert At(s, s.phase[i].r, OnWorker(i));
    DistinctAppend(s.loops[s.home[s.phase[i].r]].wq, s.phase[i].r);
    var t := Next(s, Finish(i));
    forall k: nat | k < |t.loops| ensures LoopOk(t, k) {
      assert LoopOk(s, k);
    }
  }

  lemma FinishHistory(s: State, i: nat)
    requires Inv(s) && Enabled(s, Finish(i))
    ensures HistoryOk(Next(s, Finish(i)))
  {
    hide WakeOk, ExitOk, LoopsOk;
    assert At(s, s.phase[i].r, OnWorker(i));
    var t := Next(s, Finish(i));
    forall q | q in t.place ensures Story(t, q) {
      assert q in s.place ==> Story(s, q);
    }
  }

  lemma CancelPlaces(s: State, r: Req, l: nat)
    requires Inv(s) && Enabled(s, Cancel(r, l))
    ensures var t := Next(s, Cancel(r, l)); Keys(t) && PoolOk(t) && WorkersOk(t)
  {
    hide LoopsOk, WakeOk, ExitOk, HistoryOk, Distinct;
    WithoutMembers(s.wq, Job(r));
    WithoutDistinct(s.wq, Job(r));
    assert r !in s.self && s.work[r] != Null ==> !s.place[r].OnWorker?;
  }

  lemma CancelOwnLoop(s: State, r: Req, l: nat)
    requires Enabled(s, Cancel(r, l)) && LoopOk(s, l) && WorkersOk(s) && r in s.place
    ensures var t := Next(s, Cancel(r, l)); LoopOk(t, l)
  {
    hide Distinct, WorkersOk, Without;
    WithoutMembers(s.loops[l].wq, r);
    WithoutDistinct(s.loops[l].wq, r);
    WithoutMembers(s.loops[l].batch, r);
    WithoutDistinct(s.loops[l].batch, r);
  }

  lemma CancelLoops(s: State, r: Req, l: nat)
    requires Inv(s) && Enabled(s, Cancel(r, l))
    ensures LoopsOk(Next(s, Cancel(r, l)))
  {
    hide WakeOk, ExitOk, HistoryOk, PoolOk, WorkersOk, Distinct;
    LoopAt(s, l);
    CancelOwnLoop(s, r, l);
    var t := Next(s, Cancel(r, l));
    forall k: nat | k < |t.loops| && k != l ensures LoopOk(t, k) {
      assert LoopOk(s, k);
    }
  }

  lemma CancelHistory(s: State, r: Req, l: nat)
    requires Inv(s) && Enabled(s, Cancel(r, l))
    ensures HistoryOk(Next(s, Cancel(r, l)))
  {
    hide WakeOk, ExitOk, LoopsOk, PoolOk;
    var t := Next(s, Cancel(r, l));
    assert s.place[r] != Fired by {
      assert Story(s, r);
    }
    forall q | q in t.place ensures Story(t, q) {
      assert Story(s, q);
    }
  }

  lemma CancelInsertPlaces(s: State, l: nat)
    requires Inv(s) && Enabled(s, CancelInsert(l))
    ensures var t := Next(s, CancelInsert(l)); Keys(t) && PoolOk(t) && WorkersOk(t)
  {
    hide LoopsOk, WakeOk, ExitOk, HistoryOk, Distinct;
    var r := s.loops[l].limbo.value;
    LoopAt(s, l);
    assert At(s, r, InLimbo) && s.home[r] == l;
  }

  lemma CancelInsertLoops(s: State, l: nat)
    requires Inv(s) && Enabled(s, CancelInsert(l))
    ensures LoopsOk(Next(s, CancelInsert(l)))
  {
    hide WakeOk, ExitOk, HistoryOk, PoolOk, Distinct, WorkersOk;
    var r := s.loops[l].limbo.value;
    LoopAt(s, l);
    assert At(s, r, InLimbo) && s.home[r] == l;
    DistinctAppend(s.loops[l].wq, r);
    var t := Next(s, CancelInsert(l));
    forall k: nat | k < |t.loops| ensures LoopOk(t, k) {
      assert LoopOk(s, k);
    }
  }

  lemma CancelInsertHistory(s: State, l: nat)
    requires Inv(s) && Enabled(s, CancelInsert(l))
    ensures HistoryOk(Next(s, CancelInsert(l)))
  {
    hide WakeOk, ExitOk, LoopsOk, PoolOk, WorkersOk, Distinct;
    var r := s.loops[l].limbo.value;
    LoopAt(s, l);
    assert At(s, r, InLimbo) && s.home[r] == l;
    var t := Next(s, CancelInsert(l));
    forall q | q in t.place ensures Story(t, q) {
      assert q in s.place ==> Story(s, q);
    }
  }

  lemma CollectPlaces(s: State, l: nat)
    requires Inv(s) && Enabled(s, Collect(l))
    ensures var t := Next(s, Collect(l)); Keys(t) && PoolOk(t) && WorkersOk(t)
  {
    hide LoopsOk, WakeOk, ExitOk, HistoryOk;
    LoopAt(s, l);
  }

  lemma CollectLoops(s: State, l: nat)
    requires Inv(s) && Enabled(s, Collect(l))
    ensures LoopsOk(Next(s, Collect(l)))
  {
    hide WakeOk, ExitOk, HistoryOk, PoolOk, WorkersOk;
    LoopAt(s, l);
    var t := Next(s, Collect(l));
    forall k: nat | k < |t.loops| ensures LoopOk(t, k) {
      assert LoopOk(s, k);
    }
  }

  lemma CollectHistory(s: State, l: nat)
    requires Inv(s) && Enabled(s, Collect(l))
    ensures HistoryOk(Next(s, Collect(l)))
  {
    hide WakeOk, ExitOk, LoopsOk, PoolOk, WorkersOk, Distinct;
    LoopAt(s, l);
    var t := Next(s, Collect(l));
    forall q | q in t.place ensures Story(t, q) {
      assert q in s.place ==> Story(s, q);
    }
  }

  lemma FirePlaces(s: State, l: nat)
    requires Inv(s) && Enabled(s, Fire(l))
    ensures var t := Next(s, Fire(l)); Keys(t) && PoolOk(t) && WorkersOk(t)
  {
    hide LoopsOk, WakeOk, ExitOk, HistoryOk;
    var r := s.loops[l].batch[0];
    LoopAt(s, l);
    assert At(s, r, InBatch) && s.home[r] == l;
  }

  lemma FireLoops(s: State, l: nat)
    requires Inv(s) && Enabled(s, Fire(l))
    ensures LoopsOk(Next(s, Fire(l)))
  {
    hide WakeOk, ExitOk, HistoryOk, PoolOk, WorkersOk;
    var r := s.loops[l].batch[0];
    LoopAt(s, l);
    assert At(s, r, InBatch) && s.home[r] == l;
    var t := Next(s, Fire(l));
    forall k: nat | k < |t.loops| ensures LoopOk(t, k) {
      assert LoopOk(s, k);
    }
  }

  lemma FireHistory(s: State, l: nat)
    requires Inv(s) && Enabled(s, Fire(l))
    ensures HistoryOk(Next(s, Fire(l)))
  {
    hide WakeOk, ExitOk, LoopsOk, PoolOk, WorkersOk, Distinct;
    var r := s.loops[l].batch[0];
    LoopAt(s, l);
    assert At(s, r, InBatch) && s.home[r] == l;
    var t := Next(s, Fire(l));
    assert t.fired[|s.fired|] == (r, s.work[r] == Cancelled) && Story(s, r);
    assert forall b :: (r, b) !in s.fired;
    forall q | q in t.place ensures Story(t, q) {
      assert Story(s, q);
      if q != r && s.place[q] == Fired {
        var b :| (q, b) in s.fired;
        assert (q, b) in t.fired;
      }
    }
  }


  function Weight(p: Phase): nat { if p in {Asleep, Woken} then 1 else 0 }

  lemma {:induction false} WaitingUpdate(p: seq<Phase>, i: nat, x: Phase)
    requires i < |p|
    ensures Waiting(p[i := x]) == Waiting(p) - Weight(p[i]) + Weight(x)
  {
    var n := |p| - 1;
    if i < n {
      WaitingUpdate(p[..n], i, x);
      assert p[i := x][..n] == p[..n][i := x];
    } else {
      assert p[i := x][..n] == p[..n];
    }
  }

  lemma {:induction false} WaitingSome(p: seq<Phase>)
    ensures Waiting(p) > 0 <==> Asleep in p || Woken in p
  {
    if p != [] {
      var n := |p| - 1;
      WaitingSome(p[..n]);
      assert p == p[..n] + [p[n]];
    }
  }

  lemma PostWake(s: State, q: Item, w: nat)
    requires WakeOk(s) && Signals(s.phase, w)
    ensures WakeOk(Post(s, q, w))
  {
    var t := Post(s, q, w);
    WaitingSome(s.phase);
    if Asleep in s.phase {
      WaitingUpdate(s.phase, w, Woken);
      assert Awake(t.phase[w]);
    } else if Woken in s.phase {
      var i :| 0 <= i < |s.phase| && s.phase[i] == Woken;
      assert Awake(t.phase[i]);
    }
  }

  lemma TurnWake(s: State, i: nat, w: nat)
    requires WakeOk(s) && Enabled(s, Turn(i, w))
    ensures WakeOk(DoTurn(s, i, w))
  {
    var t := DoTurn(s, i, w);
    WaitingUpdate(s.phase, i, t.phase[i]);
    if s.wq != [] && s.wq[0] == ExitMessage && Asleep in s.phase {
      WaitingUpdate(s.phase, w, Woken);
      WaitingUpdate(s.phase[w := Woken], i, Exited);
      assert Awake(t.phase[w]);
    } else if s.wq != [] && s.wq[0] != ExitMessage {
      assert Awake(t.phase[i]);
    }
  }

  lemma NextWake(s: State, a: Action)
    requires Inv(s) && Enabled(s, a)
    ensures WakeOk(Next(s, a))
  {
    var t := Next(s, a);
    match a
    case Submit(r, l, w) => PostWake(s, Job(r), w);
    case Exit(w) => PostWake(s, ExitMessage, w);
    case Turn(i, w) => TurnWake(s, i, w);
    case Wakeup(i) => WaitingUpdate(s.phase, i, Woken); assert Awake(t.phase[i]);
    case Execute(i) => WaitingUpdate(s.phase, i, t.phase[i]); assert Awake(t.phase[i]);
    case Finish(i) => WaitingUpdate(s.phase, i, Ready); assert Awake(t.phase[i]);
    case Cancel(r, l) => WithoutMembers(s.wq, Job(r));
    case _ =>
  }

  lemma {:induction false} BeforeExitAppend(q: seq<Item>, x: Item)
    ensures BeforeExit(q + [x]) == if ExitMessage in q then BeforeExit(q) else if x == ExitMessage then q else q + [x]
  {
    if q != [] {
      BeforeExitAppend(q[1..], x);
      assert (q + [x])[1..] == q[1..] + [x];
      assert q == [q[0]] + q[1..];
    }
  }

  lemma {:induction false} BeforeExitWithout(q: seq<Item>, r: Req)
    ensures BeforeExit(Without(q, Job(r))) == Without(BeforeExit(q), Job(r))
    ensures q != [] && q[0] == ExitMessage ==> Without(q, Job(r)) != [] && Without(q, Job(r))[0] == ExitMessage
  {
    if q != [] {
      BeforeExitWithout(q[1..], r);
    }
  }

  lemma TurnExit(s: State, i: nat, w: nat)
    requires ExitOk(s) && PoolOk(s) && Enabled(s, Turn(i, w))
    ensures ExitOk(DoTurn(s, i, w))
  {
    var t := DoTurn(s, i, w);
    if Exited in t.phase && Exited !in s.phase {
      assert s.wq != [] && s.wq[0] == ExitMessage;
    }
    if s.wq != [] && s.wq[0] != ExitMessage {
      assert s.wq == [s.wq[0]] + s.wq[1..];
      assert BeforeExit(s.wq) == [s.wq[0]] + BeforeExit(s.wq[1..]);
      assert s.wq[0] !in s.wq[1..];
      BeforeExitMembers(s.wq[1..]);
    }
  }

  lemma {:induction false} BeforeExitMembers(q: seq<Item>)
    ensures forall x :: x in BeforeExit(q) ==> x in q
  {
    if q != [] && q[0] != ExitMessage {
      BeforeExitMembers(q[1..]);
    }
  }

  lemma SubmitExit(s: State, r: Req, l: nat, w: nat)
    requires ExitOk(s) && PoolOk(s) && Keys(s) && Enabled(s, Submit(r, l, w))
    ensures ExitOk(DoSubmit(s, r, l, w))
  {
    hide Distinct, BeforeExit;
    BeforeExitAppend(s.wq, Job(r));
    BeforeExitMembers(s.wq);
    BeforeExitNone(s.wq);
  }

  lemma ExitExit(s: State, w: nat)
    requires ExitOk(s) && Enabled(s, Exit(w))
    ensures ExitOk(Post(s, ExitMessage, w))
  {
    hide BeforeExit;
    BeforeExitAppend(s.wq, ExitMessage);
    BeforeExitNone(s.wq);
  }

  lemma CancelExit(s: State, r: Req, l: nat)
    requires ExitOk(s) && Enabled(s, Cancel(r, l)) && Keys(s)
    ensures ExitOk(DoCancel(s, r, l))
  {
    hide BeforeExit, Without;
    BeforeExitWithout(s.wq, r);
    WithoutMembers(s.wq, Job(r));
    WithoutMembers(BeforeExit(s.wq), Job(r));
  }

  lemma NextExit(s: State, a: Action)
    requires Inv(s) && Enabled(s, a)
    ensures ExitOk(Next(s, a))
  {
    hide LoopsOk, HistoryOk, WakeOk, WorkersOk, Distinct, BeforeExit, PoolOk;
    match a
    case Submit(r, l, w) => SubmitExit(s, r, l, w);
    case Exit(w) => ExitExit(s, w);
    case Turn(i, w) => TurnExit(s, i, w);
    case Cancel(r, l) => CancelExit(s, r, l);
    case _ =>
  }

  lemma {:induction false} BeforeExitNone(q: seq<Item>)
    ensures ExitMessage !in q ==> BeforeExit(q) == q
  {
    if q != [] && ExitMessage !in q {
      BeforeExitNone(q[1..]);
    }
  }

  // Every action keeps the invariant.
  lemma NextInv(s: State, a: Action)
    requires Inv(s) && Enabled(s, a)
    ensures Inv(Next(s, a))
  {
    hide Next, Keys, PoolOk, WorkersOk, LoopsOk, HistoryOk, WakeOk, ExitOk;
    NextWake(s, a);
    NextExit(s, a);
    match a
    case Submit(r, l, w) => SubmitPlaces(s, r, l, w); SubmitLoops(s, r, l, w); SubmitHistory(s, r, l, w);
    case Exit(w) => ExitKeeps(s, w);
    case Turn(i, w) => TurnPlaces(s, i, w); TurnLoops(s, i, w); TurnHistory(s, i, w);
    case Wakeup(i) => WakeupKeeps(s, i);
    case Execute(i) => ExecuteKeeps(s, i);
    case Finish(i) => FinishPlaces(s, i); FinishLoops(s, i); FinishHistory(s, i);
    case Cancel(r, l) => CancelPlaces(s, r, l); CancelLoops(s, r, l); CancelHistory(s, r, l);
    case CancelInsert(l) => CancelInsertPlaces(s, l); CancelInsertLoops(s, l); CancelInsertHistory(s, l);
    case Collect(l) => CollectPlaces(s, l); CollectLoops(s, l); CollectHistory(s, l);
    case Fire(l) => FirePlaces(s, l); FireLoops(s, l); FireHistory(s, l);
  }

  lemma InitInv(workers: nat, loops: nat)
    ensures Inv(Init(workers, loops))
  {
    var s := Init(workers, loops);
    forall l: nat | l < |s.loops| ensures LoopOk(s, l) {}
    WaitingSome(s.phase);
  }
}
