// threadpool.c: the shared work queue, its workers, the loops that submit,
// cancel and collect. Every action is one critical section (or one callback)
// of the source, so any interleaving of threads is a sequence of actions.
module ThreadPool {
  import opened Sequences

  type Req = nat

  // What w->work points to: the work function, NULL, or uv__cancelled.
  datatype Fn = Work | Null | Cancelled

  datatype Item = Job(r: Req) | ExitMessage

  // Where a worker is: about to take the mutex, in uv_cond_wait, signalled but
  // without the mutex, bound to run w->work or running it, past it, or out of its loop.
  datatype Phase = Ready | Asleep | Woken | Running(r: Req) | Ran(r: Req) | Exited

  // loop->wq, the local queue of uv__work_done, and a request that
  // uv__work_cancel has taken off its queue but not yet put on loop->wq.
  datatype Loop = Loop(wq: seq<Req>, batch: seq<Req>, limbo: Option<Req>)

  // Bookkeeping: the one place a request is in.
  datatype Place = InPool | OnWorker(i: nat) | InLimbo | InLoop | InBatch | Fired

  datatype State = State(
    wq: seq<Item>, idle: int, phase: seq<Phase>, loops: seq<Loop>,
    work: map<Req, Fn>,    // w->work
    home: map<Req, nat>,   // w->loop
    self: set<Req>,        // requests whose queue node is linked to itself
    place: map<Req, Place>,
    early: set<Req>,       // submitted before the exit message
    started: set<Req>,     // taken by a worker, which is bound to enter w->work
    zero: set<Req>,        // uv__work_cancel returned 0
    busy: set<Req>,        // uv__work_cancel returned UV_EBUSY
    fired: seq<(Req, bool)>) // done(w, err) calls; true is UV_ECANCELED

  function Init(workers: nat, loops: nat): State {
    State([], 0, seq(workers, i => Ready), seq(loops, i => Loop([], [], None)), map[], map[], {}, map[], {}, {},
      {}, {}, [])
  }

  datatype Action =
    | Submit(r: Req, l: nat, w: nat)
    | Exit(w: nat)
    | Turn(i: nat, w: nat)
    | Wakeup(i: nat)
    | Execute(i: nat)
    | Finish(i: nat)
    | Cancel(r: Req, l: nat)
    | CancelInsert(l: nat)
    | Collect(l: nat)
    | Fire(l: nat)

  // uv_cond_signal wakes one sleeper, w, if there is any.
  function Signal(p: seq<Phase>, w: nat): seq<Phase> {
    if w < |p| && p[w] == Asleep then p[w := Woken] else p
  }

  predicate Signals(p: seq<Phase>, w: nat) {
    Asleep in p ==> w < |p| && p[w] == Asleep
  }

  predicate Enabled(s: State, a: Action) {
    match a
    case Submit(r, l, w) => r !in s.work && l < |s.loops| && s.loops[l].limbo.None? && Signals(s.phase, w)
    case Exit(w) => ExitMessage !in s.wq && Signals(s.phase, w)
    case Turn(i, w) => i < |s.phase| && (s.phase[i].Ready? || s.phase[i].Woken?) && Signals(s.phase, w)
    case Wakeup(i) => i < |s.phase| && s.phase[i] == Asleep
    case Execute(i) => i < |s.phase| && s.phase[i].Running?
    case Finish(i) => i < |s.phase| && s.phase[i].Ran? && s.phase[i].r in s.home && s.home[s.phase[i].r] < |s.loops|
    case Cancel(r, l) =>
      r in s.work && r in s.home && s.home[r] == l && l < |s.loops| && s.loops[l].limbo.None?
      && forall b :: (r, b) !in s.fired
    case CancelInsert(l) => l < |s.loops| && s.loops[l].limbo.Some?
    case Collect(l) => l < |s.loops| && s.loops[l].limbo.None? && s.loops[l].batch == []
    case Fire(l) => l < |s.loops| && s.loops[l].limbo.None? && s.loops[l].batch != [] && s.loops[l].batch[0] in s.work
  }

  // post
  function Post(s: State, q: Item, w: nat): State {
    s.(wq := s.wq + [q], phase := if s.idle > 0 then Signal(s.phase, w) else s.phase)
  }

  // uv__work_submit
  function DoSubmit(s: State, r: Req, l: nat, w: nat): State {
    Post(s, Job(r), w).(work := s.work[r := Work], home := s.home[r := l], place := s.place[r := InPool],
      early := if ExitMessage in s.wq then s.early else s.early + {r})
  }

  // worker, from taking the mutex to releasing it: in uv_cond_wait, with a
  // request in hand, or on its way out.
  function DoTurn(s: State, i: nat, w: nat): State
    requires i < |s.phase|
  {
    var idle := if s.phase[i] == Woken then s.idle - 1 else s.idle;
    if s.wq == [] then
      s.(idle := idle + 1, phase := s.phase[i := Asleep])
    else if s.wq[0] == ExitMessage then
      s.(idle := idle, phase := Signal(s.phase, w)[i := Exited])
    else
      var r := s.wq[0].r;
      s.(idle := idle, phase := s.phase[i := Running(r)], wq := s.wq[1..], self := s.self + {r},
        started := s.started + {r},
        place := s.place[r := OnWorker(i)])
  }

  // worker, after w->work has returned
  function DoFinish(s: State, i: nat): State
    requires Enabled(s, Finish(i))
  {
    var r := s.phase[i].r;
    var l := s.home[r];
    s.(phase := s.phase[i := Ready], work := s.work[r := Null], self := s.self - {r},
      loops := s.loops[l := s.loops[l].(wq := s.loops[l].wq + [r])], place := s.place[r := InLoop])
  }

  // uv__work_cancel, up to releasing both mutexes
  function DoCancel(s: State, r: Req, l: nat): State
    requires Enabled(s, Cancel(r, l))
  {
    if r !in s.self && s.work[r] != Null then
      s.(wq := Without(s.wq, Job(r)),
        loops := s.loops[l := Loop(Without(s.loops[l].wq, r), Without(s.loops[l].batch, r), Some(r))],
        place := s.place[r := InLimbo])
    else
      s.(busy := s.busy + {r})
  }

  // uv__work_cancel, the rest
  function DoCancelInsert(s: State, l: nat): State
    requires Enabled(s, CancelInsert(l))
  {
    var r := s.loops[l].limbo.value;
    s.(work := s.work[r := Cancelled], loops := s.loops[l := s.loops[l].(wq := s.loops[l].wq + [r], limbo := None)],
      place := s.place[r := InLoop], zero := s.zero + {r})
  }

  // uv__work_done: QUEUE_MOVE
  function DoCollect(s: State, l: nat): State
    requires Enabled(s, Collect(l))
  {
    var q := s.loops[l].wq;
    s.(loops := s.loops[l := Loop([], q, None)],
      place := map r | r in s.place :: if r in q then InBatch else s.place[r])
  }

  // uv__work_done: one request
  function DoFire(s: State, l: nat): State
    requires Enabled(s, Fire(l))
  {
    var r := s.loops[l].batch[0];
    s.(loops := s.loops[l := s.loops[l].(batch := s.loops[l].batch[1..])],
      fired := s.fired + [(r, s.work[r] == Cancelled)], place := s.place[r := Fired])
  }

  function Next(s: State, a: Action): State
    requires Enabled(s, a)
  {
    match a
    case Submit(r, l, w) => DoSubmit(s, r, l, w)
    case Exit(w) => Post(s, ExitMessage, w)
    case Turn(i, w) => DoTurn(s, i, w)
    case Wakeup(i) => s.(phase := s.phase[i := Woken])
    case Execute(i) => s.(phase := s.phase[i := Ran(s.phase[i].r)])
    case Finish(i) => DoFinish(s, i)
    case Cancel(r, l) => DoCancel(s, r, l)
    case CancelInsert(l) => DoCancelInsert(s, l)
    case Collect(l) => DoCollect(s, l)
    case Fire(l) => DoFire(s, l)
  }

  // ---- what holds in every reachable state ----

  predicate At(s: State, r: Req, p: Place) {
    r in s.place && s.place[r] == p
  }

  ghost predicate Keys(s: State) {
    && s.work.Keys == s.home.Keys == s.place.Keys
    && forall r :: r in s.home ==> s.home[r] < |s.loops|
  }

  // The shared queue holds exactly the requests whose place it is, each once.
  ghost predicate PoolOk(s: State) {
    && Distinct(s.wq)
    && (forall r :: Job(r) in s.wq <==> At(s, r, InPool))
  }

  // A worker holds exactly the request whose place it is; such requests, and no
  // others, are linked to themselves.
  ghost predicate WorkersOk(s: State) {
    && (forall i, r :: 0 <= i < |s.phase| && (s.phase[i] == Running(r) || s.phase[i] == Ran(r)) ==>
      At(s, r, OnWorker(i)))
    && (forall r :: r in s.place && s.place[r].OnWorker? ==>
        var i := s.place[r].i; i < |s.phase| && (s.phase[i] == Running(r) || s.phase[i] == Ran(r)))
    && (forall r :: r in s.self <==> r in s.place && s.place[r].OnWorker?)
  }

  ghost predicate LoopOk(s: State, l: nat)
    requires l < |s.loops|
  {
    var q := s.loops[l];
    && Distinct(q.wq) && Distinct(q.batch)
    && (forall r :: r in q.wq <==> At(s, r, InLoop) && r in s.home && s.home[r] == l)
    && (forall r :: r in q.batch <==> At(s, r, InBatch) && r in s.home && s.home[r] == l)
    && (forall r :: q.limbo == Some(r) <==> At(s, r, InLimbo) && r in s.home && s.home[r] == l)
  }

  ghost predicate LoopsOk(s: State) {
    forall l: nat :: l < |s.loops| ==> LoopOk(s, l)
  }

  // What w->work and the history say about a request, by its place.
  ghost predicate HistoryOk(s: State) {
    && (forall r :: r in s.place ==> Story(s, r))
    && s.started <= s.place.Keys && s.zero <= s.place.Keys && s.busy <= s.started
    && (forall r, b :: (r, b) in s.fired ==> At(s, r, Fired) && b == (r in s.zero))
    && (forall j, k :: 0 <= j < k < |s.fired| ==> s.fired[j].0 != s.fired[k].0)
  }

  ghost predicate Story(s: State, r: Req)
    requires r in s.place
  {
    r in s.work && (s.work[r] == Cancelled <==> r in s.zero) &&
    match s.place[r]
    case InPool => s.work[r] == Work && r !in s.started
    case OnWorker(_) => s.work[r] == Work && r in s.started
    case InLimbo => s.work[r] != Null && r !in s.started
    case Fired => s.work[r] != Work && (s.work[r] == Null <==> r in s.started) && exists b :: (r, b) in s.fired
    case _ => s.work[r] != Work && (s.work[r] == Null <==> r in s.started)
  }

  function Waiting(p: seq<Phase>): nat {
    if p == [] then 0 else (if p[|p| - 1] in {Asleep, Woken} then 1 else 0) + Waiting(p[..|p| - 1])
  }

  predicate Awake(p: Phase) { !p.Exited? && !p.Asleep? }

  // No wakeup is lost: while there is work and some worker has not exited, some
  // worker is neither asleep nor gone.
  ghost predicate WakeOk(s: State) {
    && s.idle == Waiting(s.phase)
    && (s.wq != [] && Asleep in s.phase ==> exists i :: 0 <= i < |s.phase| && Awake(s.phase[i]))
  }

  function BeforeExit(q: seq<Item>): seq<Item> {
    if q == [] || q[0] == ExitMessage then [] else [q[0]] + BeforeExit(q[1..])
  }

  // Once a worker has exited, the exit message leads the queue; ahead of it are
  // exactly the queued requests that were submitted before it.
  ghost predicate ExitOk(s: State) {
    && (Exited in s.phase ==> s.wq != [] && s.wq[0] == ExitMessage)
    && (forall r :: Job(r) in BeforeExit(s.wq) <==> Job(r) in s.wq && r in s.early)
    && s.early <= s.place.Keys
  }

  ghost predicate Inv(s: State) {
    Keys(s) && PoolOk(s) && WorkersOk(s) && LoopsOk(s) && HistoryOk(s) && WakeOk(s) && ExitOk(s)
  }
}
