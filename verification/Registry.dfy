// UVThreadMng.cpp and UVThread.cpp: the manager's map of threads by type, and
// the copy that every registered thread keeps and updates from its messages.
// A thread's message list is its sequence here; ThreadMsg has the list itself.
module Registry {
  datatype Msg = Regist(kind: nat, thread: Thread) | UnRegist(kind: nat) | Other(id: nat)

  type Directory = map<nat, Thread>

  // What the handlers of a message do to the local map: insert does not overwrite.
  function Apply(m: Directory, msg: Msg): Directory {
    match msg
    case Regist(k, t) => if k in m then m else m[k := t]
    case UnRegist(k) => m - {k}
    case Other(_) => m
  }

  // The local map once all waiting messages have been handled.
  function Replay(m: Directory, q: seq<Msg>): Directory
    decreases |q|
  {
    if q == [] then m else Replay(Apply(m, q[0]), q[1..])
  }

  lemma {:induction false} ReplayPush(m: Directory, q: seq<Msg>, msg: Msg)
    ensures Replay(m, q + [msg]) == Apply(Replay(m, q), msg)
    decreases |q|
  {
    if q == [] {
      assert q + [msg] == [msg];
    } else {
      assert (q + [msg])[1..] == q[1..] + [msg];
      ReplayPush(Apply(m, q[0]), q[1..], msg);
    }
  }

  // Type k is registered in q, and not unregistered after that.
  ghost predicate LeftIn(q: seq<Msg>, k: nat) {
    exists i :: 0 <= i < |q| && q[i].Regist? && q[i].kind == k && forall j :: i < j < |q| ==> q[j] != UnRegist(k)
  }

  lemma LeftInPush(q: seq<Msg>, msg: Msg, k: nat)
    ensures LeftIn(q + [msg], k) <==> (msg.Regist? && msg.kind == k) || (LeftIn(q, k) && msg != UnRegist(k))
  {
    var r := q + [msg];
    if msg.Regist? && msg.kind == k {
      assert r[|q|] == msg;
    }
    if LeftIn(q, k) && msg != UnRegist(k) {
      var i :| 0 <= i < |q| && q[i].Regist? && q[i].kind == k && forall j :: i < j < |q| ==> q[j] != UnRegist(k);
      assert r[i] == q[i];
    }
    if LeftIn(r, k) {
      var i :| 0 <= i < |r| && r[i].Regist? && r[i].kind == k && forall j :: i < j < |r| ==> r[j] != UnRegist(k);
      if i < |q| {
        assert q[i] == r[i] && r[|q|] == msg;
        assert forall j :: i < j < |q| ==> q[j] == r[j];
      }
    }
  }

  // Which types a thread will know: those left in the messages, and of those it
  // knows now the ones that no message takes away.
  lemma {:induction false} ReplayKeys(m: Directory, q: seq<Msg>, k: nat)
    ensures k in Replay(m, q) <==> LeftIn(q, k) || (k in m && UnRegist(k) !in q)
    decreases |q|
  {
    if q != [] {
      var init, last := q[..|q| - 1], q[|q| - 1];
      assert q == init + [last];
      ReplayPush(m, init, last);
      ReplayKeys(m, init, k);
      LeftInPush(init, last, k);
    }
  }

  // A thread that has forgotten its copy will know nothing exactly if no
  // registration is left in its messages.
  lemma Forgotten(m: Directory, q: seq<Msg>)
    ensures Replay(map[], q) == map[] <==> forall k :: !LeftIn(q, k)
    ensures Replay(m, q) == map[] ==> Replay(map[], q) == map[]
  {
    forall k ensures k in Replay(map[], q) <==> LeftIn(q, k) {
      ReplayKeys(map[], q, k);
    }
    forall k ensures LeftIn(q, k) ==> k in Replay(m, q) {
      ReplayKeys(m, q, k);
    }
    if exists k :: LeftIn(q, k) {
      var k :| LeftIn(q, k);
      assert k in Replay(map[], q);
    }
    assert (forall k :: k !in Replay(map[], q)) ==> Replay(map[], q) == map[];
  }

  // Telling a thread twice does no harm.
  lemma ApplyTwice(m: Directory, msg: Msg)
    ensures Apply(Apply(m, msg), msg) == Apply(m, msg)
  {}

  // The two maps say the same about every type but those in except.
  ghost predicate SameBut(m: Directory, n: Directory, except: set<nat>) {
    forall k {:trigger k in m} {:trigger k in n} :: k !in except ==> (k in m <==> k in n) && (k in m ==> m[k] == n[k])
  }

  lemma SameAll(m: Directory, n: Directory)
    ensures SameBut(m, n, {}) <==> m == n
  {
    if SameBut(m, n, {}) {
      assert m.Keys == n.Keys;
    }
  }

  // The types a thread would have wrong after being registered: its copy has an
  // entry of its own that is not the manager's, and insert keeps it.
  function Stale(view: Directory, threads: Directory): set<nat> {
    set k | k in view && (k !in threads || threads[k] != view[k])
  }

  // The type, if another thread has it.
  function Taken(threads: Directory, kind: nat, p: Thread): set<nat> {
    if kind in threads && threads[kind] != p then {kind} else {}
  }

  class Thread {
    const kind: nat // m_nThreadType
    var local: Directory
    var queue: seq<Msg>

    constructor (kind: nat)
      ensures this.kind == kind && local == map[] && queue == [] && View() == map[]
    {
      this.kind, local, queue := kind, map[], [];
    }

    ghost function View(): Directory
      reads this
    {
      Replay(local, queue)
    }

    // PushBackMsg
    method PushBackMsg(msg: Msg)
      modifies `queue
      ensures queue == old(queue) + [msg] && View() == Apply(old(View()), msg)
    {
      ReplayPush(local, queue, msg);
      queue := queue + [msg];
    }

    // The two OnUvThreadMessage handlers, for the next message.
    method HandleNext()
      requires queue != []
      modifies this
      ensures queue == old(queue)[1..] && local == Apply(old(local), old(queue)[0]) && View() == old(View())
    {
      ghost var m := local;
      match queue[0] {
        case Regist(k, t) =>
          if k !in local {
            local := local[k := t];
          }
        case UnRegist(k) =>
          if k in local {
            local := local - {k};
          }
        case Other(_) =>
      }
      assert local == Apply(m, queue[0]);
      queue := queue[1..];
    }

    // SendUvMessage: false without a thread of that kind; the copies are not disturbed.
    method SendUvMessage(id: nat, dst: nat) returns (ok: bool)
      modifies local.Values
      ensures ok <==> dst in old(local)
      ensures ok ==>
        && var t := old(local)[dst]; t.queue == old(t.queue) + [Other(id)] && t.View() == old(t.View())
      ensures forall t :: t in old(local).Values && (!ok || t != old(local)[dst]) ==> t.queue == old(t.queue)
      ensures forall t :: t in old(local).Values ==> t.local == old(t.local)
    {
      if dst !in local {
        return false;
      }
      local[dst].PushBackMsg(Other(id));
      ok := true;
    }

    // Every waiting message is handled.
    method Drain()
      modifies this
      ensures queue == [] && local == old(View()) == View()
    {
      while queue != []
        invariant View() == old(View())
        decreases |queue|
      {
        HandleNext();
      }
    }
  }

  // What happens to the manager and the threads in a run. A thread exits as it
  // is, or after having handled what was waiting.
  datatype Op =
    | Join(thread: Thread)
    | Leave(kind: nat)
    | Exit(thread: Thread, drained: bool)
    | Handle(thread: Thread)
    | Post(thread: Thread, id: nat)

  function Named(ops: seq<Op>): set<Thread> {
    set op | op in ops && !op.Leave? :: op.thread
  }

  function After(m: Directory, op: Op): Directory {
    match op
    case Join(p) => m[p.kind := p]
    case Leave(kind) => m - {kind}
    case Exit(p, _) => m - {p.kind}
    case _ => m
  }

  function DisputedAfter(m: Directory, op: Op, except: set<nat>): set<nat> {
    match op
    case Join(p) => except + Taken(m, p.kind, p)
    case Leave(kind) => except - {kind}
    case Exit(p, _) => except - {p.kind}
    case _ => except
  }

  // Who is registered after a run that began with m.
  function Members(m: Directory, ops: seq<Op>): Directory {
    if ops == [] then m else After(Members(m, ops[..|ops| - 1]), ops[|ops| - 1])
  }

  // The types that were taken when a thread was registered under them, until
  // they are unregistered.
  function Disputed(m: Directory, ops: seq<Op>, except: set<nat>): set<nat> {
    if ops == [] then except
    else
      var init := ops[..|ops| - 1];
      DisputedAfter(Members(m, init), ops[|ops| - 1], Disputed(m, init, except))
  }

  // A thread registers again only after it has exited with nothing waiting.
  ghost predicate Orderly(ops: seq<Op>) {
    forall i, j :: 0 <= i < j < |ops| && ops[i].Join? && ops[j].Join? && ops[i].thread == ops[j].thread ==>
      !Stays(ops, i, j)
  }

  // The thread that registers at j does not exit between i and j.
  ghost predicate Stays(ops: seq<Op>, i: int, j: int)
    requires 0 <= i <= j < |ops| && ops[j].Join?
  {
    forall l :: i <= l < j ==> ops[l] != Exit(ops[j].thread, true)
  }

  class Mng {
    var threads: Directory

    // Every registered thread, once it has handled its messages, knows the
    // registered threads, but perhaps not those of the types in except.
    ghost predicate Agree(except: set<nat>)
      reads this, threads.Values
    {
      forall k :: k in threads ==> SameBut(threads[k].View(), threads, except)
    }

    // The types in except are wrong: the thread that has one of them knows
    // another thread under it.
    ghost predicate Wrong(except: set<nat>)
      reads this, threads.Values
    {
      forall k :: k in except ==> k in threads && k in threads[k].View() && threads[k].View()[k] != threads[k]
    }

    // Every thread is registered under its own type.
    ghost predicate Typed()
      reads this
    {
      forall k :: k in threads ==> threads[k].kind == k
    }

    ghost predicate InSync()
      reads this, threads.Values
    {
      forall k :: k in threads ==> threads[k].View() == threads
    }

    constructor ()
      ensures threads == map[] && InSync() && Agree({}) && Typed()
    {
      threads := map[];
    }

    // RegistThread: the copies differ from the manager's map, beyond where they
    // did, at most in the type if it was taken and in what p had wrong.
    method RegistThread(kind: nat, p: Thread, ghost except: set<nat>)
      requires Agree(except)
      modifies `threads, p`queue, threads.Values`queue
      ensures threads == old(threads)[kind := p]
      ensures forall k :: k in threads ==>
        var was := if threads[k] == p then old(threads) + old(p.View()) else old(threads[k].View());
        threads[k].View() == Apply(was, Regist(kind, p))
      ensures Agree(except + Taken(old(threads), kind, p) + Stale(old(p.View()), threads))
      ensures old(InSync()) ==>
        (InSync() <==>
          && Stale(old(p.View()), threads) == {}
          && (Taken(old(threads), kind, p) == {} || (kind in old(p.View()) && threads.Values == {p})))
    {
      hide Apply, Replay, Thread.View, SameBut, Stale, Taken;
      ghost var m, v := threads, p.View();
      Introduce(p);
      threads := threads[kind := p];
      Announce(Regist(kind, p));
      forall k | k in threads
        ensures SameBut(threads[k].View(), threads, except + Taken(m, kind, p) + Stale(v, threads))
      {
        if threads[k] == p {
          NewcomerView(m, v, kind, p, except);
        } else {
          assert k in m && m[k] == threads[k];
          OthersView(m, old(m[k].View()), kind, p, except, Stale(v, threads));
        }
      }
      if old(InSync()) {
        NewcomerExact(m, v, kind, p);
        OthersExact(m, kind, p);
        assert threads[kind] == p;
        if Apply(m, Regist(kind, p)) != threads && threads.Values != {p} {
          var k :| k in threads && threads[k] != p;
          assert k in m;
        }
      }
    }

    // The first loop of RegistThread: p is told of every registered thread, and
    // keeps what it had.
    method Introduce(p: Thread)
      modifies p`queue
      ensures p.View() == threads + old(p.View())
    {
      var keys := threads.Keys;
      while keys != {}
        invariant keys <= threads.Keys
        invariant p.View() == map k | k in old(p.View()).Keys + (threads.Keys - keys) ::
                                if k in old(p.View()) then old(p.View())[k] else threads[k]
        decreases |keys|
      {
        var k :| k in keys;
        p.PushBackMsg(Regist(k, threads[k]));
        keys := keys - {k};
      }
    }

    // The other loops: every registered thread gets the message.
    method Announce(msg: Msg)
      modifies threads.Values`queue
      ensures forall k :: k in threads ==> threads[k].View() == Apply(old(threads[k].View()), msg)
    {
      var keys := threads.Keys;
      while keys != {}
        invariant keys <= threads.Keys
        invariant forall k :: k in threads ==>
          || threads[k].View() == Apply(old(threads[k].View()), msg)
          || (threads[k].View() == old(threads[k].View()) && k in keys)
        decreases |keys|
      {
        var k :| k in keys;
        ApplyTwice(old(threads[k].View()), msg);
        threads[k].PushBackMsg(msg);
        keys := keys - {k};
      }
    }

    // UnRegistThread: whatever was wrong about the type is put right.
    method UnRegistThread(kind: nat, ghost except: set<nat>)
      requires Agree(except)
      modifies `threads, threads.Values`queue
      ensures threads == old(threads) - {kind} && Agree(except - {kind})
      ensures except <= {kind} ==> InSync()
      ensures old(Wrong(except)) ==> Wrong(except - {kind})
      ensures forall t :: t in old(threads.Values) && t !in threads.Values ==> t.queue == old(t.queue)
    {
      hide Apply, Replay, SameBut;
      ghost var m := threads;
      if kind in threads {
        threads := threads - {kind};
      }
      assert threads == m - {kind};
      Announce(UnRegist(kind));
      forall k | k in threads
        ensures SameBut(threads[k].View(), threads, except - {kind})
        ensures except <= {kind} ==> threads[k].View() == threads
        ensures old(Wrong(except)) && k in except - {kind} ==>
          k in threads[k].View() && threads[k].View()[k] != threads[k]
      {
        OthersKept(old(m[k].View()), kind, k);
        assert k in m && m[k] == threads[k];
        GoneView(m, old(m[k].View()), kind, except);
        if except <= {kind} {
          assert except - {kind} == {};
          SameAll(threads[k].View(), threads);
        }
      }
    }

    // CUVThread::OnInit
    method OnInit(p: Thread, ghost except: set<nat>)
      requires Agree(except) && Typed()
      modifies `threads, p`queue, threads.Values`queue
      ensures Typed() && threads == old(threads)[p.kind := p]
      ensures Agree(except + Taken(old(threads), p.kind, p) + Stale(old(p.View()), threads))
      ensures old(InSync()) ==>
        (InSync() <==>
          && Stale(old(p.View()), threads) == {}
          && (Taken(old(threads), p.kind, p) == {} || (p.kind in old(p.View()) && threads.Values == {p})))
      ensures old(p.View()) == map[] && p !in old(threads.Values) && old(Wrong(except)) ==>
        Wrong(except + Taken(old(threads), p.kind, p))
      ensures forall k :: k in threads ==>
        var was := if threads[k] == p then old(threads) + old(p.View()) else old(threads[k].View());
        threads[k].View() == Apply(was, Regist(p.kind, p))
    {
      hide Apply, Replay, Thread.View, SameBut, Stale, Taken;
      ghost var m, v := threads, p.View();
      RegistThread(p.kind, p, except);
      if v == map[] && p !in m.Values && old(Wrong(except)) {
        TakenIs(m, p.kind, p);
        forall k | k in except + Taken(m, p.kind, p)
          ensures k in threads && k in threads[k].View() && threads[k].View()[k] != threads[k]
        {
          StillWrong(m, old(m[k].View()), p.kind, p, k);
        }
      }
    }

    // CUVThread::OnExit: the thread unregisters its type, whoever has it, and
    // forgets its copy, but not what is waiting. It will know nothing exactly if
    // no registration is left in that.
    method OnExit(p: Thread, ghost except: set<nat>)
      requires Agree(except) && Typed()
      modifies `threads, threads.Values`queue, p`local
      ensures Typed() && threads == old(threads) - {p.kind} && Agree(except - {p.kind})
      ensures except <= {p.kind} ==> InSync()
      ensures p !in threads.Values && p.local == map[] && p.queue == old(p.queue)
      ensures p.View() == Replay(map[], p.queue)
      ensures p.View() == map[] <==> forall k :: !LeftIn(p.queue, k)
      ensures old(p.View()) == map[] ==> p.View() == map[]
      ensures old(p.local) == map[] ==> p.View() == old(p.View())
      ensures old(Wrong(except)) ==> Wrong(except - {p.kind})
    {
      hide Apply, Replay, SameBut, LeftIn;
      UnRegistThread(p.kind, except);
      Forgotten(p.local, p.queue);
      p.local := map[];
    }

    // One action, of the manager or of a thread. Posting is SendUvMessage by
    // whichever thread knows the receiver.
    method Do(op: Op, ghost except: set<nat>)
      requires Agree(except) && Typed()
      requires op.Join? ==> op.thread !in threads.Values && op.thread.View() == map[]
      modifies `threads, threads.Values, Named([op])
      ensures threads == After(old(threads), op) && Typed() && Agree(DisputedAfter(old(threads), op, except))
      ensures old(Wrong(except)) ==> Wrong(DisputedAfter(old(threads), op, except))
      ensures !op.Join? && !op.Leave? && old(op.thread.View()) == map[] ==> op.thread.View() == map[]
      ensures op.Exit? && op.drained ==> op.thread !in threads.Values && op.thread.View() == map[]
      ensures op.Handle? ==> op.thread.queue == if old(op.thread.queue) == [] then [] else old(op.thread.queue)[1..]
      ensures op.Post? ==> op.thread.queue == old(op.thread.queue) + [Other(op.id)]
    {
      hide Apply, Replay, SameBut, Stale, Taken;
      match op {
        case Join(p) =>
          OnInit(p, except);
          NoneStale(threads);
          assert except + Taken(old(threads), p.kind, p) + {} == except + Taken(old(threads), p.kind, p);
        case Leave(kind) =>
          UnRegistThread(kind, except);
        case Exit(p, drained) =>
          if drained {
            p.Drain();
          }
          OnExit(p, except);
        case Handle(t) =>
          if t.queue != [] {
            t.HandleNext();
          }
        case Post(t, id) =>
          OtherApplied(t.View(), id);
          t.PushBackMsg(Other(id));
      }
    }

    // Any run of such actions: once the messages are handled, the copies differ
    // from the manager's map in exactly the disputed types.
    method Run(ops: seq<Op>, ghost except: set<nat>)
      requires Agree(except) && Wrong(except) && Typed() && Orderly(ops)
      requires forall j :: 0 <= j < |ops| && ops[j].Join? && Stays(ops, 0, j) ==>
        ops[j].thread !in threads.Values && ops[j].thread.View() == map[]
      modifies `threads, threads.Values, Named(ops)
      ensures threads == Members(old(threads), ops) && Typed()
      ensures Agree(Disputed(old(threads), ops, except)) && Wrong(Disputed(old(threads), ops, except))
      ensures InSync() <==> Disputed(old(threads), ops, except) == {}
    {
      hide Apply, Replay, SameBut, Taken, After, DisputedAfter, Stays, Orderly;
      ghost var m := threads;
      for i := 0 to |ops|
        invariant threads == Members(m, ops[..i]) && Typed()
        invariant Agree(Disputed(m, ops[..i], except)) && Wrong(Disputed(m, ops[..i], except))
        invariant threads.Values <= m.Values + Named(ops)
        invariant forall j :: i <= j < |ops| && ops[j].Join? && Stays(ops, i, j) ==>
          ops[j].thread !in threads.Values && ops[j].thread.View() == map[]
      {
        assert ops[..i + 1][..i] == ops[..i];
        AfterValues(threads, ops[i]);
        JoinsApart(ops, i);
        Do(ops[i], Disputed(m, ops[..i], except));
      }
      assert ops[..|ops|] == ops;
      ghost var d := Disputed(m, ops, except);
      if d == {} {
        forall k | k in threads ensures threads[k].View() == threads {
          SameAll(threads[k].View(), threads);
        }
      } else {
        var k :| k in d;
        assert k in threads && threads[k].View()[k] != threads[k];
      }
    }
  }

  // What still is to register after i was so before i, or exits at i.
  lemma JoinsApart(ops: seq<Op>, i: nat)
    requires Orderly(ops) && i < |ops|
    ensures forall j :: i < j < |ops| && ops[j].Join? && Stays(ops, i + 1, j) ==>
      ops[i] == Exit(ops[j].thread, true) || (Stays(ops, i, j) && ops[i] != Join(ops[j].thread))
    ensures ops[i].Join? ==> Stays(ops, i, i)
  {
    forall j | i < j < |ops| && ops[j].Join? && Stays(ops, i + 1, j) && ops[i] != Exit(ops[j].thread, true)
      ensures Stays(ops, i, j) && ops[i] != Join(ops[j].thread)
    {}
  }

  lemma AfterValues(m: Directory, op: Op)
    ensures After(m, op).Values <= m.Values + if op.Join? then {op.thread} else {}
  {}

  lemma NoneStale(threads: Directory)
    ensures Stale(map[], threads) == {}
  {}

  lemma OtherApplied(m: Directory, id: nat)
    ensures Apply(m, Other(id)) == m
  {}

  // What p knows after being registered.
  lemma NewcomerView(m: Directory, v: Directory, kind: nat, p: Thread, except: set<nat>)
    ensures SameBut(Apply(m + v, Regist(kind, p)), m[kind := p], except + Taken(m, kind, p) + Stale(v, m[kind := p]))
  {}

  // What another thread that the manager has knows then.
  lemma OthersView(m: Directory, v: Directory, kind: nat, p: Thread, except: set<nat>, stale: set<nat>)
    requires SameBut(v, m, except)
    ensures SameBut(Apply(v, Regist(kind, p)), m[kind := p], except + Taken(m, kind, p) + stale)
  {}

  // A type is wrong afterwards if it was before, or was taken.
  lemma StillWrong(m: Directory, v: Directory, kind: nat, p: Thread, k: nat)
    requires p !in m.Values && k in m && (k != kind ==> k in v && v[k] != m[k])
    ensures k == kind ==> k in Apply(m + map[], Regist(kind, p)) && Apply(m + map[], Regist(kind, p))[k] != p
    ensures k != kind ==> k in Apply(v, Regist(kind, p)) && Apply(v, Regist(kind, p))[k] != m[k]
  {}

  lemma TakenIs(m: Directory, kind: nat, p: Thread)
    requires p !in m.Values
    ensures Taken(m, kind, p) == if kind in m then {kind} else {}
  {}

  lemma GoneView(m: Directory, v: Directory, kind: nat, except: set<nat>)
    requires SameBut(v, m, except)
    ensures SameBut(Apply(v, UnRegist(kind)), m - {kind}, except - {kind})
  {}

  lemma OthersKept(v: Directory, kind: nat, k: nat)
    ensures k != kind ==> (k in Apply(v, UnRegist(kind)) <==> k in v)
    ensures k != kind && k in v ==> Apply(v, UnRegist(kind))[k] == v[k]
  {}

  lemma OthersExact(m: Directory, kind: nat, p: Thread)
    ensures Apply(m, Regist(kind, p)) == m[kind := p] <==> Taken(m, kind, p) == {}
  {}

  lemma NewcomerExact(m: Directory, v: Directory, kind: nat, p: Thread)
    ensures Apply(m + v, Regist(kind, p)) == m[kind := p] <==>
      Stale(v, m[kind := p]) == {} && (Taken(m, kind, p) == {} || kind in v)
  {
    var n, w := m[kind := p], Apply(m + v, Regist(kind, p));
    if w == n {
      forall k | k in v ensures k in n && n[k] == v[k] {
        assert k in w && w[k] == v[k];
      }
    }
    if Stale(v, n) == {} {
      forall k | k in v ensures k in n && n[k] == v[k] {
        assert k !in Stale(v, n);
      }
      SameAll(w, n);
    }
  }

  // A second thread under a taken type: the copies differ from the manager's
  // map, in that type only.
  method Conflict(kind: nat) returns (mng: Mng)
    ensures !mng.InSync() && mng.Agree({kind})
  {
    hide Apply, Replay, SameBut, Stale, Thread.View, Mng.Agree;
    mng := new Mng();
    var one := new Thread(kind);
    var two := new Thread(kind);
    NoneStale(map[kind := one]);
    NoneStale(map[kind := two]);
    mng.OnInit(one, {});
    assert mng.threads == map[kind := one];
    mng.OnInit(two, {});
    assert mng.threads == map[kind := two] && {} + {kind} + {} == {kind};
  }

  // The registration of a second thread waits at the first when that exits, and
  // the second exits then: registered again, the first will know what is gone.
  method Return(a: nat, b: nat) returns (mng: Mng)
    requires a != b
    ensures !mng.InSync() && mng.Agree({b})
  {
    hide Apply, Replay, SameBut, Stale, Taken, Thread.View, LeftIn, Mng.Agree;
    mng := new Mng();
    var p := new Thread(a);
    var q := new Thread(b);
    Told(a, b, p, q);
    mng.OnInit(p, {});
    assert mng.threads[a] == p && mng.threads == map[a := p];
    mng.OnInit(q, {});
    assert mng.threads[a] == p && p.View() == map[a := p, b := q];
    mng.OnExit(p, {});
    assert {} - {a} == {} - {b} == {};
    mng.OnExit(q, {});
    assert p.View() == map[a := p, b := q] && mng.threads == map[];
    mng.OnInit(p, {});
    assert mng.threads == map[a := p] && {} + {} + {b} == {b};
  }

  lemma Told(a: nat, b: nat, p: Thread, q: Thread)
    requires a != b && p != q
    ensures Apply(map[] + map[], Regist(a, p)) == map[a := p]
    ensures Apply(map[a := p], Regist(b, q)) == map[a := p, b := q]
    ensures Stale(map[], map[a := p]) == Stale(map[], map[a := p, b := q]) == {}
    ensures Stale(map[a := p, b := q], map[a := p]) == {b}
    ensures Taken(map[], a, p) == Taken(map[a := p], b, q) == {}
  {}
}
