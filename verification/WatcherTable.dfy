// core.c and linux-core.c: the table of watchers by file descriptor, the
// queue of watchers whose events epoll does not know yet, and the epoll set.
module WatcherTable {
  import opened PowerOfTwo
  import opened Sequences

  datatype Event = PollIn | PollOut | PollRdHup

  type Mask = set<Event>

  const INT_MAX := 0x7FFF_FFFF

  // uv__io_t
  class Watcher {
    const fd: int
    var events: Mask
    var pevents: Mask

    // uv__io_init
    constructor (fd: int)
      requires fd >= -1
      ensures this.fd == fd && events == {} && pevents == {}
    {
      this.fd, events, pevents := fd, {}, {};
    }
  }

  // An element of loop->watchers: a watcher, or in the last two what uv__io_poll keeps there.
  datatype Slot = Null | Io(w: Watcher) | Fake(value: nat)

  // The watchers in a stretch of the table.
  function Count(s: seq<Slot>): nat { if s == [] then 0 else Count(s[..|s| - 1]) + if s[|s| - 1].Null? then 0 else 1 }

  lemma {:induction false} CountPut(s: seq<Slot>, i: nat, x: Slot)
    requires i < |s|
    ensures Count(s[i := x]) == Count(s) - (if s[i].Null? then 0 else 1) + (if x.Null? then 0 else 1)
  {
    var k := |s| - 1;
    if i == k {
      assert s[i := x][..k] == s[..k];
    } else {
      assert s[i := x][..k] == s[..k][i := x];
      CountPut(s[..k], i, x);
    }
  }

  lemma {:induction false} CountNulls(s: seq<Slot>, n: nat)
    ensures Count(s + seq(n, _ => Null)) == Count(s)
  {
    if n == 0 {
      assert s + seq(n, _ => Null) == s;
    } else {
      assert (s + seq(n, _ => Null))[..|s| + n - 1] == s + seq(n - 1, _ => Null);
      CountNulls(s, n - 1);
    }
  }

  lemma {:induction false} CountPositive(s: seq<Slot>, i: nat)
    requires i < |s| && !s[i].Null?
    ensures Count(s) > 0
  {
    if i < |s| - 1 {
      CountPositive(s[..|s| - 1], i);
    }
  }

  // loop->nwatchers after maybe_resize, and the number of slots it allocates.
  function TableSize(len: nat): nat
    requires len + 2 < MODULUS
  {
    (NextPowerOfTwo(len + 2) + MODULUS - 2) % MODULUS
  }

  function Allocated(len: nat): nat
    requires len + 2 < MODULUS
  {
    (TableSize(len) + 2) % MODULUS
  }

  ghost predicate IsPower(n: nat) { exists k: nat :: n == Pow2(k) }

  // There is room for the descriptors and two slots more exactly if len is
  // not INT_MAX, that is for every descriptor but INT_MAX - 1, for which there
  // is no slot at all; then the number of slots is a power of two and at most
  // doubles.
  lemma TableSizeExact(len: nat)
    requires 1 <= len <= INT_MAX
    ensures Allocated(len) >= len + 2 <==> len < INT_MAX
    ensures len == INT_MAX ==> Allocated(len) == 0
    ensures len < INT_MAX ==>
      len <= TableSize(len) < 2 * len + 2 && Allocated(len) == TableSize(len) + 2 && IsPower(Allocated(len))
  {
    hide NextPowerOfTwo, Pow2;
    NextPowerOfTwoExact(len + 2);
    Pow2At32();
    if len < INT_MAX {
      var k: nat :| IsLeast(k, NextPowerOfTwo(len + 2), len + 2);
      Pow2At0();
      Pow2Double(k);
      Pow2Order(k, 31);
      assert Allocated(len) == Pow2(k);
    }
  }

  lemma Pow2Double(k: nat)
    ensures k > 0 ==> Pow2(k) == 2 * Pow2(k - 1)
  {}

  class Loop {
    var watchers: seq<Slot>     // loop->watchers, [] for NULL
    var nwatchers: nat
    var nfds: int
    var queue: seq<Watcher>     // loop->watcher_queue
    var epoll: map<int, Mask>   // what the kernel watches
    ghost var all: set<Watcher> // the watchers of the loop

    // No table yet, or nwatchers entries and two more, a power of two in all.
    ghost predicate Sized()
      reads this`watchers, this`nwatchers
    {
      if watchers == [] then nwatchers == 0 else |watchers| == nwatchers + 2 && IsPower(|watchers|)
    }

    ghost function Table(): seq<Slot>
      requires Sized()
      reads this`watchers, this`nwatchers
    {
      watchers[..nwatchers]
    }

    // What uv__io_poll keeps behind the table.
    ghost function Trailing(): seq<Slot>
      requires Sized()
      reads this`watchers, this`nwatchers
    {
      if watchers == [] then [Null, Null] else watchers[nwatchers..]
    }

    // The watcher is in the table exactly if it wants events, waits in the queue if
    // epoll has to be told, and epoll knows the events it was told.
    ghost predicate Placed(w: Watcher)
      reads this, w
    {
      && (w.pevents != {} <==> 0 <= w.fd < nwatchers <= |watchers| && watchers[w.fd] == Io(w))
      && (w.pevents == {} ==> w.events == {} && w !in queue)
      && (w.events != w.pevents ==> w in queue)
      && (w.events != {} ==> w.fd in epoll && epoll[w.fd] == w.events)
    }

    ghost predicate Entries()
      reads this`watchers, this`nwatchers, this`all
    {
      forall i :: 0 <= i < nwatchers <= |watchers| ==>
        watchers[i].Null? || (watchers[i].Io? && watchers[i].w in all && watchers[i].w.fd == i)
    }

    ghost predicate Valid()
      reads this, all
    {
      && Sized() && Entries() && nfds == Count(Table())
      && Distinct(queue) && (forall w :: w in queue ==> w in all)
      && (forall v, w :: v in all && w in all && v.fd == w.fd && v.fd >= 0 ==> v == w)
      && (forall w :: w in all ==> Placed(w))
      && (forall f :: f in epoll ==> 0 <= f < nwatchers)
    }

    constructor ()
      ensures Valid() && all == {} && nfds == 0 && epoll == map[]
    {
      watchers, nwatchers, nfds, queue, epoll, all := [], 0, 0, [], map[], {};
    }

    // uv__io_init of one more watcher; its descriptor is not another's.
    method Add(w: Watcher)
      requires Valid() && w !in all && w.events == {} && w.pevents == {}
      requires forall v :: v in all ==> v.fd != w.fd || w.fd < 0
      modifies `all
      ensures Valid() && all == old(all) + {w}
    {
      assert forall i :: 0 <= i < nwatchers ==> watchers[i] != Io(w);
      all := all + {w};
    }

    // Without watched descriptors nothing waits to be told to epoll.
    lemma IdleQueue()
      requires Valid() && nfds == 0
      ensures queue == []
    {
      if queue != [] {
        var w := queue[0];
        assert w in queue && Placed(w);
        CountPositive(Table(), w.fd);
      }
    }

    // maybe_resize
    method MaybeResize(len: nat)
      requires Sized() && 1 <= len < INT_MAX
      modifies `watchers, `nwatchers
      ensures Sized() && watchers != [] && nwatchers >= len && nwatchers >= old(nwatchers)
      ensures nwatchers == if len <= old(nwatchers) then old(nwatchers) else TableSize(len)
      ensures Trailing() == old(Trailing()) && Count(Table()) == old(Count(Table()))
      ensures forall i :: 0 <= i < nwatchers ==> watchers[i] == if i < old(nwatchers) then old(watchers)[i] else Null
    {
      if len <= nwatchers {
        return;
      }
      var list, count := Null, Null;
      if watchers != [] {
        list, count := watchers[nwatchers], watchers[nwatchers + 1];
      }
      var size := TableSize(len);
      TableSizeExact(len);
      CountNulls(watchers[..nwatchers], size - nwatchers);
      var grown := watchers[..nwatchers] + seq(size - nwatchers, _ => Null);
      assert (grown + [list, count])[..size] == grown;
      watchers := grown + [list, count];
      nwatchers := size;
    }

    // uv__io_start. The descriptor INT_MAX - 1 passes the assertions of the
    // source, but its table has no room (TableSizeExact).
    method Start(w: Watcher, events: Mask)
      requires Valid() && w in all && events != {} && 0 <= w.fd < INT_MAX - 1
      modifies `watchers, `nwatchers, `nfds, `queue, w`pevents
      ensures Valid() && w.pevents == old(w.pevents) + events
      ensures nfds == old(nfds) + if old(w.pevents) == {} then 1 else 0
      ensures queue == old(queue) + if w in old(queue) || w.events == w.pevents then [] else [w]
      ensures Trailing() == old(Trailing()) && nwatchers >= old(nwatchers)
    {
      Grow(w.fd + 1);
      w.pevents := w.pevents + events;
      if w.events == w.pevents {
        return;
      }
      Enlist(w);
    }

    // A table that has grown is as good as before.
    method Grow(len: nat)
      requires Valid() && 1 <= len < INT_MAX
      modifies `watchers, `nwatchers
      ensures Valid() && watchers != [] && nwatchers >= len && nwatchers >= old(nwatchers)
        && Trailing() == old(Trailing())
    {
      hide IsPower, Count, Distinct;
      MaybeResize(len);
    }

    // The last part of uv__io_start: into the queue and into the table, if it is not there.
    method Enlist(w: Watcher)
      requires ValidBut(w) && w in all && w.pevents != {} && 0 <= w.fd < nwatchers && watchers != []
      requires w.events != {} ==> w.fd in epoll && epoll[w.fd] == w.events
      modifies `watchers, `nfds, `queue
      ensures Valid() && nfds == old(nfds) + if old(watchers)[w.fd].Null? then 1 else 0
      ensures Trailing() == old(Trailing()) && queue == old(queue) + if w in old(queue) then [] else [w]
    {
      hide IsPower, Count, Distinct;
      if w !in queue {
        DistinctAppend(queue, w);
        queue := queue + [w];
      }
      if watchers[w.fd].Null? {
        CountPut(Table(), w.fd, Io(w));
        assert watchers[w.fd := Io(w)][..nwatchers] == Table()[w.fd := Io(w)];
        watchers := watchers[w.fd := Io(w)];
        nfds := nfds + 1;
      }
    }

    // Everything in order, except perhaps where w stands.
    ghost predicate ValidBut(w: Watcher)
      reads this, all
    {
      && Sized() && Entries() && nfds == Count(Table())
      && Distinct(queue) && (forall v :: v in queue ==> v in all)
      && (forall u, v :: u in all && v in all && u.fd == v.fd && u.fd >= 0 ==> u == v)
      && (forall v :: v in all && v != w ==> Placed(v))
      && (forall f :: f in epoll ==> 0 <= f < nwatchers)
    }

    // uv__io_stop; the assertions of the source are those below.
    method StopWatching(w: Watcher, events: Mask)
      requires Valid() && w in all && events != {}
      modifies `watchers, `nfds, `queue, w`pevents, w`events
      ensures Valid() && w.pevents == old(w.pevents) - events
      ensures nfds == old(nfds) - if old(w.pevents) != {} && w.pevents == {} then 1 else 0
      ensures w.pevents != {} ==> queue == old(queue) + if w in old(queue) then [] else [w]
      ensures Trailing() == old(Trailing())
    {
      hide IsPower, Count, Distinct;
      assert Placed(w);
      if w.fd == -1 {
        return;
      }
      if w.fd < 0 || w.fd >= nwatchers {
        return;
      }
      w.pevents := w.pevents - events;
      if w.pevents == {} {
        Delist(w);
      } else if w !in queue {
        DistinctAppend(queue, w);
        queue := queue + [w];
      }
    }

    // The part of uv__io_stop for a watcher that wants no more events.
    method Delist(w: Watcher)
      requires ValidBut(w) && w in all && w.pevents == {} && 0 <= w.fd < nwatchers
      requires watchers[w.fd] == Null ==> w.events == {}
      modifies `watchers, `nfds, `queue, w`events
      ensures Valid() && nfds == old(nfds) - if old(watchers)[w.fd].Null? then 0 else 1
      ensures Trailing() == old(Trailing())
    {
      hide IsPower, Count, Distinct, Without;
      WithoutMembers(queue, w);
      WithoutDistinct(queue, w);
      queue := Without(queue, w);
      if !watchers[w.fd].Null? {
        assert watchers[w.fd] == Io(w);
        CountPositive(Table(), w.fd);
        assert nfds > 0;
        CountPut(Table(), w.fd, Null);
        assert watchers[w.fd := Null][..nwatchers] == Table()[w.fd := Null];
        watchers := watchers[w.fd := Null];
        nfds := nfds - 1;
        w.events := {};
      }
    }

    // uv__epoll_ctl: 0 or the error number
    method Control(op: Op, fd: int, events: Mask) returns (err: Errno)
      modifies `epoll
      ensures match op
        case CtlAdd =>
          if fd in old(epoll) then err == EExist && epoll == old(epoll)
          else err == Success && epoll == old(epoll)[fd := events]
        case CtlMod =>
          if fd in old(epoll) then err == Success && epoll == old(epoll)[fd := events]
          else err == ENoent && epoll == old(epoll)
        case CtlDel => epoll == old(epoll) - {fd} && err == if fd in old(epoll) then Success else ENoent
    {
      err := Success;
      match op {
        case CtlAdd =>
          if fd in epoll { err := EExist; } else { epoll := epoll[fd := events]; }
        case CtlMod =>
          if fd in epoll { epoll := epoll[fd := events]; } else { err := ENoent; }
        case CtlDel =>
          if fd !in epoll { err := ENoent; }
          epoll := epoll - {fd};
      }
    }

    // One turn of the loop of uv__io_poll that tells epoll what has changed;
    // false stands for abort().
    method Tell(w: Watcher) returns (ok: bool)
      requires Valid() && queue != [] && w == queue[0]
      modifies `queue, `epoll, w`events
      ensures ok && Valid() && queue == old(queue)[1..]
      ensures epoll == old(epoll)[w.fd := w.pevents] && w.events == w.pevents
    {
      hide IsPower, Count, Distinct;
      assert w in queue && Placed(w);
      FirstApart(queue);
      queue := queue[1..];
      assert w.pevents != {} && 0 <= w.fd < nwatchers;
      var op := if w.events == {} then CtlAdd else CtlMod;
      var err := Control(op, w.fd, w.pevents);
      if err != Success {
        if err != EExist {
          return false;
        }
        err := Control(CtlMod, w.fd, w.pevents);
        if err != Success {
          return false;
        }
      }
      w.events := w.pevents;
      ok := true;
    }

    // uv__io_poll up to the wait: afterwards epoll watches for every watcher
    // exactly the events it wants.
    method Poll() returns (ok: bool)
      requires Valid()
      modifies `queue, `epoll, all`events
      ensures ok && Valid() && queue == []
      ensures forall w :: w in all ==>
        && w.events == w.pevents
        && (w.pevents != {} ==> w.fd in epoll && epoll[w.fd] == w.pevents)
    {
      ok := true;
      if nfds == 0 {
        IdleQueue();
        AllTold();
        return;
      }
      while queue != []
        invariant Valid()
        decreases |queue|
      {
        assert queue[0] in queue;
        ok := Tell(queue[0]);
        if !ok {
          return;
        }
      }
      AllTold();
    }

    lemma AllTold()
      requires Valid() && queue == []
      ensures forall w :: w in all ==>
        && w.events == w.pevents
        && (w.pevents != {} ==> w.fd in epoll && epoll[w.fd] == w.pevents)
    {
      forall w | w in all ensures w.events == w.pevents
        && (w.pevents != {} ==> w.fd in epoll && epoll[w.fd] == w.pevents) {
        assert Placed(w);
      }
    }

    // The part of uv__io_poll that finds the watcher of a reported descriptor;
    // one that is not watched any more is taken out of epoll.
    method Lookup(fd: int) returns (w: Slot)
      requires Valid() && fd in epoll
      modifies `epoll
      ensures Valid() && 0 <= fd < nwatchers && (w.Io? || w.Null?)
      ensures w.Io? ==> w.w in all && w.w.fd == fd && w.w.pevents != {} && epoll == old(epoll)
      ensures w.Null? ==> epoll == old(epoll) - {fd} && forall v :: v in all && v.fd == fd ==> v.pevents == {}
    {
      hide IsPower, Count, Distinct;
      w := watchers[fd];
      if w.Null? {
        forall v | v in all && v.fd == fd ensures v.pevents == {} && v.events == {} { assert Placed(v); }
        var err := Control(CtlDel, fd, {});
      } else {
        assert Placed(w.w);
      }
    }
  }

  datatype Op = CtlAdd | CtlMod | CtlDel

  datatype Errno = Success | EExist | ENoent

  lemma FirstApart(q: seq<Watcher>)
    requires Distinct(q) && q != []
    ensures Distinct(q[1..]) && q[0] !in q[1..] && forall x :: x in q <==> x == q[0] || x in q[1..]
  {
    assert q == [q[0]] + q[1..];
  }
}
