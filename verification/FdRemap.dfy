// process.c: the three loops of uv__process_child_init that give the child
// its standard descriptors.
module FdRemap {
  // What a descriptor refers to: a file that was open at the fork, or a new
  // opening of /dev/null.
  datatype File = Given(id: nat) | DevNull(readOnly: bool)

  datatype Entry = Entry(file: File, cloexec: bool)

  type Table = map<int, Entry>

  // pipes[i]: [0] is the parent's end, [1] what slot i of the child shall be.
  datatype Pipe = Pipe(parent: int, child: int)

  // The descriptors from n on are all in use.
  ghost predicate FullFrom(t: Table, n: int, limit: int) {
    forall f :: n <= f < limit ==> f in t
  }

  // The descriptor table of the child process.
  class Kernel {
    var table: Table
    const limit: nat // RLIMIT_NOFILE

    constructor (table: Table, limit: nat)
      ensures this.table == table && this.limit == limit
    {
      this.table, this.limit := table, limit;
    }

    // The lowest unused descriptor from n on, or -1 (EMFILE).
    method Lowest(n: nat) returns (f: int)
      ensures f == -1 ==> FullFrom(table, n, limit)
      ensures f != -1 ==> n <= f < limit && f !in table && forall g :: n <= g < f ==> g in table
    {
      f := n;
      while f < limit
        invariant n <= f && forall g :: n <= g < f ==> g in table
      {
        if f !in table {
          return;
        }
        f := f + 1;
      }
      f := -1;
    }

    // fcntl(fd, F_DUPFD, n)
    method DupFrom(fd: int, n: nat) returns (r: int)
      modifies this`table
      ensures r == -1 ==> table == old(table) && (fd !in table || FullFrom(table, n, limit))
      ensures r != -1 ==>
        && fd in old(table) && n <= r && r !in old(table)
        && table == old(table)[r := Entry(old(table)[fd].file, false)]
    {
      if fd !in table {
        return -1;
      }
      r := Lowest(n);
      if r != -1 {
        table := table[r := Entry(table[fd].file, false)];
      }
    }

    // open("/dev/null", ...)
    method OpenNull(readOnly: bool) returns (r: int)
      modifies this`table
      ensures r == -1 ==> table == old(table) && FullFrom(table, 0, limit)
      ensures r != -1 ==>
        && 0 <= r && r !in old(table) && (forall g :: 0 <= g < r ==> g in old(table))
        && table == old(table)[r := Entry(DevNull(readOnly), false)]
    {
      r := Lowest(0);
      if r != -1 {
        table := table[r := Entry(DevNull(readOnly), false)];
      }
    }

    // dup2(fd, to)
    method Dup2(fd: int, to: int) returns (r: int)
      requires fd != to && 0 <= to
      modifies this`table
      ensures r == -1 ==> table == old(table) && (fd !in table || limit <= to)
      ensures r != -1 ==> r == to && fd in old(table) && table == old(table)[to := Entry(old(table)[fd].file, false)]
    {
      if fd !in table || limit <= to {
        return -1;
      }
      table := table[to := Entry(table[fd].file, false)];
      r := to;
    }

    // uv__cloexec(fd, 0), the result of which is ignored
    method ClearCloexec(fd: int)
      modifies this`table
      ensures table == if fd in old(table) then old(table)[fd := Entry(old(table)[fd].file, false)] else old(table)
    {
      if fd in table {
        table := table[fd := Entry(table[fd].file, false)];
      }
    }

    // uv__close, the result of which is ignored here; it asserts that fd is not a standard one
    method Close(fd: int)
      requires fd > 2
      modifies this`table
      ensures table == old(table) - {fd}
    {
      table := table - {fd};
    }
  }

  // What uv_spawn hands to the child: every descriptor named is open, and the
  // parent's ends are not to be inherited.
  ghost predicate Spawnable(t: Table, ps: seq<Pipe>) {
    && |ps| >= 3
    && (forall f :: f in t ==> 0 <= f)
    && (forall i :: 0 <= i < |ps| ==>
      && (ps[i].child >= 0 ==> ps[i].child in t)
      && (ps[i].parent >= 0 ==> ps[i].parent in t && forall j :: 0 <= j < |ps| ==> ps[j].child != ps[i].parent))
  }

  // Slot i has to be copied out of the way first.
  predicate Low(p: Pipe, i: int) { 0 <= p.child < i }

  ghost predicate DupedAt(t0: Table, ps0: seq<Pipe>, t: Table, ps: seq<Pipe>, i: int)
    requires 0 <= i < |ps0| == |ps|
  {
    && ps[i].parent == ps0[i].parent
    && if Low(ps0[i], i) then
        && ps[i].child >= |ps| && ps[i].child !in t0 && ps[i].child in t
        && ps0[i].child in t0 && t[ps[i].child].file == t0[ps0[i].child].file
      else
        ps[i].child == ps0[i].child
  }

  // The first n slots have been through the first loop.
  ghost predicate Duped(t0: Table, ps0: seq<Pipe>, t: Table, ps: seq<Pipe>, n: int) {
    && |ps0| == |ps| && 0 <= n <= |ps|
    && (forall i :: 0 <= i < n ==> DupedAt(t0, ps0, t, ps, i))
    && (forall i :: n <= i < |ps| ==> ps[i] == ps0[i])
    && (forall f :: f in t0 ==> f in t && t[f] == t0[f])
    && (forall f :: f in t && f !in t0 ==> f >= |ps| && exists i :: 0 <= i < n && ps[i].child == f)
  }

  // The first loop: sources below their slot are moved out of the way.
  method DupLow(k: Kernel, pipes: array<Pipe>) returns (ok: bool)
    requires Spawnable(k.table, pipes[..])
    modifies k`table, pipes
    ensures ok ==> Duped(old(k.table), old(pipes[..]), k.table, pipes[..], pipes.Length)
    ensures !ok ==> FullFrom(k.table, pipes.Length, k.limit)
  {
    ghost var t0, ps0 := k.table, pipes[..];
    for fd := 0 to pipes.Length
      invariant Duped(t0, ps0, k.table, pipes[..], fd)
    {
      var useFd := pipes[fd].child;
      if useFd < 0 || useFd >= fd {
        continue;
      }
      ghost var t, ps := k.table, pipes[..];
      var r := k.DupFrom(useFd, pipes.Length);
      pipes[fd] := pipes[fd].(child := r);
      if r == -1 {
        return false;
      }
      DupedStep(t0, ps0, t, ps, fd, r);
      assert pipes[..] == ps[fd := ps[fd].(child := r)];
    }
    ok := true;
  }

  lemma DupedStep(t0: Table, ps0: seq<Pipe>, t: Table, ps: seq<Pipe>, n: int, r: int)
    requires Duped(t0, ps0, t, ps, n) && Spawnable(t0, ps0) && n < |ps| && Low(ps[n], n) && r >= |ps| && r !in t
    ensures ps[n].child in t
    ensures Duped(t0, ps0, t[r := Entry(t[ps[n].child].file, false)], ps[n := ps[n].(child := r)], n + 1)
  {
    var t', ps' := t[r := Entry(t[ps[n].child].file, false)], ps[n := ps[n].(child := r)];
    forall i | 0 <= i < n + 1 ensures DupedAt(t0, ps0, t', ps', i) {
      if i < n {
        assert DupedAt(t0, ps0, t, ps, i);
      }
    }
    forall f | f in t' && f !in t0 ensures f >= |ps'| && exists i :: 0 <= i < n + 1 && ps'[i].child == f {
      if f == r {
        assert ps'[n].child == f;
      } else {
        var i :| 0 <= i < n && ps[i].child == f;
        assert ps'[i].child == f;
      }
    }
  }

  // After the first loop every source is negative or at least its own slot.
  ghost predicate Ready(t: Table, ps: seq<Pipe>) {
    && |ps| >= 3
    && (forall f :: f in t ==> 0 <= f)
    && (forall i :: 0 <= i < |ps| ==>
      && (ps[i].child >= 0 ==> ps[i].child >= i && ps[i].child in t)
      && (ps[i].parent >= |ps| ==> forall j :: 0 <= j < |ps| ==> ps[j].child != ps[i].parent))
  }

  lemma DupedReady(t0: Table, ps0: seq<Pipe>, t: Table, ps: seq<Pipe>)
    requires Spawnable(t0, ps0) && Duped(t0, ps0, t, ps, |ps|)
    ensures Ready(t, ps)
  {
    forall i | 0 <= i < |ps| ensures ps[i].child >= 0 ==> ps[i].child >= i && ps[i].child in t {
      assert DupedAt(t0, ps0, t, ps, i);
    }
    forall i, j | 0 <= i < |ps| && 0 <= j < |ps| && ps[i].parent >= |ps| ensures ps[j].child != ps[i].parent {
      assert DupedAt(t0, ps0, t, ps, i) && DupedAt(t0, ps0, t, ps, j);
    }
  }

  // How many descriptors from n on and below i are unused.
  function Free(t: Table, n: int, i: int): nat
    decreases i - n
  {
    if i <= n then 0 else Free(t, n, i - 1) + if i - 1 in t then 0 else 1
  }

  // How many of the descriptors unused at the start, counted from slot n on,
  // /dev/null has been opened on for the standard slots before n. Opening takes
  // the lowest unused one, which need not be the slot itself.
  function Ahead(t: Table, ps: seq<Pipe>, n: nat): nat
    requires n <= 3 <= |ps|
  {
    if n == 0 then 0
    else
      var a := Ahead(t, ps, n - 1);
      if n - 1 in t then (if ps[n - 1].child < 0 then a + 1 else a)
      else if a == 0 || ps[n - 1].child < 0 then a
      else a - 1
  }

  lemma {:induction false} FreeFirst(t: Table, n: int, i: int)
    requires n < i
    ensures Free(t, n, i) == Free(t, n + 1, i) + if n in t then 0 else 1
    decreases i - n
  {
    if n + 1 < i {
      FreeFirst(t, n, i - 1);
    }
  }

  lemma {:induction false} FreeUpTo(t: Table, n: int, i: int, j: int)
    requires n <= i < j
    ensures Free(t, n, j) >= Free(t, n, i) + if i in t then 0 else 1
    decreases j - n
  {
    if i + 1 < j {
      FreeUpTo(t, n, i, j - 1);
    }
  }

  // With the first a unused ones taken, the lowest one left is the next.
  lemma {:induction false} FreeNext(t: Table, n: int, r: int, a: nat)
    requires forall g :: n <= g < r && g !in t ==> Free(t, n, g) < a
    ensures Free(t, n, r) <= a
    decreases r - n
  {
    if n < r {
      FreeNext(t, n, r - 1, a);
    }
  }

  lemma {:induction false} SameFree(t: Table, u: Table, n: int, i: int)
    requires forall f :: n <= f < i ==> (f in t <==> f in u)
    ensures Free(t, n, i) == Free(u, n, i)
    decreases i - n
  {
    if n < i {
      SameFree(t, u, n, i - 1);
    }
  }

  // Slot i is as it was, except that it may have become /dev/null when that was
  // opened for one of the first n slots, and has exactly if it was among the
  // first unused descriptors.
  ghost predicate LeftAt(t0: Table, ps: seq<Pipe>, t: Table, i: int, n: nat)
    requires 3 <= |ps|
  {
    var s := if n < 3 then n else 3;
    if i in t0 then i in t && t[i] == t0[i]
    else (i in t <==> Free(t0, s, i) < Ahead(t0, ps, s)) && (i in t ==> t[i].file.DevNull? && !t[i].cloexec)
  }

  // Slot i is what the child was to get, relative to the table t0 and the sources ps.
  ghost predicate SlotAt(t0: Table, ps: seq<Pipe>, t: Table, i: int)
    requires 0 <= i < |ps| && 3 <= |ps|
  {
    if ps[i].child >= 0 then ps[i].child in t0 && i in t && t[i] == Entry(t0[ps[i].child].file, false)
    else if i < 3 then i in t && t[i] == Entry(DevNull(i == 0), false)
    else LeftAt(t0, ps, t, i, 3)
  }

  // f is the parent's end of one of the first n pipes; slots without a source close nothing.
  ghost predicate Closed(ps: seq<Pipe>, n: int, f: int)
    requires 0 <= n <= |ps|
  {
    exists i :: 0 <= i < n && ps[i].child >= 0 && ps[i].parent == f
  }

  // The first n slots have been through the second loop, which began with table t0.
  ghost predicate Mapped(t0: Table, ps: seq<Pipe>, t: Table, n: int) {
    && 0 <= n <= |ps| && 3 <= |ps|
    && (forall i :: 0 <= i < n ==> SlotAt(t0, ps, t, i))
    && (forall i :: n <= i < |ps| ==> LeftAt(t0, ps, t, i, n))
    && (forall f :: f in t ==> 0 <= f)
    && (forall f {:trigger f in t} {:trigger f in t0} :: f >= |ps| ==> (f in t <==> f in t0 && !Closed(ps, n, f)))
    && (forall f :: f >= |ps| && f in t ==> t[f] == t0[f])
  }

  function CloseHigh(t: Table, f: int, count: nat): Table { if f >= count then t - {f} else t }

  lemma SourceKept(t0: Table, ps: seq<Pipe>, t: Table, n: int)
    requires Ready(t0, ps) && Mapped(t0, ps, t, n) && n < |ps| && ps[n].child >= 0
    ensures ps[n].child in t && ps[n].child in t0 && t[ps[n].child] == t0[ps[n].child]
  {
    if ps[n].child < |ps| {
      assert LeftAt(t0, ps, t, ps[n].child, n);
    }
  }

  // One turn for a slot with a source.
  lemma MapStep(t0: Table, ps: seq<Pipe>, t: Table, n: int)
    requires Ready(t0, ps) && Mapped(t0, ps, t, n) && n < |ps| && ps[n].child >= 0
    ensures ps[n].child in t
    ensures Mapped(t0, ps, CloseHigh(t[n := Entry(t[ps[n].child].file, false)], ps[n].parent, |ps|), n + 1)
  {
    SourceKept(t0, ps, t, n);
    var t' := CloseHigh(t[n := Entry(t[ps[n].child].file, false)], ps[n].parent, |ps|);
    forall i | 0 <= i < n + 1 ensures SlotAt(t0, ps, t', i) {
      if i < n {
        assert SlotAt(t0, ps, t, i);
      }
    }
    var m := n + 1;
    forall i | m <= i < |ps| ensures LeftAt(t0, ps, t', i, m) {
      assert LeftAt(t0, ps, t, i, n);
      FreeFirst(t0, n, i);
    }
    ClosedNext(ps, n);
  }

  lemma ClosedNext(ps: seq<Pipe>, n: int)
    requires 0 <= n < |ps|
    ensures forall f :: Closed(ps, n + 1, f) <==> Closed(ps, n, f) || (ps[n].child >= 0 && f == ps[n].parent)
  {
    forall f ensures Closed(ps, n + 1, f) <==> Closed(ps, n, f) || (ps[n].child >= 0 && f == ps[n].parent) {
      if Closed(ps, n, f) {
        var i :| 0 <= i < n && ps[i].child >= 0 && ps[i].parent == f;
        assert 0 <= i < n + 1;
      }
      if ps[n].child >= 0 && f == ps[n].parent {
        assert 0 <= n < n + 1;
      }
    }
  }

  // The table after a standard slot n without a source: /dev/null was opened at r.
  function NullTable(t: Table, n: int, r: int, count: nat): Table {
    CloseHigh(t[r := Entry(DevNull(n == 0), false)][n := Entry(DevNull(n == 0), false)], r, count)
  }

  // Slot i after /dev/null has been opened at r.
  lemma NullLands(t0: Table, ps: seq<Pipe>, t: Table, n: int, r: int, i: int)
    requires |ps| >= 3 && 0 <= n < 3 && ps[n].child < 0 && n < i < |ps| && i !in t0 && n <= r
    requires forall g :: n <= g < |ps| ==> LeftAt(t0, ps, t, g, n)
    requires r !in t && (forall g :: n <= g < r ==> g in t)
    ensures (i in t || i == r) <==> Free(t0, n + 1, i) < Ahead(t0, ps, n + 1)
  {
    assert LeftAt(t0, ps, t, i, n) && LeftAt(t0, ps, t, n, n);
    var a := Ahead(t0, ps, n);
    FreeFirst(t0, n, i);
    if r < |ps| {
      assert LeftAt(t0, ps, t, r, n);
      forall g | n <= g < r && g !in t0 ensures Free(t0, n, g) < a {
        assert LeftAt(t0, ps, t, g, n);
      }
      FreeNext(t0, n, r, a);
      if i > r {
        FreeUpTo(t0, n, r, i);
      }
    }
  }

  // One turn for a standard slot without a source: the lowest unused
  // descriptor is not one of the slots that are done.
  lemma NullStep(t0: Table, ps: seq<Pipe>, t: Table, n: int, r: int)
    requires Ready(t0, ps) && Mapped(t0, ps, t, n) && n < 3 && ps[n].child < 0
    requires 0 <= r && r !in t && forall g :: 0 <= g < r ==> g in t
    ensures r >= n && Mapped(t0, ps, NullTable(t, n, r, |ps|), n + 1)
  {
    hide Free, Ahead, Closed;
    forall i | 0 <= i < n ensures i in t {
      assert SlotAt(t0, ps, t, i);
    }
    var t' := NullTable(t, n, r, |ps|);
    forall i | 0 <= i < n + 1 ensures SlotAt(t0, ps, t', i) && i in t' {
      if i < n {
        assert SlotAt(t0, ps, t, i);
      }
    }
    var m := n + 1;
    forall i | m <= i < |ps| ensures LeftAt(t0, ps, t', i, m) {
      assert LeftAt(t0, ps, t, i, n);
      if i !in t0 {
        NullLands(t0, ps, t, n, r, i);
      }
    }
    ClosedNext(ps, n);
  }

  lemma SkipStep(t0: Table, ps: seq<Pipe>, t: Table, n: int)
    requires Mapped(t0, ps, t, n) && 3 <= n < |ps| && ps[n].child < 0
    ensures Mapped(t0, ps, t, n + 1)
  {
    assert LeftAt(t0, ps, t, n, n);
    var m := n + 1;
    forall i | m <= i < |ps| ensures LeftAt(t0, ps, t, i, m) {
      assert LeftAt(t0, ps, t, i, n);
    }
    ClosedNext(ps, n);
  }

  // The second loop.
  method MapSlots(k: Kernel, pipes: array<Pipe>) returns (ok: bool)
    requires Ready(k.table, pipes[..])
    modifies k`table
    ensures ok ==> Mapped(old(k.table), pipes[..], k.table, pipes.Length)
    ensures !ok ==> FullFrom(k.table, pipes.Length, k.limit)
  {
    ghost var t0, ps := k.table, pipes[..];
    var fd := 0;
    while fd < pipes.Length
      invariant 0 <= fd <= pipes.Length && Mapped(t0, ps, k.table, fd)
    {
      var closeFd, useFd := pipes[fd].parent, pipes[fd].child;
      ghost var t, n, r := k.table, fd, -1;
      if useFd < 0 {
        if fd >= 3 {
          SkipStep(t0, ps, t, n);
          fd := fd + 1;
          continue;
        } else {
          useFd := k.OpenNull(fd == 0);
          closeFd := useFd;
          if useFd == -1 {
            return false;
          }
          r := useFd;
          NullStep(t0, ps, t, n, r);
        }
      } else {
        MapStep(t0, ps, t, n);
      }
      if fd == useFd {
        k.ClearCloexec(useFd);
      } else {
        fd := k.Dup2(useFd, fd);
      }
      if fd == -1 {
        return false;
      }
      if closeFd >= pipes.Length {
        k.Close(closeFd);
      }
      assert k.table == if r == -1
        then CloseHigh(t[n := Entry(t[ps[n].child].file, false)], ps[n].parent, |ps|)
        else NullTable(t, n, r, |ps|);
      fd := fd + 1;
    }
    ok := true;
  }

  // The third loop: what was a source, or a copy of one, and is no slot is closed.
  method CloseSources(k: Kernel, pipes: array<Pipe>)
    requires pipes.Length >= 3
    modifies k`table
    ensures forall f :: f in k.table <==> f in old(k.table) && !(f >= pipes.Length && IsSource(pipes[..], f))
    ensures forall f :: f in k.table ==> k.table[f] == old(k.table)[f]
  {
    ghost var ps := pipes[..];
    assert ps[..0] == [];
    for fd := 0 to pipes.Length
      invariant forall f :: f in k.table <==> f in old(k.table) && !(f >= pipes.Length && IsSource(ps[..fd], f))
      invariant forall f :: f in k.table ==> k.table[f] == old(k.table)[f]
    {
      var useFd := pipes[fd].child;
      if useFd >= pipes.Length {
        k.Close(useFd);
      }
      SourceNext(ps, fd);
    }
    assert ps[..|ps|] == ps;
  }

  ghost predicate IsSource(ps: seq<Pipe>, f: int) {
    exists i :: 0 <= i < |ps| && ps[i].child == f
  }

  lemma SourceNext(ps: seq<Pipe>, n: int)
    requires 0 <= n < |ps|
    ensures forall f :: IsSource(ps[..n + 1], f) <==> IsSource(ps[..n], f) || f == ps[n].child
  {
    forall f ensures IsSource(ps[..n + 1], f) <==> IsSource(ps[..n], f) || f == ps[n].child {
      if IsSource(ps[..n], f) {
        var i :| 0 <= i < n && ps[..n][i].child == f;
        assert ps[..n + 1][i].child == f;
      }
      if f == ps[n].child {
        assert ps[..n + 1][n].child == f;
      }
      if IsSource(ps[..n + 1], f) && f != ps[n].child {
        var i :| 0 <= i < n + 1 && ps[..n + 1][i].child == f;
        assert ps[..n][i].child == f;
      }
    }
  }

  // The table the child runs its program with.
  ghost predicate Remapped(t0: Table, ps: seq<Pipe>, t: Table)
    requires 3 <= |ps|
  {
    && (forall i :: 0 <= i < |ps| ==> SlotAt(t0, ps, t, i))
    && (forall f {:trigger f in t} {:trigger f in t0} :: f >= |ps| ==>
      (f in t <==> f in t0 && !Closed(ps, |ps|, f) && !IsSource(ps, f)))
    && (forall f :: f >= |ps| && f in t ==> t[f] == t0[f])
  }

  // The remapping part of uv__process_child_init; false stands for the exit with an error.
  method ChildInit(k: Kernel, pipes: array<Pipe>) returns (ok: bool)
    requires Spawnable(k.table, pipes[..])
    modifies k`table, pipes
    ensures ok ==> Remapped(old(k.table), old(pipes[..]), k.table)
    ensures !ok ==> FullFrom(k.table, pipes.Length, k.limit)
  {
    ghost var t0, ps0 := k.table, pipes[..];
    ok := DupLow(k, pipes);
    if !ok {
      return;
    }
    ghost var t1, ps1 := k.table, pipes[..];
    DupedReady(t0, ps0, t1, ps1);
    ok := MapSlots(k, pipes);
    if !ok {
      return;
    }
    ghost var t2 := k.table;
    CloseSources(k, pipes);
    Compose(t0, ps0, t1, ps1, t2, k.table);
  }

  lemma {:induction false} SameAhead(t: Table, ps: seq<Pipe>, u: Table, qs: seq<Pipe>, n: nat)
    requires n <= 3 <= |ps| == |qs|
    requires forall i :: 0 <= i < n ==> (i in t <==> i in u) && (ps[i].child < 0 <==> qs[i].child < 0)
    ensures Ahead(t, ps, n) == Ahead(u, qs, n)
  {
    if n > 0 {
      SameAhead(t, ps, u, qs, n - 1);
    }
  }

  lemma Compose(t0: Table, ps0: seq<Pipe>, t1: Table, ps1: seq<Pipe>, t2: Table, t3: Table)
    requires Spawnable(t0, ps0) && Duped(t0, ps0, t1, ps1, |ps0|) && Mapped(t1, ps1, t2, |ps1|)
    requires forall f :: f in t3 <==> f in t2 && !(f >= |ps1| && IsSource(ps1, f))
    requires forall f :: f in t3 ==> t3[f] == t2[f]
    ensures Remapped(t0, ps0, t3)
  {
    assert DupedAt(t0, ps0, t1, ps1, 0) && DupedAt(t0, ps0, t1, ps1, 1) && DupedAt(t0, ps0, t1, ps1, 2);
    assert forall f :: f < |ps0| ==> (f in t0 <==> f in t1);
    forall i | 0 <= i < |ps0| ensures SlotAt(t0, ps0, t3, i) {
      assert DupedAt(t0, ps0, t1, ps1, i) && SlotAt(t1, ps1, t2, i);
      SameFree(t0, t1, 3, i);
      SameAhead(t0, ps0, t1, ps1, 3);
    }
    forall f | f >= |ps0| ensures f in t3 <==> f in t0 && !Closed(ps0, |ps0|, f) && !IsSource(ps0, f) {
      SameClosed(t0, ps0, t1, ps1, f);
    }
  }

  // Beyond the slots, the loops close the same original descriptors whether or not
  // sources were moved, and all copies.
  lemma SameClosed(t0: Table, ps0: seq<Pipe>, t1: Table, ps1: seq<Pipe>, f: int)
    requires Duped(t0, ps0, t1, ps1, |ps0|) && f >= |ps0|
    ensures Closed(ps1, |ps1|, f) <==> Closed(ps0, |ps0|, f)
    ensures f in t0 ==> (IsSource(ps1, f) <==> IsSource(ps0, f))
    ensures f in t1 && f !in t0 ==> IsSource(ps1, f)
  {
    forall i | 0 <= i < |ps0| ensures DupedAt(t0, ps0, t1, ps1, i) {}
    if IsSource(ps0, f) {
      var i :| 0 <= i < |ps0| && ps0[i].child == f;
      assert DupedAt(t0, ps0, t1, ps1, i) && ps1[i].child == f;
    }
    if IsSource(ps1, f) {
      var i :| 0 <= i < |ps1| && ps1[i].child == f;
      assert DupedAt(t0, ps0, t1, ps1, i);
      if f in t0 {
        assert ps0[i].child == f;
      }
    }
    if Closed(ps0, |ps0|, f) {
      var i :| 0 <= i < |ps0| && ps0[i].child >= 0 && ps0[i].parent == f;
      assert DupedAt(t0, ps0, t1, ps1, i) && ps1[i].child >= 0 && ps1[i].parent == f;
    }
    if Closed(ps1, |ps1|, f) {
      var i :| 0 <= i < |ps1| && ps1[i].child >= 0 && ps1[i].parent == f;
      assert DupedAt(t0, ps0, t1, ps1, i) && ps0[i].child >= 0 && ps0[i].parent == f;
    }
  }

  // e is open and is neither named by a slot nor the same file as a source.
  ghost predicate Unrelated(t0: Table, ps: seq<Pipe>, e: int) {
    && e in t0 && t0[e].file.Given?
    && forall i :: 0 <= i < |ps| ==>
      ps[i].parent != e && ps[i].child != e && (ps[i].child in t0 ==> t0[ps[i].child].file != t0[e].file)
  }

  // A descriptor e that no slot names, such as the one errors are reported
  // through, survives exactly if no slot with a source, and no standard slot, has
  // its number.
  lemma Survives(t0: Table, ps: seq<Pipe>, t: Table, e: int)
    requires Spawnable(t0, ps) && Remapped(t0, ps, t) && Unrelated(t0, ps, e)
    ensures (e in t && t[e].file == t0[e].file) <==> e >= |ps| || (e >= 3 && ps[e].child < 0)
  {
    if e < |ps| {
      assert SlotAt(t0, ps, t, e);
    }
  }

  // The standard slots that get /dev/null.
  function Nulls(ps: seq<Pipe>): nat
    requires 3 <= |ps|
  {
    (if ps[0].child < 0 then 1 else 0) + (if ps[1].child < 0 then 1 else 0) + if ps[2].child < 0 then 1 else 0
  }

  // An unused slot that was closed ends as /dev/null exactly if it was among the
  // first Ahead(t0, ps, 3) unused descriptors from 3 on: as many as there are
  // standard slots without a source if the standard descriptors were open, and
  // none if no standard slot is without a source.
  lemma UnusedSlot(t0: Table, ps: seq<Pipe>, t: Table, i: int)
    requires Spawnable(t0, ps) && Remapped(t0, ps, t) && 3 <= i < |ps| && ps[i].child < 0 && i !in t0
    ensures i in t <==> Free(t0, 3, i) < Ahead(t0, ps, 3)
    ensures i in t ==> t[i].file.DevNull?
    ensures 0 in t0 && 1 in t0 && 2 in t0 ==> Ahead(t0, ps, 3) == Nulls(ps)
    ensures Nulls(ps) == 0 ==> Ahead(t0, ps, 3) == 0
  {
    assert SlotAt(t0, ps, t, i);
    assert Ahead(t0, ps, 0) == 0;
    assert Ahead(t0, ps, 1) <= 1 && Ahead(t0, ps, 2) <= 2;
  }

  // A process with its standard descriptors, six close-on-exec descriptors of
  // its loop, and the two ends of the pipe errors are reported through.
  function Forked(): Table {
    map f | 0 <= f < 11 :: Entry(Given(f), f >= 3)
  }

  // With eleven slots, the last of them used, the write end, 10, does not survive.
  lemma ErrorPipeLost(t: Table)
    ensures var ps := seq(11, i => if i < 3 then Pipe(-1, i) else if i == 10 then Pipe(-1, 0) else Pipe(-1, -1));
      && Spawnable(Forked(), ps) && Unrelated(Forked(), ps, 10)
      && (Remapped(Forked(), ps, t) ==> 10 in t && t[10] == Entry(Given(0), false))
  {
    var ps := seq(11, i => if i < 3 then Pipe(-1, i) else if i == 10 then Pipe(-1, 0) else Pipe(-1, -1));
    if Remapped(Forked(), ps, t) {
      assert SlotAt(Forked(), ps, t, 10);
    }
  }

  // With twelve slots, the first of them without a source, the unused last one
  // ends as the /dev/null that was opened for the first.
  lemma NullLeft(t: Table)
    ensures var ps := seq(12, i => if 1 <= i < 3 then Pipe(-1, i) else Pipe(-1, -1));
      && Spawnable(Forked(), ps)
      && (Remapped(Forked(), ps, t) ==> 11 in t && t[11].file.DevNull?)
  {
    var ps := seq(12, i => if 1 <= i < 3 then Pipe(-1, i) else Pipe(-1, -1));
    if Remapped(Forked(), ps, t) {
      FreeNext(Forked(), 3, 11, 0);
      UnusedSlot(Forked(), ps, t, 11);
    }
  }
}
