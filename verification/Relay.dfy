// client.c: the SOCKS relay once both connections stand. Callbacks of the
// event loop are methods; what libuv and the kernel do in between is in the
// fields below the line of Conn, in Transmit and in FailWrite.
module Relay {
  import opened Sequences

  datatype ConnState = Busy | Done | Stop | Dead

  // From s_req_parse on, without s_req_connect.
  datatype SessState =
    | ReqParse | ReqLookup | ProxyStart | Proxy | Kill
    | AlmostDead0 | AlmostDead1 | AlmostDead2 | AlmostDead3 | AlmostDead4 | SessDead

  const UV_EOF := -4095
  const UV_ECANCELED := -125
  const UV_ETIMEDOUT := -110

  // A uv_write whose callback has not run: len bytes of src, sent of which have
  // left. With a status the request is completed and waits for its callback only;
  // without one it is in the stream's write queue.
  datatype Pending = Pending(src: array<byte>, len: int, sent: int, status: Option<int>)

  const BUFSIZE := 2048

  class Conn {
    var rdstate: ConnState
    var wrstate: ConnState
    var result: int
    const buf: array<byte>
    // ---- the stream and the timer below ----
    var reading: bool            // between uv_read_start and uv_read_stop
    var write: Option<Pending>   // handed to uv_write, callback still to come
    var closing: int             // close callbacks still to come
    var open: bool
    ghost var received: seq<byte> // from this peer, since the relay started
    ghost var sent: seq<byte>     // to this peer

    // A connection as the handshake leaves it.
    constructor (wrstate: ConnState, result: int)
      ensures this.rdstate == Stop && this.wrstate == wrstate && this.result == result
      ensures fresh(buf) && buf.Length == BUFSIZE && !reading && write == None && open && closing == 0
      ensures received == [] && sent == []
    {
      this.rdstate, this.wrstate, this.result := Stop, wrstate, result;
      buf := new byte[BUFSIZE](i => 0);
      reading, write, closing, open := false, None, 0, true;
      received, sent := [], [];
    }

    // conn_read
    method Read()
      requires rdstate == Stop
      modifies `rdstate, `reading
      ensures rdstate == Busy && reading
    {
      reading := true;
      rdstate := Busy;
    }

    // conn_write
    method Write(data: array<byte>, len: int)
      requires (wrstate == Stop || wrstate == Done) && 0 <= len <= data.Length
      modifies `wrstate, `write
      ensures wrstate == Busy && write == Some(Pending(data, len, 0, None))
    {
      wrstate := Busy;
      write := Some(Pending(data, len, 0, None));
    }

    // conn_close: two handles, the stream and the timer
    method Close()
      requires rdstate != Dead && wrstate != Dead
      modifies `rdstate, `wrstate, `reading, `closing, `open
      ensures rdstate == Dead && wrstate == Dead && !reading && closing == 2 && !open
    {
      rdstate, wrstate := Dead, Dead;
      reading, closing, open := false, 2, false;
    }

    // A write has succeeded or failed, and its callback has not run.
    predicate Finished()
      reads `write
    {
      write.Some? && write.value.status.Some?
    }

    // What the callback of the pending write is given: closing the stream cancels
    // a write that is still queued, and no other.
    function Status(): int
      reads `write
      requires write.Some?
    {
      if Finished() then write.value.status.value else UV_ECANCELED
    }

    // write(2) never fails with ECANCELED.
    ghost predicate Reportable()
      reads `write
    {
      Finished() ==> Status() <= 0 && Status() != UV_ECANCELED
    }

    ghost predicate Live()
      reads this
    {
      open && closing == 0 && result >= 0 && (reading <==> rdstate == Busy) && buf.Length == BUFSIZE && Reportable()
    }

    ghost predicate Closed()
      reads this
    {
      rdstate == Dead && wrstate == Dead && !open && !reading && 0 <= closing <= 2 && Reportable()
    }
  }

  lemma Leaves(received: seq<byte>, sent: seq<byte>, s: seq<byte>, i: int, j: int, k: int)
    requires 0 <= i <= j <= k <= |s| && received == sent + s[i..k]
    ensures received == (sent + s[i..j]) + s[j..k]
  {}

  // One direction, from x to y. Between callbacks it reads or it writes;
  // within one, data may have arrived or have been written.
  datatype Turn = Reads | Arrived | Writes | Written

  ghost predicate Flow(x: Conn, y: Conn, t: Turn)
    reads x`rdstate, x`result, x`received, x.buf, y`wrstate, y`result, y`write, y`sent
  {
    match t
    case Reads => Reading(x, y)
    case Arrived =>
      && x.rdstate == Done && y.wrstate == Stop && y.write == None && y.sent <= x.received
      && (x.result >= 0 ==> x.result <= x.buf.Length && x.received == y.sent + x.buf[..x.result])
    case Writes => Writing(x, y)
    case Written =>
      && x.rdstate == Stop && y.wrstate == Done && y.write == None && y.sent <= x.received
      && (y.result >= 0 ==> x.received == y.sent)
  }

  ghost predicate Reading(x: Conn, y: Conn)
    reads x`rdstate, x`received, y`wrstate, y`write, y`sent
  {
    x.rdstate == Busy && y.wrstate == Stop && y.write == None && x.received == y.sent
  }

  ghost predicate Writing(x: Conn, y: Conn)
    reads x`rdstate, x`received, x.buf, y`wrstate, y`write, y`sent
  {
    && x.rdstate == Stop && y.wrstate == Busy
    && y.write.Some? && y.write.value.src == x.buf && 0 <= y.write.value.sent <= y.write.value.len <= x.buf.Length
    && x.received == y.sent + x.buf[y.write.value.sent..y.write.value.len]
    && (y.write.value.status == Some(0) ==> y.write.value.sent == y.write.value.len)
  }

  lemma Idle(x: Conn, y: Conn)
    requires Steady(x, y) && (x.reading <==> x.rdstate == Busy)
    ensures x.reading <==> y.write == None
  {}

  lemma FlowPrefix(x: Conn, y: Conn, t: Turn)
    requires Flow(x, y, t)
    ensures y.sent <= x.received && x.rdstate != Dead && y.wrstate != Dead
  {}

  // Which of the four a direction is in.
  ghost function TurnOf(x: Conn, y: Conn): Turn
    reads x`rdstate, y`wrstate
  {
    if x.rdstate == Busy then Reads
    else if x.rdstate == Done then Arrived
    else if y.wrstate == Busy then Writes
    else Written
  }

  // Between callbacks: (reader busy, writer stopped) or (reader stopped, writer busy).
  ghost predicate Steady(x: Conn, y: Conn)
    reads x`rdstate, x`received, x.buf, y`wrstate, y`write, y`sent
  {
    Reading(x, y) || Writing(x, y)
  }

  // How far the teardown is; negative before it.
  function Stage(s: SessState): int {
    match s
    case AlmostDead0 => 0
    case AlmostDead1 => 1
    case AlmostDead2 => 2
    case AlmostDead3 => 3
    case AlmostDead4 => 4
    case SessDead => 5
    case _ => -1
  }

  class Client {
    var state: SessState
    const incoming: Conn
    const outgoing: Conn

    ghost predicate Apart()
      reads {}
    {
      incoming != outgoing && incoming.buf != outgoing.buf
    }

    ghost predicate Relaying()
      reads this, incoming, incoming.buf, outgoing, outgoing.buf
    {
      && state == Proxy && Apart() && incoming.Live() && outgoing.Live()
      && Steady(incoming, outgoing) && Steady(outgoing, incoming)
    }

    // What went out is a prefix of what came in.
    ghost predicate Prefixes()
      reads incoming, outgoing
    {
      outgoing.sent <= incoming.received && incoming.sent <= outgoing.received
    }

    // No byte has come or gone.
    ghost predicate Kept(inRead: seq<byte>, inSent: seq<byte>, outRead: seq<byte>, outSent: seq<byte>)
      reads incoming, outgoing
    {
      incoming.received == inRead && incoming.sent == inSent && outgoing.received == outRead && outgoing.sent == outSent
    }

    // Being torn down: the state counts the close callbacks that have come, from
    // s_almost_dead_1, or from s_almost_dead_0 if the kill came in s_req_lookup.
    ghost predicate Ending()
      reads this, incoming, outgoing
    {
      && Apart() && incoming.Closed() && outgoing.Closed() && Prefixes()
      && 4 <= Stage(state) + incoming.closing + outgoing.closing <= 5
    }

    // Neither connection has been closed.
    ghost predicate Alive()
      reads this, incoming, outgoing
    {
      && Stage(state) < 0 && Prefixes() && incoming.Reportable() && outgoing.Reportable()
      && incoming.rdstate != Dead && incoming.wrstate != Dead && outgoing.rdstate != Dead && outgoing.wrstate != Dead
    }

    // The session when the reply to the request has been written.
    constructor (writeResult: int)
      ensures state == ProxyStart && Apart() && fresh(incoming) && fresh(outgoing)
      ensures fresh(incoming.buf) && fresh(outgoing.buf) && Prefixes()
      ensures incoming.rdstate == Stop && incoming.wrstate == Done && incoming.result == writeResult
      ensures outgoing.rdstate == Stop && outgoing.wrstate == Stop && outgoing.result == 0
      ensures incoming.write == None && outgoing.write == None && incoming.open && outgoing.open
      ensures incoming.closing == outgoing.closing == 0 && !incoming.reading && !outgoing.reading
      ensures incoming.buf.Length == outgoing.buf.Length == BUFSIZE
      ensures incoming.received == outgoing.received == incoming.sent == outgoing.sent == []
    {
      state := ProxyStart;
      incoming := new Conn(Done, writeResult);
      outgoing := new Conn(Stop, 0);
    }

    // do_almost_dead: another finalizer has completed
    method AlmostDead() returns (s: SessState)
      requires 0 <= Stage(state) < 5
      ensures Stage(s) == Stage(state) + 1
    {
      s := match state
        case AlmostDead0 => AlmostDead1
        case AlmostDead1 => AlmostDead2
        case AlmostDead2 => AlmostDead3
        case AlmostDead3 => AlmostDead4
        case _ => SessDead;
    }

    // do_kill
    method DoKill() returns (newState: SessState)
      requires Apart() && (Alive() || Ending())
      modifies incoming`rdstate, incoming`wrstate, incoming`reading, incoming`closing, incoming`open
      modifies outgoing`rdstate, outgoing`wrstate, outgoing`reading, outgoing`closing, outgoing`open
      ensures incoming.Closed() && outgoing.Closed() && Prefixes()
      ensures old(Ending()) ==> newState == state && unchanged(incoming) && unchanged(outgoing)
      ensures old(Alive()) ==>
        && newState == (if state == ReqLookup then AlmostDead0 else AlmostDead1)
        && incoming.closing == outgoing.closing == 2
    {
      if Stage(state) >= 0 {
        return state;
      }
      newState := AlmostDead1;
      if state == ReqLookup {
        newState := AlmostDead0;
      }
      incoming.Close();
      outgoing.Close();
    }

    // do_req_connect_start when uv_tcp_connect returns an error
    method ConnectFailed()
      requires (state == ReqParse || state == ReqLookup) && Apart() && Alive()
      modifies this`state, incoming, outgoing
      ensures Ending() && state == if old(state) == ReqLookup then AlmostDead0 else AlmostDead1
      ensures incoming.write == old(incoming.write) && outgoing.write == old(outgoing.write)
      ensures incoming.closing == outgoing.closing == 2
    {
      state := DoKill();
    }

    // do_proxy_start
    method Start()
      requires state == ProxyStart && Apart() && Prefixes()
      requires incoming.rdstate == Stop && incoming.wrstate == Done
      requires outgoing.rdstate == Stop && outgoing.wrstate == Stop
      requires incoming.write == None && outgoing.write == None && incoming.open && outgoing.open
      requires incoming.closing == outgoing.closing == 0 && !incoming.reading && !outgoing.reading
      requires outgoing.result >= 0
      requires incoming.buf.Length == outgoing.buf.Length == BUFSIZE
      requires incoming.received == outgoing.received == incoming.sent == outgoing.sent == []
      modifies this, incoming, outgoing
      ensures if old(incoming.result) < 0 then Ending() && state == AlmostDead1
              else Relaying() && incoming.reading && outgoing.reading
      ensures incoming.write == outgoing.write == None
      ensures incoming.received == outgoing.received == []
      ensures old(incoming.result) < 0 ==> incoming.closing == outgoing.closing == 2
    {
      incoming.wrstate := Stop;
      if incoming.result < 0 {
        state := DoKill();
        return;
      }
      incoming.Read();
      outgoing.Read();
      state := Proxy;
    }

    // conn_cycle: a wants to write what b has read
    method Cycle(a: Conn, b: Conn, ghost t: Turn) returns (ok: bool)
      requires a != b && a.buf != b.buf && Flow(b, a, t)
      requires b.buf.Length == BUFSIZE && (b.reading <==> b.rdstate == Busy)
      modifies a`wrstate, a`write, b`rdstate, b`reading
      ensures ok <==> a.result >= 0 && b.result >= 0
      ensures ok ==> Steady(b, a) && (b.reading <==> b.rdstate == Busy)
      ensures a.Reportable() || !old(a.Reportable())
      ensures t == Reads ==> b.reading
      ensures ok ==> a.write == Handed(old(a.write), b, old(b.rdstate))
      ensures !ok ==> a.wrstate == old(a.wrstate) && a.write == old(a.write)
      ensures !ok ==> b.rdstate == old(b.rdstate) && b.reading == old(b.reading)
    {
      if a.result < 0 {
        return false;
      }
      if b.result < 0 {
        return false;
      }
      if a.wrstate == Done {
        a.wrstate := Stop;
      }
      if a.wrstate == Stop {
        if b.rdstate == Stop {
          b.Read();
        } else if b.rdstate == Done {
          a.Write(b.buf, b.result);
          b.rdstate := Stop;
          assert b.buf[..b.result] == b.buf[0..b.result];
        }
      }
      ok := true;
    }

    // The write to one side once the other side, c, has been looked at.
    function Handed(w: Option<Pending>, c: Conn, was: ConnState): Option<Pending>
      reads c`result
    {
      if was == Done then Some(Pending(c.buf, c.result, 0, None)) else w
    }

    // do_next in s_proxy: do_proxy
    method Next(ghost t: Turn, ghost u: Turn)
      requires state == Proxy && Apart() && Flow(outgoing, incoming, t) && Flow(incoming, outgoing, u)
      requires incoming.buf.Length == outgoing.buf.Length == BUFSIZE
      requires incoming.open && outgoing.open && incoming.closing == outgoing.closing == 0
      requires incoming.Reportable() && outgoing.Reportable()
      requires (incoming.reading <==> incoming.rdstate == Busy) && (outgoing.reading <==> outgoing.rdstate == Busy)
      modifies this`state, incoming, outgoing
      ensures Kept(old(incoming.received), old(incoming.sent), old(outgoing.received), old(outgoing.sent))
      ensures incoming.result == old(incoming.result) && outgoing.result == old(outgoing.result)
      ensures if incoming.result >= 0 && outgoing.result >= 0 then
        && Relaying() && (t == Reads ==> outgoing.reading) && (u == Reads ==> incoming.reading)
        && incoming.write == Handed(old(incoming.write), outgoing, old(outgoing.rdstate))
        && outgoing.write == Handed(old(outgoing.write), incoming, old(incoming.rdstate))
      else
        && Ending() && state == AlmostDead1 && incoming.closing == outgoing.closing == 2
        && incoming.write == old(incoming.write) && outgoing.write == old(outgoing.write)
    {
      hide Flow, Steady, Handed, Conn.Reportable;
      FlowPrefix(outgoing, incoming, t);
      FlowPrefix(incoming, outgoing, u);
      var ok := Cycle(incoming, outgoing, t);
      if !ok {
        assert Alive();
        state := DoKill();
        return;
      }
      // The second do_kill is never reached: both results have been looked at.
      ok := Cycle(outgoing, incoming, u);
      assert ok;
      state := Proxy;
    }

    function Other(c: Conn): Conn { if c == incoming then outgoing else incoming }

    // conn_read_done: data has been stored in the buffer, or nread is an error.
    method ReadDone(c: Conn, nread: int, data: seq<byte>)
      requires Relaying() && (c == incoming || c == outgoing) && c.reading
      requires nread >= 0 ==> nread == |data| <= BUFSIZE
      modifies this`state, incoming, outgoing, c.buf
      ensures nread >= 0 ==> Relaying() && c.received == old(c.received) + data
      ensures nread >= 0 ==> Other(c).received == old(Other(c).received)
      ensures nread >= 0 && old(Other(c).reading) ==> Other(c).reading
      ensures nread >= 0 ==> Other(c).write == Some(Pending(c.buf, nread, 0, None)) && c.write == old(c.write)
      ensures nread < 0 ==> Ending() && state == AlmostDead1 && incoming.closing == outgoing.closing == 2
      ensures nread < 0 ==> c.received == old(c.received) && Other(c).received == old(Other(c).received)
      ensures nread < 0 ==> incoming.write == old(incoming.write) && outgoing.write == old(outgoing.write)
      ensures incoming.sent == old(incoming.sent) && outgoing.sent == old(outgoing.sent)
    {
      if nread >= 0 {
        Store(c.buf, data);
        c.received := c.received + data;
      }
      c.rdstate := Done;
      c.result := nread;
      c.reading := false;
      Next(TurnOf(outgoing, incoming), TurnOf(incoming, outgoing));
    }

    // conn_timer_expire
    method TimerExpire(c: Conn)
      requires Relaying() && (c == incoming || c == outgoing)
      modifies this`state, incoming, outgoing
      ensures Ending() && state == AlmostDead1 && incoming.closing == outgoing.closing == 2
      ensures Kept(old(incoming.received), old(incoming.sent), old(outgoing.received), old(outgoing.sent))
      ensures incoming.write == old(incoming.write) && outgoing.write == old(outgoing.write)
    {
      c.result := UV_ETIMEDOUT;
      Next(TurnOf(outgoing, incoming), TurnOf(incoming, outgoing));
    }

    // Some of a queued write leaves, straight from the buffer it points to. The
    // request is completed with the last byte.
    method Transmit(c: Conn, n: int)
      requires Relaying() && (c == incoming || c == outgoing) && c.write.Some? && !c.Finished()
      requires 0 <= n <= c.write.value.len - c.write.value.sent
      modifies c`write, c`sent
      ensures Relaying() && old(c.sent) <= c.sent <= Other(c).received && |c.sent| == old(|c.sent|) + n
      ensures c.write.Some? && (c.Finished() <==> n == old(c.write.value.len - c.write.value.sent))
      ensures c.Finished() ==> c.Status() == 0 && c.sent == Other(c).received
      ensures c.write.value.len == old(c.write.value.len) && c.write.value.sent == old(c.write.value.sent) + n
    {
      ghost var x, w := Other(c), c.write.value;
      Leaves(x.received, c.sent, x.buf[..], w.sent, w.sent + n, w.len);
      var sent := c.write.value.sent + n;
      c.sent := c.sent + w.src[w.sent..w.sent + n];
      c.write := Some(c.write.value.(sent := sent, status := if sent == c.write.value.len then Some(0) else None));
      assert Writing(x, c);
    }

    // A queued write fails: the request is completed with the error.
    method FailWrite(c: Conn, err: int)
      requires Relaying() && (c == incoming || c == outgoing) && c.write.Some? && !c.Finished()
      requires err < 0 && err != UV_ECANCELED
      modifies c`write
      ensures Relaying() && c.Finished() && c.Status() == err
      ensures c.write.value.len == old(c.write.value.len) && c.write.value.sent == old(c.write.value.sent)
    {
      assert Writing(Other(c), c);
      c.write := Some(c.write.value.(status := Some(err)));
      assert Writing(Other(c), c);
    }

    // conn_write_done; false means that its assertion fails.
    method WriteDone(c: Conn, status: int) returns (ok: bool)
      requires Relaying() || Ending()
      requires (c == incoming || c == outgoing) && c.write.Some? && status == c.Status() && (c.open ==> c.Finished())
      modifies this`state, incoming, outgoing
      ensures Kept(old(incoming.received), old(incoming.sent), old(outgoing.received), old(outgoing.sent))
      ensures old(Relaying()) ==> ok && if status == 0 then Relaying() else Ending() && state == AlmostDead1
      ensures old(Relaying()) && status != 0 ==> incoming.closing == outgoing.closing == 2
      ensures old(Relaying()) ==> c.write == None && Other(c).write == old(Other(c).write)
      ensures old(Ending()) ==> (ok <==> !old(c.Finished()))
      ensures old(Ending()) && ok ==>
        && Ending() && state == old(state) && c.write == None && Other(c).write == old(Other(c).write)
        && incoming.closing == old(incoming.closing) && outgoing.closing == old(outgoing.closing)
    {
      c.write := None;
      if status == UV_ECANCELED {
        return true;
      }
      if c.wrstate != Busy {
        return false;
      }
      c.wrstate := Done;
      c.result := status;
      Next(TurnOf(outgoing, incoming), TurnOf(incoming, outgoing));
      ok := true;
    }

    function Side(client: bool): Conn { if client then incoming else outgoing }

    // The session is as the outline says.
    ghost predicate Shows(m: Outline)
      reads this, incoming, outgoing
    {
      && HalfShows(m.up, incoming, outgoing) && HalfShows(m.down, outgoing, incoming)
      && (m.alive <==> state == Proxy)
    }

    ghost predicate HalfShows(h: Half, x: Conn, y: Conn)
      reads x`received, y`write
    {
      && x.received == h.got && (h.left.Some? <==> y.write.Some?)
      && (y.write.Some? ==> h.status == y.write.value.status && h.left.value == y.write.value.len - y.write.value.sent)
      && (y.write.None? ==> h.status == None)
    }

    // What the loop and the kernel may do next while the session relays.
    predicate Enabled(e: Event)
      reads this, incoming, outgoing
    {
      var c := Side(e.client);
      match e
      case Read(_, data) => c.reading && |data| <= BUFSIZE
      case ReadError(_, err) => c.reading && err < 0
      case Timeout(_) => true
      case Out(_, n) => c.write.Some? && !c.Finished() && n <= c.write.value.len - c.write.value.sent
      case OutFails(_, err) => c.write.Some? && !c.Finished() && err < 0 && err != UV_ECANCELED
      case Reported(_) => c.Finished()
    }

    lemma Begins(alive: bool)
      requires incoming.received == outgoing.received == [] && incoming.write == outgoing.write == None
      requires alive <==> state == Proxy
      ensures Shows(Started(alive))
    {}

    lemma AtEnd(m: Outline)
      requires Shows(m)
      ensures incoming.received == m.up.got && outgoing.received == m.down.got
      ensures (m.up.status.None? <==> !outgoing.Finished()) && (m.down.status.None? <==> !incoming.Finished())
    {}

    lemma PassedOver(m: Outline, e: Event)
      requires Shows(m) && (state == Proxy ==> Relaying() && !Enabled(e))
      ensures Step(m, e) == m
    {
      hide Steady;
      if state == Proxy {
        Idle(incoming, outgoing);
        Idle(outgoing, incoming);
      }
    }

    method Do(e: Event, ghost m: Outline)
      requires Relaying() && Enabled(e)
      modifies this`state, incoming, incoming.buf, outgoing, outgoing.buf
      ensures Relaying() || (Ending() && state == AlmostDead1 && incoming.closing == outgoing.closing == 2)
      ensures e.Timeout? || e.ReadError? ==> Ending()
      ensures Side(e.client).received == old(Side(e.client).received) + (if e.Read? then e.data else [])
      ensures Side(!e.client).received == old(Side(!e.client).received)
      ensures !e.Out? && !e.OutFails? && !old(incoming.Finished()) && !old(outgoing.Finished()) ==>
        !incoming.Finished() && !outgoing.Finished()
      ensures old(Shows(m)) ==> Shows(Step(m, e))
    {
      hide Steady;
      Idle(incoming, outgoing);
      Idle(outgoing, incoming);
      var c := Side(e.client);
      match e {
        case Read(_, data) => ReadDone(c, |data|, data);
        case ReadError(_, err) => ReadDone(c, err, []);
        case Timeout(_) => TimerExpire(c);
        case Out(_, n) => Transmit(c, n);
        case OutFails(_, err) => FailWrite(c, err);
        case Reported(_) => var _ := WriteDone(c, c.Status());
      }
    }

    // conn_close_done
    method CloseDone(c: Conn)
      requires Ending() && (c == incoming || c == outgoing) && c.closing > 0
      modifies this`state, c`closing
      ensures Ending() && c.closing == old(c.closing) - 1
      ensures Stage(state) == old(Stage(state)) + 1
    {
      c.closing := c.closing - 1;
      state := AlmostDead();
    }

    // Every order of the callbacks that follow a kill; a connection's pending
    // write is reported before its last handle is closed. finalizers counts the
    // close callbacks. All four come, unless a write had succeeded or failed and
    // its callback had not run when the session was killed: then the assertion of
    // that callback fails. The fourth makes the session dead, except after a kill
    // in s_req_lookup, which leaves it one stage short for good.
    method TearDown() returns (ok: bool, finalizers: int)
      requires Ending() && incoming.closing == outgoing.closing == 2
      modifies this, incoming, outgoing
      ensures ok <==> !old(incoming.Finished()) && !old(outgoing.Finished())
      ensures ok ==> finalizers == 4 && Prefixes()
      ensures ok ==> state == if old(state) == AlmostDead0 then AlmostDead4 else SessDead
      ensures !ok ==> finalizers < 4
      ensures Kept(old(incoming.received), old(incoming.sent), old(outgoing.received), old(outgoing.sent))
    {
      finalizers := 0;
      while incoming.closing + outgoing.closing > 0
        invariant Ending() && finalizers == 4 - incoming.closing - outgoing.closing == Stage(state) - old(Stage(state))
        invariant Kept(old(incoming.received), old(incoming.sent), old(outgoing.received), old(outgoing.sent))
        invariant incoming.closing == 0 ==> incoming.write == None
        invariant outgoing.closing == 0 ==> outgoing.write == None
        invariant incoming.write == old(incoming.write) || (incoming.write == None && !old(incoming.Finished()))
        invariant outgoing.write == old(outgoing.write) || (outgoing.write == None && !old(outgoing.Finished()))
        decreases incoming.closing + outgoing.closing, incoming.write.Some?, outgoing.write.Some?
      {
        var pick: bool := *;
        var c := if (pick && incoming.closing > 0) || outgoing.closing == 0 then incoming else outgoing;
        var report: bool := *;
        if c.write.Some? && (report || c.closing == 1) {
          var done := WriteDone(c, c.Status());
          if !done {
            return false, finalizers;
          }
        } else {
          CloseDone(c);
          finalizers := finalizers + 1;
        }
      }
      ok := true;
    }
  }

  // What happens to a session that relays, on the client's connection or on the
  // upstream's.
  datatype Event =
    | Read(client: bool, data: seq<byte>)
    | ReadError(client: bool, err: int)
    | Timeout(client: bool)
    | Out(client: bool, n: nat)
    | OutFails(client: bool, err: int)
    | Reported(client: bool)

  // One direction as seen from outside: what its source has sent, how much of
  // the last read is still to leave, None between writes, and the status of the
  // write once it is completed.
  datatype Half = Half(got: seq<byte>, left: Option<nat>, status: Option<int>)

  datatype Outline = Outline(alive: bool, up: Half, down: Half)

  function Started(alive: bool): Outline { Outline(alive, Half([], None, None), Half([], None, None)) }

  // The half that the reads of one side feed.
  function From(m: Outline, client: bool): Half { if client then m.up else m.down }

  function Put(m: Outline, client: bool, h: Half): Outline { if client then m.(up := h) else m.(down := h) }

  // What an event does to a session, if it can happen then: a side is read from
  // while nothing of its last read is held, and a write that is completed waits
  // for its callback.
  function Step(m: Outline, e: Event): Outline {
    var h, w := From(m, e.client), From(m, !e.client);
    if !m.alive then m
    else match e
      case Read(c, data) =>
        if h.left.None? && |data| <= BUFSIZE then Put(m, c, Half(h.got + data, Some(|data|), None)) else m
      case ReadError(_, err) => if h.left.None? && err < 0 then m.(alive := false) else m
      case Timeout(_) => m.(alive := false)
      case Out(c, n) =>
        if w.left.Some? && w.status.None? && n <= w.left.value then
          Put(m, !c, w.(left := Some(w.left.value - n), status := if n == w.left.value then Some(0) else None))
        else m
      case OutFails(c, err) =>
        if w.left.Some? && w.status.None? && err < 0 && err != UV_ECANCELED then Put(m, !c, w.(status := Some(err)))
        else m
      case Reported(c) =>
        if w.left.Some? && w.status.Some? then
          Put(m.(alive := w.status == Some(0)), !c, w.(left := None, status := None))
        else m
  }

  function Steps(m: Outline, events: seq<Event>): Outline {
    if events == [] then m else Step(Steps(m, events[..|events| - 1]), events[|events| - 1])
  }

  datatype Fate = Waits | Succeeds | Fails(error: int)

  // A session in which the client has sent a byte and the upstream then ends the
  // connection, with what became of the write to the upstream in between. Both
  // ways of completing it make the assertion fail.
  method EndOfUpstream(b: byte, fate: Fate) returns (ok: bool)
    requires fate.Fails? ==> fate.error < 0 && fate.error != UV_ECANCELED
    ensures ok <==> fate == Waits
  {
    var cx := new Client(0);
    cx.Start();
    cx.ReadDone(cx.incoming, 1, [b]);
    match fate {
      case Waits =>
      case Succeeds => cx.Transmit(cx.outgoing, 1);
      case Fails(error) => cx.FailWrite(cx.outgoing, error);
    }
    cx.ReadDone(cx.outgoing, UV_EOF, []);
    var finalizers;
    ok, finalizers := cx.TearDown();
  }

  // A session whose connect fails at once after a name lookup: all callbacks
  // come, and it is not dead.
  method ConnectAfterLookup() returns (ok: bool, finalizers: int, state: SessState)
    ensures ok && finalizers == 4 && state == AlmostDead4
  {
    var cx := new Client(0);
    cx.incoming.wrstate := Stop;
    cx.state := ReqLookup;
    cx.ConnectFailed();
    ok, finalizers := cx.TearDown();
    state := cx.state;
  }

  // What a direction has still to pass on.
  ghost function Pipe(x: Conn, y: Conn): seq<byte>
    requires Steady(x, y)
    reads x`rdstate, x`received, x.buf, y`wrstate, y`write, y`sent
  {
    if y.write.None? then [] else x.buf[y.write.value.sent..y.write.value.len]
  }

  // Any session, through any events; one that cannot happen when its turn comes
  // is passed over. While the session lives, what each side has sent is what the
  // other has got and what is in the one write to it. It dies after all close
  // callbacks, or with the assertion of a write callback; in any case each
  // side has got a prefix of what the other has sent.
  method Session(replied: int, events: seq<Event>) returns (cx: Client, alive: bool, ok: bool, finalizers: int)
    ensures cx.outgoing.sent <= cx.incoming.received && cx.incoming.sent <= cx.outgoing.received
    ensures alive ==>
      && cx.Relaying()
      && cx.incoming.received == cx.outgoing.sent + Pipe(cx.incoming, cx.outgoing)
      && cx.outgoing.received == cx.incoming.sent + Pipe(cx.outgoing, cx.incoming)
    ensures !alive && ok ==> finalizers == 4 && cx.state == SessDead
    ensures var m := Steps(Started(replied >= 0), events);
      && (alive <==> m.alive) && cx.incoming.received == m.up.got && cx.outgoing.received == m.down.got
      && (alive ==> cx.Shows(m))
      && (!alive ==> (ok <==> m.up.status.None? && m.down.status.None?))
    ensures (forall e :: e in events ==> !e.Out? && !e.OutFails?) ==> ok
  {
    hide Step, Client.HalfShows, Client.Enabled;
    cx := new Client(replied);
    cx.Start();
    ok, finalizers := true, 0;
    cx.Begins(replied >= 0);
    var i := 0;
    while i < |events|
      invariant fresh(cx) && fresh(cx.incoming) && fresh(cx.outgoing)
      invariant fresh(cx.incoming.buf) && fresh(cx.outgoing.buf)
      invariant cx.Relaying() ||
        (cx.Ending() && cx.state == AlmostDead1 && cx.incoming.closing == cx.outgoing.closing == 2)
      invariant (forall e :: e in events ==> !e.Out? && !e.OutFails?) ==>
        !cx.incoming.Finished() && !cx.outgoing.Finished()
      invariant 0 <= i <= |events| && cx.Shows(Steps(Started(replied >= 0), events[..i]))
      decreases |events| - i
    {
      assert events[..i + 1][..i] == events[..i];
      if cx.state == Proxy && cx.Enabled(events[i]) {
        cx.Do(events[i], Steps(Started(replied >= 0), events[..i]));
      } else {
        cx.PassedOver(Steps(Started(replied >= 0), events[..i]), events[i]);
      }
      i := i + 1;
    }
    assert events[..i] == events;
    cx.AtEnd(Steps(Started(replied >= 0), events));
    alive := cx.state == Proxy;
    if !alive {
      ok, finalizers := cx.TearDown();
    }
  }

  // The kernel stores what it has read.
  method Store(a: array<byte>, data: seq<byte>)
    requires |data| <= a.Length
    modifies a
    ensures a[..|data|] == data
  {
    for i := 0 to |data|
      invariant a[..i] == data[..i]
    {
      a[i] := data[i];
    }
  }
}
