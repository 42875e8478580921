// UVMsgFraming.cpp: length-prefixed messages over a byte stream.
module MsgFraming {
  import opened Sequences

  const INT_MAX := 0x7FFF_FFFF

  // htonl
  function Be32(n: int): (b: seq<byte>)
    requires 0 <= n < 0x1_0000_0000
    ensures |b| == 4
  {
    [n / 0x100_0000, n / 0x1_0000 % 256, n / 256 % 256, n % 256]
  }

  lemma Weights(n: int)
    requires 0 <= n < 0x1_0000_0000
    ensures var b := Be32(n);
      n == 0x100_0000 * (b[0] as int) + 0x1_0000 * (b[1] as int) + 0x100 * (b[2] as int) + b[3] as int
  {
    assert n / 0x1_0000 == n / 0x100_0000 * 256 + n / 0x1_0000 % 256;
    assert n / 0x100 == n / 0x1_0000 * 256 + n / 0x100 % 256;
  }

  // ntohl, stored into an int
  function Header(b: seq<byte>): int
    requires |b| >= 4
  {
    var u := ((b[0] as int * 256 + b[1]) * 256 + b[2]) * 256 + b[3];
    if u > INT_MAX then u - 0x1_0000_0000 else u
  }

  lemma HeaderInverse(n: int, rest: seq<byte>)
    requires 0 <= n <= INT_MAX
    ensures Header(Be32(n) + rest) == n
  {
    var b := Be32(n) + rest;
    assert b[0] == n / 0x100_0000 && b[1] == n / 0x1_0000 % 256 && b[2] == n / 256 % 256 && b[3] == n % 256;
  }

  // The header of the stream is its first four bytes, the first weighing most; a
  // first byte from 128 on makes it negative.
  lemma HeaderOrder(b: seq<byte>)
    requires |b| >= 4
    ensures var u := 0x100_0000 * (b[0] as int) + 0x1_0000 * (b[1] as int) + 0x100 * (b[2] as int) + b[3] as int;
      Header(b) == if b[0] < 128 then u else u - 0x1_0000_0000
  {}

  predicate Sendable(m: seq<byte>) { |m| <= INT_MAX - 4 }

  function Frame(m: seq<byte>): seq<byte>
    requires Sendable(m)
  {
    Be32(|m|) + m
  }

  // What a sequence of messages looks like on the stream.
  function Wire(msgs: seq<seq<byte>>): seq<byte>
    requires forall m :: m in msgs ==> Sendable(m)
  {
    if msgs == [] then [] else Frame(msgs[0]) + Wire(msgs[1..])
  }

  // The complete messages at the front of a stream, and what is left.
  function Parse(s: seq<byte>): (r: (seq<seq<byte>>, seq<byte>)) {
    if |s| < 4 || Header(s) < 0 || |s| < Header(s) + 4 then ([], s)
    else
      var n := Header(s) + 4;
      var r := Parse(s[n..]);
      ([s[4..n]] + r.0, r.1)
  }

  lemma ParseStep(s: seq<byte>)
    ensures |s| < 4 ==> Parse(s) == ([], s)
    ensures |s| >= 4 ==> Header(s) == Header(s[..4])
    ensures |s| >= 4 && |s| < Header(s) + 4 ==> Parse(s) == ([], s)
    ensures |s| >= 4 && |s| >= Header(s) + 4 >= 4 ==>
      var r := Parse(s[Header(s) + 4..]); Parse(s) == ([s[4..Header(s) + 4]] + r.0, r.1)
  {}

  // One turn of the delivery loop, at position k of the stream s.
  lemma StepAt(s: seq<byte>, k: nat)
    requires k <= |s| && Sane(s[k..])
    ensures |s| - k < 4 ==> Parse(s[k..]) == ([], s[k..])
    ensures |s| - k >= 4 ==>
      && var e := Header(s[k..k + 4]) + 4;
      && 4 <= e <= INT_MAX
      && (|s| - k < e ==> Parse(s[k..]) == ([], s[k..]))
      && (|s| - k >= e ==>
        && Sane(s[k + e..])
        && Parse(s[k..]) == ([s[k + 4..k + e]] + Parse(s[k + e..]).0, Parse(s[k + e..]).1))
  {
    hide Header, Parse;
    var t := s[k..];
    ParseStep(t);
    if |t| >= 4 {
      assert t[..4] == s[k..k + 4];
      var e := Header(t) + 4;
      if |t| >= e {
        assert t[e..] == s[k + e..] && t[4..e] == s[k + 4..k + e];
      }
    }
  }

  // Every header in front of the stream is a size the receiver can add 4 to.
  predicate Sane(s: seq<byte>) {
    |s| >= 4 ==> 0 <= Header(s) <= INT_MAX - 4 && (|s| >= Header(s) + 4 ==> Sane(s[Header(s) + 4..]))
  }

  lemma HeaderPrefix(a: seq<byte>, b: seq<byte>)
    requires |a| >= 4
    ensures Header(a + b) == Header(a)
  {}

  // Parsing does not depend on how the stream is cut up.
  lemma {:induction false} ParseAppend(a: seq<byte>, b: seq<byte>)
    ensures Parse(a + b) == (Parse(a).0 + Parse(Parse(a).1 + b).0, Parse(Parse(a).1 + b).1)
  {
    hide Header;
    if |a| < 4 || Header(a) < 0 || |a| < Header(a) + 4 {
      assert [] + Parse(a + b).0 == Parse(a + b).0;
    } else {
      var n := Header(a) + 4;
      HeaderPrefix(a, b);
      assert (a + b)[n..] == a[n..] + b && (a + b)[4..n] == a[4..n];
      ParseAppend(a[n..], b);
      var x, y, z := [a[4..n]], Parse(a[n..]).0, Parse(Parse(a).1 + b).0;
      assert x + (y + z) == (x + y) + z;
    }
  }

  lemma {:induction false} ParseWire(msgs: seq<seq<byte>>)
    requires forall m :: m in msgs ==> Sendable(m)
    ensures Parse(Wire(msgs)) == (msgs, []) && Sane(Wire(msgs))
  {
    if msgs != [] {
      var m, w := msgs[0], Wire(msgs[1..]);
      assert m in msgs;
      HeaderInverse(|m|, m + w);
      assert Wire(msgs) == Be32(|m|) + (m + w);
      assert Wire(msgs)[|m| + 4..] == w && Wire(msgs)[4..|m| + 4] == m;
      ParseWire(msgs[1..]);
      assert msgs == [m] + msgs[1..];
    }
  }

  // Any prefix of a sane stream is sane, and what is left of it stays so.
  lemma {:induction false} SanePrefix(a: seq<byte>, b: seq<byte>)
    requires Sane(a + b)
    ensures Sane(a) && Sane(Parse(a).1 + b)
  {
    if |a| >= 4 {
      assert Header(a + b) == Header(a);
      var n := Header(a) + 4;
      if |a| >= n {
        assert (a + b)[n..] == a[n..] + b;
        SanePrefix(a[n..], b);
      }
    }
  }

  // A prefix of the stream delivers a prefix of the messages.
  lemma Delivered(msgs: seq<seq<byte>>, a: seq<byte>, b: seq<byte>)
    requires (forall m :: m in msgs ==> Sendable(m)) && a + b == Wire(msgs)
    ensures Parse(a).0 <= msgs && (b == [] ==> Parse(a) == (msgs, []))
  {
    ParseWire(msgs);
    ParseAppend(a, b);
    assert b == [] ==> a + b == a;
  }

  lemma {:induction false} RestIsPartial(s: seq<byte>)
    requires Sane(s)
    ensures Partial(Parse(s).1)
  {
    if |s| >= 4 && |s| >= Header(s) + 4 {
      RestIsPartial(s[Header(s) + 4..]);
    }
  }

  // No complete message, and a usable header if there is one.
  predicate Partial(s: seq<byte>) {
    |s| >= 4 ==> 0 <= Header(s) <= INT_MAX - 4 && |s| < Header(s) + 4
  }

  // uv_msg_send: UV_EINVAL, or the two buffers handed to uv_write.
  datatype Sent = EInval | Buffers(header: seq<byte>, body: seq<byte>)

  method MsgSend(msg: seq<byte>) returns (r: Sent)
    requires |msg| <= INT_MAX
    ensures r.EInval? <==> msg == []
    ensures r.Buffers? ==> r.header == Be32(|msg|) && r.body == msg
    ensures r.Buffers? ==>
      && |r.header| == 4 && var b := r.header;
      |msg| == 0x100_0000 * (b[0] as int) + 0x1_0000 * (b[1] as int) + 0x100 * (b[2] as int) + b[3] as int
    ensures r.Buffers? && Sendable(msg) ==> r.header + r.body == Frame(msg)
  {
    hide Be32;
    if |msg| <= 0 {
      return EInval;
    }
    Weights(|msg|);
    r := Buffers(Be32(|msg|), msg);
  }

  // The receiving half of uv_msg_t; delivered and errors log the msg_read_cb calls.
  class UvMsg {
    var buf: array?<byte>
    var allocSize: int
    var filled: int
    var delivered: seq<seq<byte>>
    var errors: seq<int>
    ghost var refused: bool   // alloc_cb has given nothing or less than it was asked for
    ghost var asked: seq<int> // the sizes alloc_cb has been asked for

    ghost predicate Valid()
      reads this, buf
    {
      && (buf == null ==> filled == 0)
      && (buf != null ==> 0 <= filled <= allocSize == buf.Length)
      && Partial(Pending())
    }

    // The bytes received and not yet delivered.
    ghost function Pending(): seq<byte>
      reads this, buf
    {
      if buf == null || !(0 <= filled <= buf.Length) then [] else buf[..filled]
    }

    // uv_msg_init
    constructor ()
      ensures Valid() && Pending() == [] && delivered == [] && errors == [] && buf == null && !refused && asked == []
    {
      buf, allocSize, filled, delivered, errors, refused, asked := null, 0, 0, [], [], false, [];
    }

    // alloc_cb, a callback of the user: nothing, or a buffer of any size.
    method AllocCb(suggested: int) returns (base: array?<byte>)
      modifies `refused, `asked
      ensures base != null ==> fresh(base)
      ensures asked == old(asked) + [suggested]
      ensures refused == (old(refused) || base == null || base.Length < suggested)
    {
      var n: nat :| true;
      if n == 0 {
        base := null;
      } else {
        base := new byte[n - 1](_ => 0);
      }
      refused := refused || base == null || base.Length < suggested;
      asked := asked + [suggested];
    }

    // uv_stream_msg_realloc
    method Realloc(suggested: int) returns (ok: bool)
      requires buf != null && 0 <= filled <= allocSize == buf.Length && filled <= suggested
      modifies this`buf, this`allocSize, this`refused, this`asked
      ensures buf != null && allocSize == buf.Length && filled <= allocSize && asked == old(asked) + [suggested]
      ensures refused == (old(refused) || !ok)
      ensures buf[..filled] == old(buf[..filled])
      ensures ok ==> allocSize >= suggested && fresh(buf)
      ensures !ok ==> buf == old(buf)
    {
      var base := AllocCb(suggested);
      if base == null || base.Length < suggested {
        return false;
      }
      for i := 0 to filled
        invariant buf == old(buf) && refused == old(refused) && asked == old(asked) + [suggested]
        invariant base[..i] == buf[..i] && buf[..] == old(buf[..])
      {
        base[i] := buf[i];
      }
      buf := base;
      allocSize := base.Length;
      ok := true;
    }

    // uv_stream_msg_alloc: the window offered to the next read, or none.
    method Alloc() returns (ok: bool, offset: int, len: int)
      requires Valid()
      modifies this`buf, this`allocSize, this`refused, this`asked
      ensures Valid() && Pending() == old(Pending()) && (old(refused) || !ok ==> refused)
      ensures old(buf) == null ==>
        asked == old(asked) + [64 * 1024] || asked == old(asked) + [64 * 1024] + [64 * 1024]
      ensures old(buf) != null && filled < 4 ==> asked == old(asked) + if old(allocSize) < 4 then [64 * 1024] else []
      ensures old(buf) != null && filled >= 4 ==>
        var entire := Header(Pending()) + 4; asked == old(asked) + if old(allocSize) < entire then [entire] else []
      ensures ok ==> buf != null && offset == filled && len >= 1 && offset + len <= buf.Length
      ensures ok && filled >= 4 ==> filled + len == Header(Pending()) + 4
      ensures buf == old(buf) || fresh(buf)
    {
      ok, offset, len := false, 0, 0;
      if buf == null {
        var base := AllocCb(64 * 1024);
        buf := base;
        if buf == null {
          return;
        }
        allocSize := base.Length;
      }
      if filled >= 4 {
        var entire := Header(buf[..4]) + 4;
        assert Header(Pending()) == Header(buf[..4]);
        if allocSize < entire {
          var done := Realloc(entire);
          if !done {
            return;
          }
        }
        len := entire - filled;
      } else {
        if allocSize < 4 {
          var done := Realloc(64 * 1024);
          if !done {
            return;
          }
        }
        len := allocSize - filled;
      }
      ok, offset := true, filled;
    }

    // The loop of uv_stream_msg_read: every complete message is passed to
    // msg_read_cb; ptr is where the remaining filled bytes start, unless none remain.
    method Deliver() returns (ptr: int)
      requires buf != null && 0 <= filled <= buf.Length && Sane(buf[..filled])
      modifies this`filled, this`delivered
      ensures delivered == old(delivered) + Parse(old(buf[..filled])).0 && 0 <= filled <= old(filled)
      ensures filled == 0 ==> Parse(old(buf[..filled])).1 == []
      ensures filled > 0 ==>
        ptr == old(filled) - filled && buf[ptr..ptr + filled] == Parse(old(buf[..filled])).1
    {
      hide Parse, Sane, Header;
      ptr := 0;
      ghost var s, k := buf[..filled], 0;
      assert s[0..] == s;
      while filled >= 4
        invariant 0 <= k <= |s| && filled == |s| - k && Sane(s[k..]) && (filled > 0 ==> ptr == k)
        invariant delivered + Parse(s[k..]).0 == old(delivered) + Parse(s).0 && Parse(s[k..]).1 == Parse(s).1
      {
        StepAt(s, k);
        var msgSize := Header(buf[ptr..ptr + 4]);
        assert buf[ptr..ptr + 4] == s[k..k + 4];
        var entire := msgSize + 4;
        if filled >= entire {
          assert buf[ptr + 4..ptr + entire] == s[k + 4..k + entire];
          Associative(delivered, [s[k + 4..k + entire]], Parse(s[k + entire..]).0);
          delivered := delivered + [buf[ptr + 4..ptr + entire]];
          if filled > entire {
            ptr := ptr + entire;
          }
          filled := filled - entire;
          k := k + entire;
        } else {
          break;
        }
      }
      ParseStep(s[k..]);
      StepAt(s, k);
      assert delivered + [] == delivered && (filled > 0 ==> buf[ptr..ptr + filled] == s[k..]);
    }

    // uv_stream_msg_read; with nread > 0, the bytes are already stored behind the
    // filled ones. An error releases the buffer and leaves filled as it is, so the
    // stream can be read on exactly if nothing was pending.
    method OnRead(nread: int)
      requires nread <= 0 ==> Valid()
      requires nread > 0 ==>
        buf != null && 0 <= filled && filled + nread <= allocSize == buf.Length && Sane(buf[..filled + nread])
      modifies `buf, `allocSize, `filled, `delivered, `errors, buf
      ensures nread > 0 ==>
        && Valid() && (buf == null || buf == old(buf)) && errors == old(errors)
        && var p := Parse(old(buf[..filled + nread])); delivered == old(delivered) + p.0 && Pending() == p.1
      ensures nread == 0 ==>
        && Valid() && buf == old(buf) && Pending() == old(Pending())
        && delivered == old(delivered) && errors == old(errors)
      ensures nread < 0 ==>
        && buf == null && filled == old(filled) && (Valid() <==> old(Pending()) == [])
        && delivered == old(delivered) && errors == old(errors) + [nread]
    {
      if nread == 0 {
        return;
      }
      if nread < 0 {
        FreeBuffer();
        errors := errors + [nread];
        return;
      }
      filled := filled + nread;
      RestIsPartial(buf[..filled]);
      var ptr := Deliver();
      if ptr > 0 && filled > 0 {
        MoveDown(ptr);
      } else if filled == 0 {
        FreeBuffer();
      }
    }

    // memmove of the remaining bytes to the front
    method MoveDown(ptr: int)
      requires buf != null && 0 < ptr && 0 <= filled && ptr + filled <= buf.Length
      modifies buf
      ensures buf[..filled] == old(buf[ptr..ptr + filled])
    {
      for i := 0 to filled
        invariant forall k :: 0 <= k < i ==> buf[k] == old(buf[ptr + k])
        invariant forall k :: i <= k < buf.Length ==> buf[k] == old(buf[k])
      {
        buf[i] := buf[ptr + i];
      }
    }

    // uv_stream_msg_free_buffer
    method FreeBuffer()
      modifies this`buf, this`allocSize
      ensures buf == null && allocSize == 0
    {
      buf := null;
      allocSize := 0;
    }

    // One read: the kernel stores data in the window last offered.
    method Receive(data: seq<byte>)
      requires Valid() && buf != null && 0 < |data| <= buf.Length - filled && Sane(Pending() + data)
      modifies `buf, `allocSize, `filled, `delivered, `errors, buf
      ensures Valid() && (buf == null || buf == old(buf)) && errors == old(errors)
      ensures var p := Parse(old(Pending()) + data); delivered == old(delivered) + p.0 && Pending() == p.1
    {
      hide Parse, Sane, Header;
      Store(buf, filled, data);
      assert buf[..filled + |data|] == old(Pending()) + data;
      OnRead(|data|);
    }
  }

  // The kernel's part of a read: data is stored from offset on.
  method Store(a: array<byte>, offset: nat, data: seq<byte>)
    requires offset + |data| <= a.Length
    modifies a
    ensures a[..offset] == old(a[..offset]) && a[offset..offset + |data|] == data
  {
    for i := 0 to |data|
      invariant a[..offset] == old(a[..offset]) && a[offset..offset + i] == data[..i]
    {
      a[offset + i] := data[i];
    }
  }

  // A session: the stream of msgs arrives in reads of any sizes the offered windows
  // allow, until it ends or alloc_cb refuses. What has been delivered is always a prefix
  // of what was sent, and all of it once the stream has arrived.
  method Session(msgs: seq<seq<byte>>) returns (u: UvMsg, complete: bool)
    requires forall m :: m in msgs ==> Sendable(m)
    ensures u.delivered <= msgs && (complete ==> u.delivered == msgs && u.Pending() == []) && (!complete ==> u.refused)
  {
    hide Parse, Sane, Header, Wire, Partial;
    var stream := Wire(msgs);
    ParseWire(msgs);
    u := new UvMsg();
    var done := 0;
    complete := false;
    assert stream[..0] == [];
    ParseStep([]);
    while done < |stream|
      invariant 0 <= done <= |stream| && u.Valid() && fresh(u) && (u.buf != null ==> fresh(u.buf))
      invariant (u.delivered, u.Pending()) == Parse(stream[..done])
    {
      var nothing: bool := *;
      if nothing {
        u.OnRead(0);
      }
      var ok, offset, len := u.Alloc();
      if !ok {
        break;
      }
      var n :| 1 <= n <= len && done + n <= |stream|;
      SessionStep(stream, done, n);
      u.Receive(stream[done..done + n]);
      done := done + n;
    }
    assert stream[..done] + stream[done..] == stream;
    Delivered(msgs, stream[..done], stream[done..]);
    complete := done == |stream|;
  }

  // An error after the first byte of a message: unless alloc_cb has refused, the
  // stream cannot be read on.
  method ErrorMidMessage(b: byte, err: int) returns (u: UvMsg)
    requires err < 0
    ensures u.refused || (!u.Valid() && u.errors == [err] && u.delivered == [])
  {
    u := new UvMsg();
    var ok, offset, len := u.Alloc();
    if ok {
      u.Receive([b]);
      u.OnRead(err);
    }
  }

  lemma SessionStep(s: seq<byte>, i: nat, n: nat)
    requires i + n <= |s| && Sane(s)
    ensures var p := Parse(s[..i]);
      && Sane(p.1 + s[i..i + n])
      && Parse(s[..i + n]) == (p.0 + Parse(p.1 + s[i..i + n]).0, Parse(p.1 + s[i..i + n]).1)
  {
    assert s[..i + n] == s[..i] + s[i..i + n] && s == s[..i + n] + s[i + n..];
    SanePrefix(s[..i + n], s[i + n..]);
    SanePrefix(s[..i], s[i..i + n]);
    ParseAppend(s[..i], s[i..i + n]);
  }
}
