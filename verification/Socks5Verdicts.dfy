// What s5_parse says about any bytes whatever, phase by phase: which it
// rejects and where, how many it wants, and what it has read then.
module Socks5Verdicts {
  import opened Sequences
  import opened Socks5

  // The bytes a field of length n takes; an empty one takes one all the same.
  function Taken(n: byte): nat { if n == 0 then 1 else n }

  function Limit(cx: Ctx): int {
    match cx.state
    case PwUsername => cx.userlen
    case PwPassword => cx.passlen
    case _ => cx.arg1
  }

  predicate InField(cx: Ctx) {
    cx.state.Methods? || cx.state.PwUsername? || cx.state.PwPassword? || cx.state.ReqDaddr?
  }

  lemma {:induction false} FieldShort(cx: Ctx, data: seq<byte>)
    requires Valid(cx) && InField(cx) && (data == [] || cx.arg0 + |data| < Limit(cx))
    ensures Parse(cx, data).1 == Ok && Parse(cx, data).2 == []
    decreases |data|
  {
    if data != [] {
      FieldShort(Next(cx, data[0]).0, data[1..]);
    }
  }

  lemma First(cx: Ctx, data: seq<byte>)
    requires Valid(cx) && data != []
    ensures var n := Next(cx, data[0]);
      Parse(cx, data) == if n.1 == Ok then Parse(n.0, data[1..]) else (n.0, n.1, data[1..])
  {}

  // ---- the greeting ----

  lemma MethodsVerdict(cx: Ctx, data: seq<byte>)
    requires Valid(cx) && cx.state.Methods? && cx.arg0 == 0
    ensures var p := Parse(cx, data); var n: byte := cx.arg1;
      if |data| < Taken(n) then p.1 == Ok && p.2 == []
      else
        && p.1 == AuthSelect && p.2 == data[Taken(n)..]
        && var ms := data[..n];
        && p.0.methods.none == (cx.methods.none || 0 in ms) && p.0.methods.gssapi == (cx.methods.gssapi || 1 in ms)
        && p.0.methods.passwd == (cx.methods.passwd || 2 in ms)
  {
    hide OfferAll;
    var n: byte := cx.arg1;
    if |data| < Taken(n) {
      FieldShort(cx, data);
    } else if n == 0 {
      First(cx, data);
      assert data[..0] == [];
    } else {
      var ms, rest := data[..n], data[n..];
      assert data == ms + rest;
      MethodsRun(cx, ms, rest);
    }
  }

  // A greeting is rejected exactly for its first byte; otherwise the parser
  // waits for it, or notes the methods and has consumed what is stated.
  lemma GreetingVerdict(data: seq<byte>)
    ensures var p := Parse(Init(), data);
      if data == [] then p.1 == Ok
      else if data[0] != 5 then p.1 == BadVersion && p.2 == data[1..]
      else if |data| < 2 || |data[2..]| < Taken(data[1]) then p.1 == Ok && p.2 == []
      else
        && p.1 == AuthSelect && p.2 == data[2..][Taken(data[1])..]
        && var ms := data[2..][..data[1]]; p.0.methods == Auth(0 in ms, 1 in ms, 2 in ms)
  {
    hide OfferAll;
    if data != [] {
      var cx := Init();
      First(cx, data);
      if data[0] == 5 && |data| > 1 {
        var cx1 := cx.(state := NMethods);
        First(cx1, data[1..]);
        assert data[1..][1..] == data[2..];
        MethodsVerdict(cx1.(arg1 := data[1], state := Methods), data[2..]);
      }
    }
  }

  ghost predicate Greets(data: seq<byte>, ms: seq<byte>) {
    |ms| < 256 && Greeting(ms) <= data && (ms == [] ==> |data| > 2)
  }

  // The converse of the round trip: nothing but a greeting is taken for one.
  lemma GreetingOnly(data: seq<byte>)
    ensures Parse(Init(), data).1 == AuthSelect <==> exists ms: seq<byte> :: Greets(data, ms)
  {
    hide Parse, Next;
    GreetingVerdict(data);
    if Parse(Init(), data).1 == AuthSelect {
      var ms := data[2..][..data[1]];
      assert Greeting(ms) == data[..2 + data[1]];
      assert Greets(data, ms);
    }
    if exists ms: seq<byte> :: Greets(data, ms) {
      var ms: seq<byte> :| Greets(data, ms);
      assert data[..2 + |ms|] == Greeting(ms);
      assert data[0] == Greeting(ms)[0] && data[1] == Greeting(ms)[1];
    }
  }

  // ---- user name and password ----

  lemma NameVerdict(cx: Ctx, data: seq<byte>)
    requires Valid(cx) && cx.state.PwUsername? && cx.arg0 == 0
    ensures var p := Parse(cx, data); var n: byte := cx.userlen;
      if |data| < Taken(n) then p.1 == Ok && p.2 == []
      else exists c :: Valid(c) && Parse(cx, data) == Parse(c, data[Taken(n)..]) && NameRead(cx, c, data[..n])
  {
    var n: byte := cx.userlen;
    if |data| < Taken(n) {
      FieldShort(cx, data);
    } else if n == 0 {
      First(cx, data);
      assert data[..0] == [];
      assert NameRead(cx, Next(cx, data[0]).0, []);
    } else {
      var c := LongName(cx, data);
      assert NameRead(cx, c, data[..n]);
    }
  }

  lemma LongName(cx: Ctx, data: seq<byte>) returns (c: Ctx)
    requires Valid(cx) && cx.state.PwUsername? && cx.arg0 == 0 && 0 < cx.userlen <= |data|
    ensures Valid(c) && Parse(cx, data) == Parse(c, data[cx.userlen..]) && NameRead(cx, c, data[..cx.userlen])
  {
    hide Parse, Next;
    var s, rest := data[..cx.userlen], data[cx.userlen..];
    assert data == s + rest;
    UserRun(cx, s, rest);
    var u := cx.username[..cx.arg0] + s + [0] + cx.username[cx.userlen + 1..];
    assert u[..cx.userlen] == s;
    c := cx.(username := u, arg0 := cx.userlen, state := PwPasslen);
  }

  ghost predicate NameRead(cx: Ctx, c: Ctx, user: seq<byte>) {
    c.state.PwPasslen? && c.userlen == cx.userlen && Holds(c.username, user)
  }

  lemma PasswordVerdict(cx: Ctx, data: seq<byte>)
    requires Valid(cx) && cx.state.PwPassword? && cx.arg0 == 0
    ensures var p := Parse(cx, data); var n: byte := cx.passlen;
      if |data| < Taken(n) then p.1 == Ok && p.2 == []
      else
        && p.1 == AuthVerify && p.2 == data[Taken(n)..] && p.0.state.ReqVersion? && p.0.passlen == n
        && p.0.userlen == cx.userlen && p.0.username == cx.username && Holds(p.0.password, data[..n])
  {
    var n: byte := cx.passlen;
    if |data| < Taken(n) {
      FieldShort(cx, data);
    } else if n == 0 {
      First(cx, data);
      assert data[..0] == [];
    } else {
      PasswordRead(cx, data);
    }
  }

  lemma PasswordRead(cx: Ctx, data: seq<byte>)
    requires Valid(cx) && cx.state.PwPassword? && cx.arg0 == 0 && 0 < cx.passlen <= |data|
    ensures var p := Parse(cx, data);
      && p.1 == AuthVerify && p.2 == data[cx.passlen..] && p.0.state.ReqVersion? && p.0.passlen == cx.passlen
      && p.0.userlen == cx.userlen && p.0.username == cx.username && Holds(p.0.password, data[..cx.passlen])
  {
    hide Parse, Next;
    var s, rest := data[..cx.passlen], data[cx.passlen..];
    assert data == s + rest;
    PassRun(cx, s, rest);
    var w := cx.password[..cx.arg0] + s + [0] + cx.password[cx.passlen + 1..];
    assert w[..cx.passlen] == s;
  }

  // Behind the user name: the length of the password, and the password.
  lemma SecondVerdict(cx: Ctx, user: seq<byte>, data: seq<byte>)
    requires Valid(cx) && cx.state.PwPasslen? && cx.userlen == |user| && Holds(cx.username, user)
    ensures Second(Parse(cx, data), user, data)
  {
    if data != [] {
      First(cx, data);
      PasswordVerdict(cx.(arg0 := 0, passlen := data[0], state := PwPassword), data[1..]);
    }
  }

  ghost predicate Second(p: (Ctx, Err, seq<byte>), user: seq<byte>, data: seq<byte>) {
    if data == [] || |data[1..]| < Taken(data[0]) then p.1 == Ok && p.2 == []
    else p.1 == AuthVerify && p.2 == data[1..][Taken(data[0])..] && LoggedIn(p.0, user, data[1..][..data[0]])
  }

  // A login is rejected exactly for its first byte; otherwise the parser waits
  // for it, or has read both strings and consumed what is stated: a string of
  // length 0 takes one byte all the same.
  lemma LoginVerdict(cx: Ctx, data: seq<byte>)
    requires Valid(cx) && cx.state.PwVersion?
    ensures var p := Parse(cx, data);
      if data == [] then p.1 == Ok
      else if data[0] != 1 then p.1 == BadVersion && p.2 == data[1..]
      else if |data| < 2 || |data[2..]| < Taken(data[1]) then p.1 == Ok && p.2 == []
      else Second(p, data[2..][..data[1]], data[2..][Taken(data[1])..])
  {
    hide Second, LoggedIn, Holds;
    if data != [] {
      First(cx, data);
      if data[0] == 1 && |data| > 1 {
        var cx1 := cx.(state := PwUserlen);
        First(cx1, data[1..]);
        var tail := data[2..];
        assert data[1..][1..] == tail;
        NameTail(cx1.(arg0 := 0, userlen := data[1], state := PwUsername), tail);
      }
    }
  }

  lemma NameTail(cx: Ctx, data: seq<byte>)
    requires Valid(cx) && cx.state.PwUsername? && cx.arg0 == 0
    ensures var p := Parse(cx, data); var n: byte := cx.userlen;
      if |data| < Taken(n) then p.1 == Ok && p.2 == [] else Second(p, data[..n], data[Taken(n)..])
  {
    hide Parse, Second, Holds;
    var n: byte := cx.userlen;
    NameVerdict(cx, data);
    if |data| >= Taken(n) {
      var c :| Valid(c) && Parse(cx, data) == Parse(c, data[Taken(n)..]) && NameRead(cx, c, data[..n]);
      SecondVerdict(c, data[..n], data[Taken(n)..]);
    }
  }

  // ---- the request ----

  lemma AddressVerdict(cx: Ctx, data: seq<byte>)
    requires Valid(cx) && cx.state.ReqDaddr? && cx.arg0 == 0
    ensures var p := Parse(cx, data); var n: byte := cx.arg1;
      if |data| < Taken(n) + 2 then p.1 == Ok && p.2 == []
      else
        && p.1 == ExecCmd && p.2 == data[Taken(n) + 2..] && p.0.state.Dead?
        && p.0.cmd == cx.cmd && p.0.atyp == cx.atyp && p.0.arg1 == n && Holds(p.0.daddr, data[..n])
        && p.0.dport == Port(data[Taken(n)..])
  {
    hide Parse;
    var n: byte := cx.arg1;
    if |data| < Taken(n) {
      FieldShort(cx, data);
    } else {
      var rest := data[Taken(n)..];
      var c := AddressRead(cx, data);
      PortVerdict(c, rest);
      if |rest| >= 2 {
        assert rest[2..] == data[Taken(n) + 2..];
      }
    }
  }

  lemma AddressRead(cx: Ctx, data: seq<byte>) returns (c: Ctx)
    requires Valid(cx) && cx.state.ReqDaddr? && cx.arg0 == 0 && |data| >= Taken(cx.arg1)
    ensures Valid(c) && c.state.ReqDport0? && Parse(cx, data) == Parse(c, data[Taken(cx.arg1)..])
    ensures c.cmd == cx.cmd && c.atyp == cx.atyp && c.arg1 == cx.arg1 && Holds(c.daddr, data[..cx.arg1])
  {
    var n: byte := cx.arg1;
    if n == 0 {
      First(cx, data);
      assert data[..0] == [];
      c := Next(cx, data[0]).0;
    } else {
      var s, rest := data[..n], data[n..];
      assert data == s + rest;
      AddressRun(cx, s, rest);
      var d := cx.daddr[..cx.arg0] + s + [0] + cx.daddr[cx.arg1 + 1..];
      assert d[..n] == s;
      c := cx.(daddr := d, arg0 := cx.arg1, state := ReqDport0);
    }
  }

  lemma PortVerdict(cx: Ctx, data: seq<byte>)
    requires Valid(cx) && cx.state.ReqDport0?
    ensures if |data| < 2 then Parse(cx, data).1 == Ok && Parse(cx, data).2 == []
      else Parse(cx, data) == (cx.(dport := Port(data), state := Dead), ExecCmd, data[2..])
  {
    hide Parse, Valid;
    if |data| >= 2 {
      assert data == [data[0], data[1]] + data[2..];
      PortRun(cx, data[0], data[1], data[2..]);
    } else {
      NoPort(cx, data);
    }
  }

  lemma NoPort(cx: Ctx, data: seq<byte>)
    requires Valid(cx) && cx.state.ReqDport0? && |data| < 2
    ensures Parse(cx, data).1 == Ok && Parse(cx, data).2 == []
  {}

  function Port(data: seq<byte>): int
    requires |data| >= 2
  {
    256 * (data[0] as int) + data[1] as int
  }

  // The command, the kind of address and its length n have been read; data is
  // what follows.
  ghost predicate Address(p: (Ctx, Err, seq<byte>), cmd: Cmd, atyp: Atyp, n: byte, data: seq<byte>) {
    if |data| < Taken(n) + 2 then p.1 == Ok && p.2 == []
    else
      && p.1 == ExecCmd && p.2 == data[Taken(n) + 2..] && p.0.state.Dead?
      && p.0.cmd == cmd && p.0.atyp == atyp && p.0.arg1 == n && Holds(p.0.daddr, data[..n])
      && p.0.dport == Port(data[Taken(n)..])
  }

  // From the kind of address on.
  ghost predicate Kinds(p: (Ctx, Err, seq<byte>), cmd: Cmd, data: seq<byte>) {
    if data == [] then p.1 == Ok && p.2 == []
    else match data[0]
      case 1 => Address(p, cmd, IPv4, 4, data[1..])
      case 4 => Address(p, cmd, IPv6, 16, data[1..])
      case 3 => if |data| == 1 then p.1 == Ok && p.2 == [] else Address(p, cmd, Host, data[1], data[2..])
      case _ => p.1 == BadAtyp && p.2 == data[1..]
  }

  lemma KindsVerdict(cx: Ctx, data: seq<byte>)
    requires Valid(cx) && cx.state.ReqAtyp?
    ensures Kinds(Parse(cx, data), cx.cmd, data)
  {
    hide Holds;
    if data != [] {
      First(cx, data);
      var tail := data[1..];
      match data[0]
      case 1 => AddressVerdict(cx.(arg0 := 0, state := ReqDaddr, atyp := IPv4, arg1 := 4), tail);
      case 4 => AddressVerdict(cx.(arg0 := 0, state := ReqDaddr, atyp := IPv6, arg1 := 16), tail);
      case 3 =>
        var c := cx.(arg0 := 0, state := ReqAtypHost, atyp := Host, arg1 := 0);
        if tail != [] {
          First(c, tail);
          assert tail[1..] == data[2..];
          AddressVerdict(c.(arg1 := tail[0], state := ReqDaddr), data[2..]);
        }
      case _ =>
    }
  }

  // A request is rejected exactly for its version, its command or its kind of
  // address, at that byte; otherwise the parser waits for it, or has read it.
  lemma RequestVerdict(cx: Ctx, data: seq<byte>)
    requires Valid(cx) && cx.state.ReqVersion?
    ensures var p := Parse(cx, data);
      if data == [] then p.1 == Ok
      else if data[0] != 5 then p.1 == BadVersion && p.2 == data[1..]
      else if |data| == 1 then p.1 == Ok && p.2 == []
      else if data[1] != 1 && data[1] != 3 then p.1 == BadCmd && p.2 == data[2..]
      else if |data| == 2 then p.1 == Ok && p.2 == []
      else Kinds(p, if data[1] == 1 then TcpConnect else UdpAssoc, data[3..])
  {
    hide Kinds;
    if data != [] {
      First(cx, data);
      if data[0] == 5 && |data| >= 2 {
        var cx1 := cx.(state := ReqCmd);
        First(cx1, data[1..]);
        assert data[1..][1..] == data[2..];
        if (data[1] == 1 || data[1] == 3) && |data| >= 3 {
          var cx2 := Next(cx1, data[1]).0;
          First(cx2, data[2..]);
          assert data[2..][1..] == data[3..];
          KindsVerdict(cx2.(state := ReqAtyp), data[3..]);
        }
      }
    }
  }

  // Behind a request nothing is said any more.
  lemma {:induction false} DeadVerdict(cx: Ctx, data: seq<byte>)
    requires Valid(cx) && cx.state.Dead?
    ensures Parse(cx, data) == (cx, Ok, [])
    decreases |data|
  {
    if data != [] {
      DeadVerdict(cx, data[1..]);
    }
  }
}
