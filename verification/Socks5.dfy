// s5.c: an incremental parser of the client's half of a SOCKS5 handshake.
module Socks5 {
  import opened Sequences

  datatype Step =
    | Version | NMethods | Methods
    | PwVersion | PwUserlen | PwUsername | PwPasslen | PwPassword
    | ReqVersion | ReqCmd | ReqReserved | ReqAtyp | ReqAtypHost | ReqDaddr | ReqDport0 | ReqDport1
    | Dead

  datatype Err = BadVersion | BadCmd | BadAtyp | Ok | AuthSelect | AuthVerify | ExecCmd

  datatype Cmd = TcpConnect | TcpBind | UdpAssoc

  datatype Atyp = IPv4 | IPv6 | Host

  // The bits of cx->methods.
  datatype Auth = Auth(none: bool, gssapi: bool, passwd: bool)

  // s5_auth_method
  datatype AuthMethod = AuthNone | AuthGssapi | AuthPasswd

  // s5_ctx
  datatype Ctx = Ctx(
    state: Step, arg0: int, arg1: int, methods: Auth, cmd: Cmd, atyp: Atyp,
    userlen: int, passlen: int, dport: int,
    username: seq<byte>, password: seq<byte>, daddr: seq<byte>)

  const FIELD := 257

  // s5_init
  function Init(): (cx: Ctx)
    ensures Valid(cx)
  {
    var zeros := seq(FIELD, i => 0);
    Ctx(Version, 0, 0, Auth(false, false, false), TcpConnect, IPv4, 0, 0, 0, zeros, zeros, zeros)
  }

  // The counters stay inside the 257-byte fields.
  predicate Valid(cx: Ctx) {
    && |cx.username| == |cx.password| == |cx.daddr| == FIELD
    && 0 <= cx.userlen < 256 && 0 <= cx.passlen < 256 && 0 <= cx.arg1 < 256 && 0 <= cx.arg0 && 0 <= cx.dport < 0x1_0000
    && (cx.state.Methods? || cx.state.ReqDaddr? ==> cx.arg0 <= cx.arg1)
    && (cx.state.PwUsername? ==> cx.arg0 <= cx.userlen)
    && (cx.state.PwPassword? ==> cx.arg0 <= cx.passlen)
    && (cx.state.ReqAtypHost? ==> cx.arg0 == 0)
    && (cx.state.ReqDport1? ==> cx.dport % 256 == 0)
  }

  function Offer(a: Auth, c: byte): Auth {
    if c == 0 then a.(none := true) else if c == 1 then a.(gssapi := true) else if c == 2 then a.(passwd := true) else a
  }

  // One byte: the new context, and whether the loop goes on (Ok) or returns.
  function Next(cx: Ctx, c: byte): (r: (Ctx, Err))
    requires Valid(cx)
    ensures Valid(r.0)
  {
    match cx.state
    case Version => if c != 5 then (cx, BadVersion) else (cx.(state := NMethods), Ok)
    case NMethods => (cx.(arg0 := 0, arg1 := c, state := Methods), Ok)
    case Methods =>
      var cx1 := if cx.arg0 < cx.arg1 then cx.(methods := Offer(cx.methods, c), arg0 := cx.arg0 + 1) else cx;
      (cx1, if cx1.arg0 == cx1.arg1 then AuthSelect else Ok)
    case PwVersion => if c != 1 then (cx, BadVersion) else (cx.(state := PwUserlen), Ok)
    case PwUserlen => (cx.(arg0 := 0, userlen := c, state := PwUsername), Ok)
    case PwUsername =>
      var cx1 := if cx.arg0 < cx.userlen then cx.(username := cx.username[cx.arg0 := c], arg0 := cx.arg0 + 1) else cx;
      if cx1.arg0 == cx1.userlen then (cx1.(username := cx1.username[cx1.userlen := 0], state := PwPasslen), Ok)
      else (cx1, Ok)
    case PwPasslen => (cx.(arg0 := 0, passlen := c, state := PwPassword), Ok)
    case PwPassword =>
      var cx1 := if cx.arg0 < cx.passlen then cx.(password := cx.password[cx.arg0 := c], arg0 := cx.arg0 + 1) else cx;
      if cx1.arg0 == cx1.passlen then
        (cx1.(password := cx1.password[cx1.passlen := 0], state := ReqVersion), AuthVerify)
      else (cx1, Ok)
    case ReqVersion => if c != 5 then (cx, BadVersion) else (cx.(state := ReqCmd), Ok)
    case ReqCmd =>
      if c == 1 then (cx.(cmd := TcpConnect, state := ReqReserved), Ok)
      else if c == 3 then (cx.(cmd := UdpAssoc, state := ReqReserved), Ok)
      else (cx, BadCmd)
    case ReqReserved => (cx.(state := ReqAtyp), Ok)
    case ReqAtyp =>
      if c == 1 then (cx.(arg0 := 0, state := ReqDaddr, atyp := IPv4, arg1 := 4), Ok)
      else if c == 3 then (cx.(arg0 := 0, state := ReqAtypHost, atyp := Host, arg1 := 0), Ok)
      else if c == 4 then (cx.(arg0 := 0, state := ReqDaddr, atyp := IPv6, arg1 := 16), Ok)
      else (cx.(arg0 := 0), BadAtyp)
    case ReqAtypHost => (cx.(arg1 := c, state := ReqDaddr), Ok)
    case ReqDaddr =>
      var cx1 := if cx.arg0 < cx.arg1 then cx.(daddr := cx.daddr[cx.arg0 := c], arg0 := cx.arg0 + 1) else cx;
      if cx1.arg0 == cx1.arg1 then (cx1.(daddr := cx1.daddr[cx1.arg1 := 0], state := ReqDport0), Ok) else (cx1, Ok)
    case ReqDport0 => (cx.(dport := c * 256, state := ReqDport1), Ok)
    case ReqDport1 => (cx.(dport := cx.dport + c, state := Dead), ExecCmd)
    case Dead => (cx, Ok)
  }

  // s5_parse: the new context, the result and the bytes not consumed.
  function Parse(cx: Ctx, data: seq<byte>): (r: (Ctx, Err, seq<byte>))
    requires Valid(cx)
    ensures Valid(r.0)
    decreases |data|
  {
    if data == [] then (cx, Ok, [])
    else
      var r := Next(cx, data[0]);
      if r.1 != Ok then (r.0, r.1, data[1..]) else Parse(r.0, data[1..])
  }

  // Parsing does not depend on how the data is cut up: when the first piece
  // is not enough to decide, the next call goes on where it stopped.
  lemma {:induction false} ChunkIndependent(cx: Ctx, a: seq<byte>, b: seq<byte>)
    requires Valid(cx)
    ensures var r := Parse(cx, a);
      if r.1 == Ok then r.2 == [] && Parse(cx, a + b) == Parse(r.0, b)
      else Parse(cx, a + b) == (r.0, r.1, r.2 + b)
    decreases |a|
  {
    if a == [] {
      assert a + b == b;
    } else {
      assert (a + b)[0] == a[0] && (a + b)[1..] == a[1..] + b;
      ChunkIndependent(Next(cx, a[0]).0, a[1..], b);
    }
  }

  // The parser on its fields.
  class Parser {
    var state: Step
    var arg0: int
    var arg1: int
    var methods: Auth
    var cmd: Cmd
    var atyp: Atyp
    var userlen: int
    var passlen: int
    var dport: int
    const username: array<byte>
    const password: array<byte>
    const daddr: array<byte>

    ghost function View(): Ctx
      reads this, username, password, daddr
    {
      Ctx(state, arg0, arg1, methods, cmd, atyp, userlen, passlen, dport, username[..], password[..], daddr[..])
    }

    ghost predicate Ready()
      reads this, username, password, daddr
    {
      Valid(View()) && username != password && username != daddr && password != daddr
    }

    // s5_init
    constructor ()
      ensures Ready() && View() == Init() && fresh(username) && fresh(password) && fresh(daddr)
    {
      state, arg0, arg1 := Version, 0, 0;
      methods, cmd, atyp := Auth(false, false, false), TcpConnect, IPv4;
      userlen, passlen, dport := 0, 0, 0;
      username := new byte[FIELD](i => 0);
      password := new byte[FIELD](i => 0);
      daddr := new byte[FIELD](i => 0);
    }

    // The body of the loop of s5_parse
    method Feed(c: byte) returns (err: Err)
      requires Ready()
      modifies this, username, password, daddr
      ensures Ready() && (View(), err) == Next(old(View()), c)
    {
      err := Ok;
      match state {
        case Version =>
          if c != 5 {
            return BadVersion;
          }
          state := NMethods;
        case NMethods =>
          arg0, arg1, state := 0, c, Methods;
        case Methods =>
          if arg0 < arg1 {
            match c {
              case 0 => methods := methods.(none := true);
              case 1 => methods := methods.(gssapi := true);
              case 2 => methods := methods.(passwd := true);
              case _ =>
            }
            arg0 := arg0 + 1;
          }
          if arg0 == arg1 {
            return AuthSelect;
          }
        case PwVersion =>
          if c != 1 {
            return BadVersion;
          }
          state := PwUserlen;
        case PwUserlen =>
          arg0, userlen, state := 0, c, PwUsername;
        case PwUsername =>
          FeedUsername(c);
        case PwPasslen =>
          arg0, passlen, state := 0, c, PwPassword;
        case PwPassword =>
          err := FeedPassword(c);
        case _ =>
          err := FeedRequest(c);
      }
    }

    method FeedUsername(c: byte)
      requires Ready() && state.PwUsername?
      modifies this, username
      ensures Ready() && (View(), Ok) == Next(old(View()), c)
    {
      if arg0 < userlen {
        username[arg0] := c;
        arg0 := arg0 + 1;
      }
      if arg0 == userlen {
        username[userlen] := 0;
        state := PwPasslen;
      }
    }

    method FeedPassword(c: byte) returns (err: Err)
      requires Ready() && state.PwPassword?
      modifies this, password
      ensures Ready() && (View(), err) == Next(old(View()), c)
    {
      err := Ok;
      if arg0 < passlen {
        password[arg0] := c;
        arg0 := arg0 + 1;
      }
      if arg0 == passlen {
        password[passlen] := 0;
        state := ReqVersion;
        err := AuthVerify;
      }
    }

    method FeedAddress(c: byte)
      requires Ready() && state.ReqDaddr?
      modifies this, daddr
      ensures Ready() && (View(), Ok) == Next(old(View()), c)
    {
      if arg0 < arg1 {
        daddr[arg0] := c;
        arg0 := arg0 + 1;
      }
      if arg0 == arg1 {
        daddr[arg1] := 0;
        state := ReqDport0;
      }
    }

    // The states of the request
    method FeedRequest(c: byte) returns (err: Err)
      requires Ready() && (state.Dead? || state.ReqVersion? || state.ReqCmd? || state.ReqReserved? || state.ReqAtyp?
        || state.ReqAtypHost? || state.ReqDaddr? || state.ReqDport0? || state.ReqDport1?)
      modifies this, daddr
      ensures Ready() && (View(), err) == Next(old(View()), c)
    {
      err := Ok;
      match state {
        case ReqVersion =>
          if c != 5 {
            return BadVersion;
          }
          state := ReqCmd;
        case ReqCmd =>
          match c {
            case 1 => cmd := TcpConnect;
            case 3 => cmd := UdpAssoc;
            case _ => return BadCmd;
          }
          state := ReqReserved;
        case ReqReserved =>
          state := ReqAtyp;
        case ReqAtyp =>
          arg0 := 0;
          match c {
            case 1 => state, atyp, arg1 := ReqDaddr, IPv4, 4;
            case 3 => state, atyp, arg1 := ReqAtypHost, Host, 0;
            case 4 => state, atyp, arg1 := ReqDaddr, IPv6, 16;
            case _ => return BadAtyp;
          }
        case ReqAtypHost =>
          arg1, state := c, ReqDaddr;
        case ReqDaddr =>
          FeedAddress(c);
        case ReqDport0 =>
          dport, state := c * 256, ReqDport1;
        case ReqDport1 =>
          dport, state := dport + c, Dead;
          err := ExecCmd;
        case _ =>
      }
    }

    // s5_parse; i bytes are consumed
    method Run(data: seq<byte>) returns (err: Err, i: nat)
      requires Ready()
      modifies this, username, password, daddr
      ensures Ready() && i <= |data| && (View(), err, data[i..]) == Parse(old(View()), data)
    {
      hide Next, Valid;
      i, err := 0, Ok;
      while i < |data|
        invariant Ready() && 0 <= i <= |data| && err == Ok
        invariant Parse(old(View()), data) == Parse(View(), data[i..])
      {
        ghost var cx := View();
        err := Feed(data[i]);
        assert data[i..][0] == data[i] && data[i..][1..] == data[i + 1..];
        i := i + 1;
        if err != Ok {
          return;
        }
      }
    }

    // s5_select_auth: false stands for -EINVAL
    method SelectAuth(choice: AuthMethod) returns (ok: bool)
      requires Ready()
      modifies this`state
      ensures Ready() && (ok <==> choice != AuthGssapi)
      ensures View() == old(View()).(state :=
        match choice case AuthNone => ReqVersion case AuthPasswd => PwVersion case AuthGssapi => old(state))
    {
      ok := true;
      match choice {
        case AuthNone => state := ReqVersion;
        case AuthPasswd => state := PwVersion;
        case AuthGssapi => ok := false;
      }
    }
  }

  // ---- what the client sends, and what the parser makes of it ----

  // The bytes s where the field has room for them, then a terminator.
  ghost predicate Holds(field: seq<byte>, s: seq<byte>) {
    |s| < |field| && field[..|s|] == s && field[|s|] == 0
  }

  function Greeting(methods: seq<byte>): seq<byte>
    requires |methods| < 256
  {
    [5, |methods|] + methods
  }

  function Login(user: seq<byte>, pass: seq<byte>): seq<byte>
    requires |user| < 256 && |pass| < 256
  {
    [1, |user|] + user + [|pass|] + pass
  }

  datatype Request = Request(cmd: Cmd, reserved: byte, atyp: Atyp, addr: seq<byte>, port: int)

  predicate WellFormed(r: Request) {
    && !r.cmd.TcpBind? && 0 <= r.port < 0x1_0000
    && (r.atyp.IPv4? ==> |r.addr| == 4) && (r.atyp.IPv6? ==> |r.addr| == 16) && (r.atyp.Host? ==> |r.addr| < 256)
  }

  function Opcode(r: Request): byte { if r.cmd.TcpConnect? then 1 else 3 }

  function Kind(r: Request): seq<byte>
    requires WellFormed(r)
  {
    if r.atyp.IPv4? then [1] else if r.atyp.IPv6? then [4] else [3, |r.addr|]
  }

  function Encode(r: Request): seq<byte>
    requires WellFormed(r)
  {
    [5, Opcode(r), r.reserved] + Kind(r) + r.addr + [r.port / 256, r.port % 256]
  }

  ghost predicate Decoded(cx: Ctx, r: Request) {
    && cx.state.Dead? && cx.cmd == r.cmd && cx.atyp == r.atyp && cx.dport == r.port
    && cx.arg1 == |r.addr| && Holds(cx.daddr, r.addr)
  }

  lemma ParseOne(cx: Ctx, c: byte, rest: seq<byte>)
    requires Valid(cx)
    ensures var n := Next(cx, c);
      Parse(cx, [c] + rest) == if n.1 == Ok then Parse(n.0, rest) else (n.0, n.1, rest)
  {
    assert ([c] + rest)[1..] == rest;
  }

  // The address bytes end up in daddr.
  lemma {:induction false} AddressRun(cx: Ctx, s: seq<byte>, rest: seq<byte>)
    requires Valid(cx) && cx.state.ReqDaddr? && s != [] && cx.arg0 + |s| == cx.arg1
    ensures var d := cx.daddr[..cx.arg0] + s + [0] + cx.daddr[cx.arg1 + 1..];
      && Valid(cx.(daddr := d, arg0 := cx.arg1, state := ReqDport0))
      && Parse(cx, s + rest) == Parse(cx.(daddr := d, arg0 := cx.arg1, state := ReqDport0), rest)
    decreases |s|
  {
    hide Parse;
    assert s + rest == [s[0]] + (s[1..] + rest);
    ParseOne(cx, s[0], s[1..] + rest);
    var cx1 := Next(cx, s[0]).0;
    var d := cx.daddr[..cx.arg0] + s + [0] + cx.daddr[cx.arg1 + 1..];
    if |s| == 1 {
      assert s[1..] + rest == rest;
      assert cx1.daddr == d;
    } else {
      AddressRun(cx1, s[1..], rest);
      assert cx1.daddr[..cx1.arg0] + s[1..] + [0] + cx1.daddr[cx1.arg1 + 1..] == d;
    }
  }

  // The request up to the address, and the two bytes after it.
  function AtAddress(cx: Ctx, r: Request): Ctx {
    cx.(state := ReqDaddr, cmd := r.cmd, atyp := r.atyp, arg0 := 0, arg1 := |r.addr|)
  }

  lemma HeadRun(cx: Ctx, r: Request, rest: seq<byte>)
    requires Valid(cx) && cx.state.ReqVersion? && WellFormed(r)
    ensures Valid(AtAddress(cx, r))
      && Parse(cx, [5] + ([Opcode(r)] + ([r.reserved] + (Kind(r) + rest)))) == Parse(AtAddress(cx, r), rest)
  {
    hide Parse, Kind, Valid;
    ParseOne(cx, 5, [Opcode(r)] + ([r.reserved] + (Kind(r) + rest)));
    var cx1 := Next(cx, 5).0;
    ParseOne(cx1, Opcode(r), [r.reserved] + (Kind(r) + rest));
    var cx2 := Next(cx1, Opcode(r)).0;
    ParseOne(cx2, r.reserved, Kind(r) + rest);
    KindRun(Next(cx2, r.reserved).0, r, rest);
  }

  lemma KindRun(cx: Ctx, r: Request, rest: seq<byte>)
    requires Valid(cx) && cx.state.ReqAtyp? && WellFormed(r)
    ensures var cx' := cx.(state := ReqDaddr, atyp := r.atyp, arg0 := 0, arg1 := |r.addr|);
      Valid(cx') && Parse(cx, Kind(r) + rest) == Parse(cx', rest)
  {
    hide Parse;
    var k := Kind(r);
    if r.atyp.Host? {
      assert k + rest == [k[0]] + ([k[1]] + rest);
      ParseOne(cx, k[0], [k[1]] + rest);
      ParseOne(Next(cx, k[0]).0, k[1], rest);
    } else {
      ParseOne(cx, k[0], rest);
    }
  }

  lemma PortRun(cx: Ctx, hi: byte, lo: byte, rest: seq<byte>)
    requires Valid(cx) && cx.state.ReqDport0?
    ensures Parse(cx, [hi, lo] + rest) == (cx.(dport := hi * 256 + lo, state := Dead), ExecCmd, rest)
  {
    assert [hi, lo] + rest == [hi] + ([lo] + rest);
    ParseOne(cx, hi, [lo] + rest);
    ParseOne(Next(cx, hi).0, lo, rest);
  }

  // An encoded request decodes to the same command, address and port, and
  // nothing after it is consumed: exactly if a host name is not empty.
  lemma RequestRoundTrip(cx: Ctx, r: Request, rest: seq<byte>)
    requires Valid(cx) && cx.state.ReqVersion? && WellFormed(r)
    ensures var p := Parse(cx, Encode(r) + rest);
      (p.1 == ExecCmd && p.2 == rest && Decoded(p.0, r)) <==> r.addr != []
  {
    hide Parse, Next, Valid, Kind;
    var hi, lo := r.port / 256, r.port % 256;
    EncodeShape(r, hi, lo, rest);
    HeadRun(cx, r, r.addr + ([hi, lo] + rest));
    var cx1 := AtAddress(cx, r);
    if r.addr != [] {
      AddressPortRun(cx1, r.addr, hi, lo, rest);
    } else {
      assert r.addr + ([hi, lo] + rest) == [hi] + ([lo] + rest);
      EmptyAddress(cx1, hi, lo, rest);
    }
  }

  lemma EncodeShape(r: Request, hi: byte, lo: byte, rest: seq<byte>)
    requires WellFormed(r) && hi == r.port / 256 && lo == r.port % 256
    ensures Encode(r) + rest == [5] + ([Opcode(r)] + ([r.reserved] + (Kind(r) + (r.addr + ([hi, lo] + rest)))))
  {
    hide Kind;
    var k := Kind(r);
    assert [5, Opcode(r), r.reserved] == [5] + [Opcode(r)] + [r.reserved];
    assert ([5] + [Opcode(r)] + [r.reserved] + k + r.addr + [hi, lo]) + rest
        == [5] + ([Opcode(r)] + ([r.reserved] + (k + (r.addr + ([hi, lo] + rest)))));
  }

  lemma AddressPortRun(cx: Ctx, s: seq<byte>, hi: byte, lo: byte, rest: seq<byte>)
    requires Valid(cx) && cx.state.ReqDaddr? && s != [] && cx.arg0 == 0 && cx.arg1 == |s|
    ensures var p := Parse(cx, s + ([hi, lo] + rest));
      && p.1 == ExecCmd && p.2 == rest && Holds(p.0.daddr, s)
      && p.0 == cx.(daddr := p.0.daddr, arg0 := cx.arg1, dport := hi * 256 + lo, state := Dead)
  {
    hide Parse, Next;
    var d := cx.daddr[..0] + s + [0] + cx.daddr[cx.arg1 + 1..];
    AddressRun(cx, s, [hi, lo] + rest);
    PortRun(cx.(daddr := d, arg0 := cx.arg1, state := ReqDport0), hi, lo, rest);
    assert d[..|s|] == s;
  }

  // With an empty host name the first byte of the port is taken for a byte of the name.
  lemma EmptyAddress(cx: Ctx, hi: byte, lo: byte, rest: seq<byte>)
    requires Valid(cx) && cx.state.ReqDaddr? && cx.arg0 == 0 && cx.arg1 == 0
    ensures var p := Parse(cx, [hi] + ([lo] + rest)); !(p.1 == ExecCmd && p.2 == rest)
  {
    ParseOne(cx, hi, [lo] + rest);
    var cx1 := Next(cx, hi).0;
    ParseOne(cx1, lo, rest);
    ParseShrinks(Next(cx1, lo).0, rest);
  }

  // Unless there is nothing to parse, a byte is consumed.
  lemma {:induction false} ParseShrinks(cx: Ctx, data: seq<byte>)
    requires Valid(cx)
    ensures |Parse(cx, data).2| <= |data| && (data != [] ==> |Parse(cx, data).2| < |data|)
    ensures data == [] ==> Parse(cx, data).1 == Ok
    decreases |data|
  {
    if data != [] {
      ParseShrinks(Next(cx, data[0]).0, data[1..]);
    }
  }

  function OfferAll(a: Auth, ms: seq<byte>): (r: Auth)
    ensures r.none <==> a.none || 0 in ms
    ensures r.gssapi <==> a.gssapi || 1 in ms
    ensures r.passwd <==> a.passwd || 2 in ms
    decreases |ms|
  {
    if ms == [] then a else
      assert ms == [ms[0]] + ms[1..];
      OfferAll(Offer(a, ms[0]), ms[1..])
  }

  lemma {:induction false} MethodsRun(cx: Ctx, ms: seq<byte>, rest: seq<byte>)
    requires Valid(cx) && cx.state.Methods? && ms != [] && cx.arg0 + |ms| == cx.arg1
    ensures Parse(cx, ms + rest) == (cx.(methods := OfferAll(cx.methods, ms), arg0 := cx.arg1), AuthSelect, rest)
    decreases |ms|
  {
    assert ms + rest == [ms[0]] + (ms[1..] + rest);
    ParseOne(cx, ms[0], ms[1..] + rest);
    if |ms| == 1 {
      assert ms[1..] + rest == rest;
    } else {
      MethodsRun(Next(cx, ms[0]).0, ms[1..], rest);
    }
  }

  // A greeting ends with the choice of a method, and exactly the methods the
  // client offers are noted: exactly if it offers any.
  lemma GreetingRoundTrip(ms: seq<byte>, rest: seq<byte>)
    requires |ms| < 256
    ensures var p := Parse(Init(), Greeting(ms) + rest);
      (p.1 == AuthSelect && p.2 == rest && p.0.methods == Auth(0 in ms, 1 in ms, 2 in ms)) <==> ms != []
  {
    assert Greeting(ms) + rest == [5] + ([|ms|] + (ms + rest));
    ParseOne(Init(), 5, [|ms|] + (ms + rest));
    var cx1 := Next(Init(), 5).0;
    ParseOne(cx1, |ms|, ms + rest);
    var cx2 := Next(cx1, |ms|).0;
    if ms != [] {
      MethodsRun(cx2, ms, rest);
    } else {
      assert ms + rest == rest;
      ParseShrinks(cx2, rest);
    }
  }

  lemma {:induction false} UserRun(cx: Ctx, s: seq<byte>, rest: seq<byte>)
    requires Valid(cx) && cx.state.PwUsername? && s != [] && cx.arg0 + |s| == cx.userlen
    ensures var u := cx.username[..cx.arg0] + s + [0] + cx.username[cx.userlen + 1..];
      && Valid(cx.(username := u, arg0 := cx.userlen, state := PwPasslen))
      && Parse(cx, s + rest) == Parse(cx.(username := u, arg0 := cx.userlen, state := PwPasslen), rest)
    decreases |s|
  {
    hide Parse;
    assert s + rest == [s[0]] + (s[1..] + rest);
    ParseOne(cx, s[0], s[1..] + rest);
    var cx1 := Next(cx, s[0]).0;
    var u := cx.username[..cx.arg0] + s + [0] + cx.username[cx.userlen + 1..];
    if |s| == 1 {
      assert s[1..] + rest == rest;
      assert cx1.username == u;
    } else {
      UserRun(cx1, s[1..], rest);
      assert cx1.username[..cx1.arg0] + s[1..] + [0] + cx1.username[cx1.userlen + 1..] == u;
    }
  }

  lemma {:induction false} PassRun(cx: Ctx, s: seq<byte>, rest: seq<byte>)
    requires Valid(cx) && cx.state.PwPassword? && s != [] && cx.arg0 + |s| == cx.passlen
    ensures var w := cx.password[..cx.arg0] + s + [0] + cx.password[cx.passlen + 1..];
      Parse(cx, s + rest) == (cx.(password := w, arg0 := cx.passlen, state := ReqVersion), AuthVerify, rest)
    decreases |s|
  {
    hide Parse;
    assert s + rest == [s[0]] + (s[1..] + rest);
    ParseOne(cx, s[0], s[1..] + rest);
    var cx1 := Next(cx, s[0]).0;
    var w := cx.password[..cx.arg0] + s + [0] + cx.password[cx.passlen + 1..];
    if |s| == 1 {
      assert s[1..] + rest == rest;
      assert cx1.password == w;
    } else {
      PassRun(cx1, s[1..], rest);
      assert cx1.password[..cx1.arg0] + s[1..] + [0] + cx1.password[cx1.passlen + 1..] == w;
    }
  }

  // However the password goes, as many bytes as its length says are consumed, but at least one.
  lemma {:induction false} PassConsumes(cx: Ctx, data: seq<byte>)
    requires Valid(cx) && cx.state.PwPassword? && (cx.arg0 < cx.passlen || cx.passlen == 0)
    ensures var p := Parse(cx, data);
      p.1 == AuthVerify ==>
        && p.0.passlen == cx.passlen
        && |data| - |p.2| == if cx.passlen == 0 then 1 else cx.passlen - cx.arg0
    decreases |data|
  {
    if data != [] && cx.arg0 + 1 < cx.passlen {
      PassConsumes(Next(cx, data[0]).0, data[1..]);
    }
  }

  ghost predicate LoggedIn(cx: Ctx, user: seq<byte>, pass: seq<byte>) {
    && cx.state.ReqVersion? && cx.userlen == |user| && cx.passlen == |pass|
    && Holds(cx.username, user) && Holds(cx.password, pass)
  }

  // User name and password arrive as they were sent, and nothing after them
  // is consumed: exactly if neither is empty.
  lemma LoginRoundTrip(cx: Ctx, user: seq<byte>, pass: seq<byte>, rest: seq<byte>)
    requires Valid(cx) && cx.state.PwVersion? && |user| < 256 && |pass| < 256
    ensures var p := Parse(cx, Login(user, pass) + rest);
      (p.1 == AuthVerify && p.2 == rest && LoggedIn(p.0, user, pass)) <==> user != [] && pass != []
  {
    var tail := [|pass|] + (pass + rest);
    assert Login(user, pass) + rest == [1] + ([|user|] + (user + tail));
    ParseOne(cx, 1, [|user|] + (user + tail));
    var cx1 := Next(cx, 1).0;
    ParseOne(cx1, |user|, user + tail);
    var cx2 := Next(cx1, |user|).0;
    if user != [] {
      UserRun(cx2, user, tail);
      var u := cx2.username[..0] + user + [0] + cx2.username[cx2.userlen + 1..];
      LoginRest(cx2.(username := u, arg0 := cx2.userlen, state := PwPasslen), user, pass, rest);
    } else {
      assert user + tail == tail;
      EmptyUser(cx2, pass, rest);
    }
  }

  lemma LoginRest(cx: Ctx, user: seq<byte>, pass: seq<byte>, rest: seq<byte>)
    requires Valid(cx) && cx.state.PwPasslen? && user != [] && |user| < 256 && |pass| < 256
    requires cx.userlen == |user| && cx.username[..|user|] == user && cx.username[|user|] == 0
    ensures var p := Parse(cx, [|pass|] + (pass + rest));
      (p.1 == AuthVerify && p.2 == rest && LoggedIn(p.0, user, pass)) <==> pass != []
  {
    ParseOne(cx, |pass|, pass + rest);
    var cx1 := Next(cx, |pass|).0;
    if pass != [] {
      PassRun(cx1, pass, rest);
      var w := cx1.password[..0] + pass + [0] + cx1.password[cx1.passlen + 1..];
      assert w[..|pass|] == pass;
    } else {
      assert pass + rest == rest;
      PassConsumes(cx1, rest);
    }
  }

  // With an empty user name the password's length is taken for a byte of the name.
  lemma EmptyUser(cx: Ctx, pass: seq<byte>, rest: seq<byte>)
    requires Valid(cx) && cx.state.PwUsername? && cx.userlen == 0 && |pass| < 256
    ensures var p := Parse(cx, [|pass|] + (pass + rest)); !(p.1 == AuthVerify && p.2 == rest && p.0.passlen == |pass|)
  {
    var data := pass + rest;
    ParseOne(cx, |pass|, data);
    var cx1 := Next(cx, |pass|).0;
    if data != [] {
      assert data == [data[0]] + data[1..];
      ParseOne(cx1, data[0], data[1..]);
      PassConsumes(Next(cx1, data[0]).0, data[1..]);
    }
  }

  // ---- one byte too many ----

  // What is empty is ended by the first byte behind it. After a greeting without
  // methods this is the byte behind the greeting.
  lemma EmptyGreeting(b: byte, rest: seq<byte>)
    ensures var p := Parse(Init(), Greeting([]) + ([b] + rest)); p.1 == AuthSelect && p.2 == rest
  {
    assert Greeting([]) + ([b] + rest) == [5] + ([0] + ([b] + rest));
    ParseOne(Init(), 5, [0] + ([b] + rest));
    var cx1 := Next(Init(), 5).0;
    ParseOne(cx1, 0, [b] + rest);
    ParseOne(Next(cx1, 0).0, b, rest);
  }

  // With an empty host name the port is read one byte late.
  lemma EmptyHost(cx: Ctx, r: Request, b: byte, rest: seq<byte>)
    requires Valid(cx) && cx.state.ReqVersion? && WellFormed(r) && r.addr == []
    ensures var p := Parse(cx, Encode(r) + ([b] + rest));
      p.1 == ExecCmd && p.2 == rest && p.0.dport == r.port % 256 * 256 + b
  {
    hide Parse, Valid, Kind, Next;
    var hi, lo := r.port / 256, r.port % 256;
    EncodeShape(r, hi, lo, [b] + rest);
    var data := [hi, lo] + ([b] + rest);
    assert r.addr + data == data == [hi] + ([lo, b] + rest);
    HeadRun(cx, r, data);
    LateStep(AtAddress(cx, r), hi, [lo, b] + rest);
    PortRun(Next(AtAddress(cx, r), hi).0, lo, b, rest);
  }

  lemma LateStep(cx: Ctx, hi: byte, rest: seq<byte>)
    requires Valid(cx) && cx.state.ReqDaddr? && cx.arg0 == 0 && cx.arg1 == 0
    ensures var n := Next(cx, hi).0; n.state.ReqDport0? && Parse(cx, [hi] + rest) == Parse(n, rest)
  {
    ParseOne(cx, hi, rest);
  }

  // An empty password is ended by the byte behind the login.
  lemma EmptyPassword(cx: Ctx, user: seq<byte>, b: byte, rest: seq<byte>)
    requires Valid(cx) && cx.state.PwVersion? && 0 < |user| < 256
    ensures var p := Parse(cx, Login(user, []) + ([b] + rest)); p.1 == AuthVerify && p.2 == rest
  {
    hide Parse, Valid, Next;
    var tail := [0] + ([b] + rest);
    assert Login(user, []) + ([b] + rest) == [1] + ([|user|] + (user + tail));
    LoginHead(cx, |user|, user + tail);
    var cx2 := cx.(arg0 := 0, userlen := |user|, state := PwUsername);
    UserRun(cx2, user, tail);
    var u := cx2.username[..0] + user + [0] + cx2.username[cx2.userlen + 1..];
    ZeroPassword(cx2.(username := u, arg0 := cx2.userlen, state := PwPasslen), b, rest);
  }

  lemma LoginHead(cx: Ctx, n: byte, rest: seq<byte>)
    requires Valid(cx) && cx.state.PwVersion?
    ensures var c := cx.(arg0 := 0, userlen := n, state := PwUsername);
      Valid(c) && Parse(cx, [1] + ([n] + rest)) == Parse(c, rest)
  {
    ParseOne(cx, 1, [n] + rest);
    ParseOne(Next(cx, 1).0, n, rest);
  }

  lemma ZeroPassword(cx: Ctx, b: byte, rest: seq<byte>)
    requires Valid(cx) && cx.state.PwPasslen?
    ensures var p := Parse(cx, [0] + ([b] + rest)); p.1 == AuthVerify && p.2 == rest
  {
    ParseOne(cx, 0, [b] + rest);
    ParseOne(Next(cx, 0).0, b, rest);
  }

  // An empty user name is ended by the length of the password, and what comes
  // next is taken for that length.
  lemma EmptyName(cx: Ctx, pass: seq<byte>, rest: seq<byte>)
    requires Valid(cx) && cx.state.PwVersion? && |pass| < 256
    ensures var c := cx.(arg0 := 0, userlen := 0, username := cx.username[0 := 0], state := PwPasslen);
      Valid(c) && Parse(cx, Login([], pass) + rest) == Parse(c, pass + rest)
  {
    hide Parse;
    var tail := [|pass|] + (pass + rest);
    assert Login([], pass) + rest == [1] + ([0] + tail);
    LoginHead(cx, 0, tail);
    ParseOne(cx.(arg0 := 0, userlen := 0, state := PwUsername), |pass|, pass + rest);
  }
}
