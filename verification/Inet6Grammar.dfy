// The texts inet_pton6 accepts, as section 2.2 of RFC 4291 describes them:
// groups of hexadecimal digits with colons between them, the last two perhaps
// as a dotted IPv4 address, and at one place perhaps "::" for missing groups.
module Inet6Grammar {
  import opened Inet4
  import opened Inet6
  import opened Inet6RoundTrip
  import InetDigits
  import opened Sequences

  predicate Digits(g: string) { forall i :: 0 <= i < |g| ==> InetDigits.Digit(g[i]) >= 0 }

  predicate Group(g: string) { 1 <= |g| <= 4 && Digits(g) }

  predicate Groups(gs: seq<string>) { forall i :: 0 <= i < |gs| ==> Group(gs[i]) }

  // The number that the digits behind those of v make.
  function Number(v: nat, g: string): nat
    requires Digits(g)
    decreases |g|
  {
    if g == "" then v else Number(v * 16 + InetDigits.Digit(g[0]), g[1..])
  }

  // The two bytes of a group, the more significant one first.
  function Two(g: string): seq<byte>
    requires Digits(g)
  {
    [Number(0, g) / 256 % 256, Number(0, g) % 256]
  }

  lemma TwoBytes(g: string)
    requires Digits(g)
    ensures Two(g) == [Hi(Number(0, g)), Lo(Number(0, g))]
  {
    hide Number, Digits;
  }

  function Numbers(gs: seq<string>): seq<byte>
    requires Groups(gs)
  {
    if gs == [] then [] else Two(gs[0]) + Numbers(gs[1..])
  }

  predicate Quad(quad: Option<seq<byte>>) { quad.Some? ==> |quad.value| == 4 }

  // What stands on one side of "::", or the whole text without it.
  function Side(gs: seq<string>, quad: Option<seq<byte>>): string
    requires Quad(quad)
  {
    if gs == [] then
      if quad.None? then "" else Show4(quad.value)
    else if |gs| == 1 && quad.None? then gs[0]
    else gs[0] + (":" + Side(gs[1..], quad))
  }

  function Value(gs: seq<string>, quad: Option<seq<byte>>): seq<byte>
    requires Groups(gs) && Quad(quad)
  {
    Numbers(gs) + if quad.Some? then quad.value else []
  }

  // Groups with a colon behind each.
  function Front(l: seq<string>): string {
    if l == [] then "" else l[0] + (":" + Front(l[1..]))
  }

  ghost predicate Full(s: string, a: seq<byte>) {
    |a| == 16 && exists gs, quad :: Groups(gs) && Quad(quad) && s == Side(gs, quad) && a == Value(gs, quad)
  }

  // With "::", which stands for one group at least.
  ghost predicate Short(s: string, a: seq<byte>) {
    exists l, gs, quad :: ShortAs(s, a, l, gs, quad)
  }

  ghost predicate ShortAs(s: string, a: seq<byte>, l: seq<string>, gs: seq<string>, quad: Option<seq<byte>>) {
    && Groups(l) && Groups(gs) && Quad(quad)
    && s == (if l == [] then ":" else Front(l)) + (":" + Side(gs, quad))
    && var left, right := Numbers(l), Value(gs, quad);
    && |left| + |right| < 16
    && a == left + seq(16 - |left| - |right|, i => 0) + right
  }

  // ---- at the start of a token ----

  // The rest s ends the text, with out and colon before it.
  ghost predicate Ends(s: string, out: seq<byte>, colon: Option<nat>, a: seq<byte>)
    requires colon.Some? ==> colon.value <= |out|
  {
    exists gs, quad :: EndsAs(s, out, colon, a, gs, quad)
  }

  ghost predicate EndsAs(s: string, out: seq<byte>, colon: Option<nat>, a: seq<byte>, gs: seq<string>,
    quad: Option<seq<byte>>)
    requires colon.Some? ==> colon.value <= |out|
  {
    && Groups(gs) && Quad(quad) && s == Side(gs, quad)
    && Finish6(out + Value(gs, quad), colon, 0, 0) == Ok(a)
  }

  // There is a "::" to come, the first colon of which may have been read.
  ghost predicate Open(s: string, out: seq<byte>, a: seq<byte>) {
    exists l, rest :: OpenAs(s, out, a, l, rest)
  }

  ghost predicate OpenAs(s: string, out: seq<byte>, a: seq<byte>, l: seq<string>, rest: string) {
    && Groups(l) && s == Front(l) + (":" + rest)
    && Ends(rest, out + Numbers(l), Some(|out + Numbers(l)|), a)
  }

  // ---- the scan over the digits of a group ----

  lemma {:induction false} ScanDigits(g: string, rest: string, tok: string, out: seq<byte>, colon: Option<nat>,
    seen: nat, val: nat)
    requires Digits(g) && (colon.Some? ==> colon.value <= |out|)
    ensures seen + |g| <= 4 ==>
      Scan6(g + rest, tok, out, colon, seen, val) == Scan6(rest, tok, out, colon, seen + |g|, Number(val, g))
    ensures seen <= 4 < seen + |g| ==> Scan6(g + rest, tok, out, colon, seen, val) == EInval
    decreases |g|
  {
    hide InetDigits.Digit;
    if g == "" {
      assert g + rest == rest;
    } else {
      assert (g + rest)[1..] == g[1..] + rest;
      InetDigits.HexValueExact(g[0]);
      ScanDigits(g[1..], rest, tok, out, colon, seen + 1, val * 16 + HexValue(g[0]));
    }
  }

  // How many digits the text begins with.
  function Run(s: string): (n: nat)
    ensures n <= |s| && Digits(s[..n]) && (n < |s| ==> InetDigits.Digit(s[n]) < 0)
  {
    if s == "" || InetDigits.Digit(s[0]) < 0 then 0
    else
      var n := Run(s[1..]) + 1;
      assert forall i :: 1 <= i < n ==> s[..n][i] == s[1..][..n - 1][i - 1];
      n
  }

  lemma LastGroup(out: seq<byte>, colon: Option<nat>, g: string)
    requires Group(g) && (colon.Some? ==> colon.value <= |out|)
    ensures Groups([g]) && Side([g], None) == g
    ensures Finish6(out, colon, |g|, Number(0, g)) == Finish6(out + Value([g], None), colon, 0, 0)
  {
    hide Hi, Lo, Number, Digits, Two;
    TwoBytes(g);
    assert [g][1..] == [] && Numbers([g]) == Two(g) + Numbers([]);
    assert out + Value([g], None) == out + Two(g) && out + Two(g) + [] == out + Two(g);
  }

  // A group and a colon before what follows.
  lemma OneMore(g: string, gs: seq<string>, quad: Option<seq<byte>>, out: seq<byte>)
    requires Group(g) && Groups(gs) && Quad(quad)
    ensures Groups([g] + gs) && Front([g] + gs) == g + (":" + Front(gs))
    ensures out + Numbers([g] + gs) == out + Two(g) + Numbers(gs)
    ensures out + Value([g] + gs, quad) == out + Two(g) + Value(gs, quad)
    ensures Side(gs, quad) != "" ==> Side([g] + gs, quad) == g + (":" + Side(gs, quad))
  {
    hide Two, Show4, Digits;
    var all, q := [g] + gs, if quad.Some? then quad.value else [];
    assert all[0] == g && all[1..] == gs;
    Associative(out, Two(g), Numbers(gs));
    Associative(Two(g), Numbers(gs), q);
    Associative(out, Two(g), Numbers(gs) + q);
  }

  // ---- what is accepted is described ----

  lemma {:induction false} Sound(s: string, out: seq<byte>, colon: Option<nat>, a: seq<byte>)
    requires (colon.Some? ==> colon.value <= |out|) && Scan6(s, s, out, colon, 0, 0) == Ok(a)
    ensures Ends(s, out, colon, a) || (colon.None? && Open(s, out, a))
    decreases |s|
  {
    hide Finish6, Scan4, Show4, Hi, Lo, Two, Number, InetDigits.Digit;
    var n := Run(s);
    var g, rest := s[..n], s[n..];
    assert s == g + rest;
    ScanDigits(g, rest, s, out, colon, 0, 0);
    TwoBytes(g);
    if rest != "" {
      InetDigits.HexValueExact(rest[0]);
    }
    if rest == "" {
      assert g == s;
      SoundEnd(g, out, colon, a);
    } else if rest[0] == ':' {
      assert rest == ":" + rest[1..];
      if n == 0 {
        Sound(rest[1..], out, Some(|out|), a);
        SoundDouble(rest[1..], out, a);
      } else {
        Sound(rest[1..], out + Two(g), colon, a);
        SoundGroup(g, rest[1..], out, colon, a);
      }
    } else {
      SoundQuad(s, out, colon, Number(0, g), a);
    }
  }

  lemma SoundEnd(g: string, out: seq<byte>, colon: Option<nat>, a: seq<byte>)
    requires Digits(g) && |g| <= 4 && (colon.Some? ==> colon.value <= |out|)
    requires Finish6(out, colon, |g|, Number(0, g)) == Ok(a)
    ensures Ends(g, out, colon, a)
  {
    hide Number, InetDigits.Digit, Two, Hi, Lo;
    if g == "" {
      assert out + Value([], None) == out;
      assert EndsAs(g, out, colon, a, [], None);
    } else {
      LastGroup(out, colon, g);
      assert EndsAs(g, out, colon, a, [g], None);
    }
  }

  lemma SoundDouble(rest: string, out: seq<byte>, a: seq<byte>)
    requires Ends(rest, out, Some(|out|), a)
    ensures Open(":" + rest, out, a)
  {
    assert out + Numbers([]) == out && Front([]) + (":" + rest) == ":" + rest;
    assert OpenAs(":" + rest, out, a, [], rest);
  }

  lemma SoundGroup(g: string, rest: string, out: seq<byte>, colon: Option<nat>, a: seq<byte>)
    requires Group(g) && rest != "" && (colon.Some? ==> colon.value <= |out|)
    requires Ends(rest, out + Two(g), colon, a) || (colon.None? && Open(rest, out + Two(g), a))
    ensures Ends(g + (":" + rest), out, colon, a) || (colon.None? && Open(g + (":" + rest), out, a))
  {
    hide Finish6, Value, Numbers, Side, Front, Two;
    if Ends(rest, out + Two(g), colon, a) {
      var gs, quad :| EndsAs(rest, out + Two(g), colon, a, gs, quad);
      OneMore(g, gs, quad, out);
      assert EndsAs(g + (":" + rest), out, colon, a, [g] + gs, quad);
    } else {
      var l, r :| OpenAs(rest, out + Two(g), a, l, r);
      OneMore(g, l, None, out);
      assert g + (":" + (Front(l) + (":" + r))) == (g + (":" + Front(l))) + (":" + r);
      assert OpenAs(g + (":" + rest), out, a, [g] + l, r);
    }
  }

  lemma SoundQuad(s: string, out: seq<byte>, colon: Option<nat>, val: nat, a: seq<byte>)
    requires colon.Some? ==> colon.value <= |out|
    requires Scan4(s, [], 0, false).Ok? && Finish6(out + Scan4(s, [], 0, false).value, colon, 0, val) == Ok(a)
    ensures Ends(s, out, colon, a)
  {
    hide Scan4, Show4;
    Accepts4(s);
    var q := Scan4(s, [], 0, false).value;
    assert Value([], Some(q)) == q;
    assert EndsAs(s, out, colon, a, [], Some(q));
  }

  // ---- what is described is accepted ----

  lemma {:induction false} Complete(gs: seq<string>, quad: Option<seq<byte>>, out: seq<byte>, colon: Option<nat>,
    a: seq<byte>)
    requires Groups(gs) && Quad(quad) && (colon.Some? ==> colon.value <= |out|)
    requires Finish6(out + Value(gs, quad), colon, 0, 0) == Ok(a)
    ensures var s := Side(gs, quad); Scan6(s, s, out, colon, 0, 0) == Ok(a)
    decreases |gs|
  {
    hide Scan6, Show4, Hi, Lo, Two, Number, Digits;
    if gs == [] && quad.None? {
      assert out + Value(gs, quad) == out;
      ScanEnd6("", out, colon, 0, 0);
    } else if gs == [] {
      assert out + Value(gs, quad) == out + quad.value;
      ScanV4(quad.value, out, colon);
    } else {
      var g, s := gs[0], Side(gs, quad);
      assert gs == [g] + gs[1..] && Group(g);
      TwoBytes(g);
      OneMore(g, gs[1..], quad, out);
      if |gs| == 1 && quad.None? {
        ScanDigits(g, "", s, out, colon, 0, 0);
        assert g + "" == g;
        ScanEnd6(s, out, colon, |g|, Number(0, g));
        assert Value([], None) == [] && out + Two(g) + [] == out + Two(g);
      } else {
        var rest := Side(gs[1..], quad);
        ScanDigits(g, ":" + rest, s, out, colon, 0, 0);
        SideStart(gs[1..], quad);
        ScanColon(rest, s, out, colon, |g|, Number(0, g));
        Complete(gs[1..], quad, out + Two(g), colon, a);
      }
    }
  }

  // Only nothing is written as nothing, and no side begins with a colon.
  lemma SideStart(gs: seq<string>, quad: Option<seq<byte>>)
    requires Groups(gs) && Quad(quad)
    ensures Side(gs, quad) == "" <==> gs == [] && quad.None?
    ensures Side(gs, quad) != "" ==> Side(gs, quad)[0] != ':'
    ensures gs != [] ==> Front(gs) != "" && Front(gs)[0] != ':'
  {
    if gs != [] {
      assert Group(gs[0]);
      InetDigits.HexValueExact(gs[0][0]);
    } else if quad.Some? {
      DecStart(quad.value[0]);
    }
  }

  lemma {:induction false} DecStart(b: int)
    requires 0 <= b
    ensures Dec(b) != "" && Dec(b)[0] != ':'
    decreases b
  {
    if b >= 10 {
      DecStart(b / 10);
    }
  }

  lemma {:induction false} CompleteOpen(l: seq<string>, rest: string, out: seq<byte>, a: seq<byte>)
    requires Groups(l) && Ends(rest, out + Numbers(l), Some(|out + Numbers(l)|), a)
    ensures var s := Front(l) + (":" + rest); Scan6(s, s, out, None, 0, 0) == Ok(a)
    decreases |l|
  {
    hide Scan6, Hi, Lo, Two, Number, Digits;
    var s := Front(l) + (":" + rest);
    if l == [] {
      assert out + Numbers(l) == out && s == ":" + rest;
      ScanDouble(rest, s, out);
      var gs, quad :| EndsAs(rest, out, Some(|out|), a, gs, quad);
      Complete(gs, quad, out, Some(|out|), a);
    } else {
      var g, tail := l[0], Front(l[1..]) + (":" + rest);
      assert l == [g] + l[1..] && Group(g);
      TwoBytes(g);
      OneMore(g, l[1..], None, out);
      assert s == g + (":" + tail);
      ScanDigits(g, ":" + tail, s, out, None, 0, 0);
      ScanColon(tail, s, out, None, |g|, Number(0, g));
      CompleteOpen(l[1..], rest, out + Two(g), a);
    }
  }

  // ---- the whole text ----

  // At the start of a token, before any "::".
  lemma AtStart(s: string, a: seq<byte>)
    ensures Scan6(s, s, [], None, 0, 0) == Ok(a) <==> Ends(s, [], None, a) || Open(s, [], a)
  {
    hide Scan6, Finish6;
    if Scan6(s, s, [], None, 0, 0) == Ok(a) {
      Sound(s, [], None, a);
    }
    if Ends(s, [], None, a) {
      var gs, quad :| EndsAs(s, [], None, a, gs, quad);
      Complete(gs, quad, [], None, a);
    }
    if Open(s, [], a) {
      var l, rest :| OpenAs(s, [], a, l, rest);
      CompleteOpen(l, rest, [], a);
    }
  }

  lemma FullIsEnds(s: string, a: seq<byte>)
    ensures Full(s, a) <==> Ends(s, [], None, a)
    ensures s != "" && s[0] == ':' ==> !Full(s, a)
  {
    if Full(s, a) {
      var gs, quad :| Groups(gs) && Quad(quad) && s == Side(gs, quad) && a == Value(gs, quad);
      SideStart(gs, quad);
      assert [] + a == a;
      assert EndsAs(s, [], None, a, gs, quad);
    }
    if Ends(s, [], None, a) {
      var gs, quad :| EndsAs(s, [], None, a, gs, quad);
      assert [] + Value(gs, quad) == Value(gs, quad);
    }
  }

  // What "::" adds.
  lemma Expanded(left: seq<byte>, right: seq<byte>, a: seq<byte>)
    ensures Finish6(left + right, Some(|left|), 0, 0) == Ok(a) <==>
      |left| + |right| < 16 && a == left + seq(16 - |left| - |right|, i => 0) + right
  {
    assert (left + right)[..|left|] == left && (left + right)[|left|..] == right;
  }

  // A text that begins with "::" has it first; in any other it comes after groups.
  lemma DoubleColon(s: string, l: seq<string>, rest: string)
    requires Groups(l)
    ensures s == (if l == [] then ":" else Front(l)) + (":" + rest) <==>
      if s != "" && s[0] == ':' then |s| > 1 && s[1] == ':' && s[1..] == Front(l) + (":" + rest)
      else s == Front(l) + (":" + rest)
  {
    hide Groups;
    SideStart(l, None);
    var f := Front(l);
    if l != [] {
      assert (f + (":" + rest))[0] == f[0];
    } else {
      assert f + (":" + rest) == ":" + rest;
      if s != "" && s[0] == ':' {
        assert s == [s[0]] + s[1..];
        assert s[1..] == ":" + rest <==> s == ":" + (":" + rest);
      }
    }
  }

  // The part of the text that is scanned from a token on.
  function Scanned(s: string): string { if s != "" && s[0] == ':' then s[1..] else s }

  predicate Opens(s: string) { s != "" && s[0] == ':' ==> |s| > 1 && s[1] == ':' }

  lemma ShortSplit(s: string, a: seq<byte>, l: seq<string>, gs: seq<string>, quad: Option<seq<byte>>)
    requires Groups(l) && Groups(gs) && Quad(quad)
    ensures ShortAs(s, a, l, gs, quad) <==>
      && Opens(s) && Scanned(s) == Front(l) + (":" + Side(gs, quad))
      && EndsAs(Side(gs, quad), Numbers(l), Some(|Numbers(l)|), a, gs, quad)
  {
    hide Finish6, Value, Numbers, Side, Front, Groups;
    DoubleColon(s, l, Side(gs, quad));
    Expanded(Numbers(l), Value(gs, quad), a);
  }

  lemma ShortIsOpen(s: string, a: seq<byte>)
    ensures Short(s, a) <==> Opens(s) && Open(Scanned(s), [], a)
  {
    hide Finish6, Value, Numbers, Side, Front, Groups, Opens, Scanned;
    var t := Scanned(s);
    if Short(s, a) {
      var l, gs, quad :| ShortAs(s, a, l, gs, quad);
      ShortSplit(s, a, l, gs, quad);
      assert [] + Numbers(l) == Numbers(l);
      assert OpenAs(t, [], a, l, Side(gs, quad));
    }
    if Opens(s) && Open(t, [], a) {
      var l, rest :| OpenAs(t, [], a, l, rest);
      assert [] + Numbers(l) == Numbers(l);
      var gs, quad :| EndsAs(rest, Numbers(l), Some(|Numbers(l)|), a, gs, quad);
      ShortSplit(s, a, l, gs, quad);
      assert ShortAs(s, a, l, gs, quad);
    }
  }

  // inet_pton6 accepts exactly the texts described, with the address they say.
  lemma Accepts6(s: string, a: seq<byte>)
    ensures Parse6(s) == Ok(a) <==> Full(s, a) || Short(s, a)
  {
    hide Scan6, Full, Short, Open, Ends;
    AtStart(Scanned(s), a);
    FullIsEnds(Scanned(s), a);
    FullIsEnds(s, a);
    ShortIsOpen(s, a);
  }

  // What inet_ntop6 writes for an address is one of the texts that describe it.
  lemma Printed(src: seq<byte>, base: int, len: int)
    requires |src| == 16 && Best(Words(src), base, len) && -1 <= base
    ensures Full(Text6(src, base, len), src) || Short(Text6(src, base, len), src)
  {
    hide Full, Short, Parse6, Text6, Best;
    RoundTrip(src, base, len);
    Accepts6(Text6(src, base, len), src);
  }
}
