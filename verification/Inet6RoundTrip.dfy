// inet_pton6 undoes inet_ntop6, for every address.
module Inet6RoundTrip {
  import opened Inet4
  import opened Inet6
  import opened Sequences

  // Words written with a colon behind, in front, and in between.
  function Colons(ws: seq<word>): string {
    if ws == [] then "" else Hex(ws[0]) + ":" + Colons(ws[1..])
  }

  function Tails(ws: seq<word>): string {
    if ws == [] then "" else ":" + Hex(ws[0]) + Tails(ws[1..])
  }

  function Joined6(ws: seq<word>): string {
    if ws == [] then "" else Hex(ws[0]) + Tails(ws[1..])
  }

  function Bytes(ws: seq<word>): (b: seq<byte>)
    ensures |b| == 2 * |ws|
  {
    if ws == [] then [] else [Hi(ws[0]), Lo(ws[0])] + Bytes(ws[1..])
  }

  // ---- what the printer writes ----

  // Behind the run: colon-prefixed words, then perhaps an embedded address.
  lemma {:induction false} PrintTail(w: seq<word>, v4: string, base: int, len: int, i: nat)
    requires |w| == 8 && 0 < i <= 8 && (base == -1 || (0 <= base && base + len <= i))
    ensures !(Embedded(w, base, len) && i <= 6) ==> Print(w, v4, base, len, i) == Tails(w[i..])
    ensures Embedded(w, base, len) && i <= 6 ==> Print(w, v4, base, len, i) == Tails(w[i..6]) + ":" + v4
    decreases 8 - i
  {
    if i < 8 {
      PrintTail(w, v4, base, len, i + 1);
      assert w[i..][1..] == w[i + 1..];
      if i < 6 {
        assert w[i..6][1..] == w[i + 1..6];
      }
    }
  }

  // The run itself: one colon.
  lemma {:induction false} PrintRun(w: seq<word>, v4: string, base: int, len: int, i: nat)
    requires |w| == 8 && 0 <= base <= i <= base + len <= 8 && len > 0
    ensures Print(w, v4, base, len, i) == (if i == base then ":" else "") + Print(w, v4, base, len, base + len)
    decreases 8 - i
  {
    hide Hex, Embedded;
    if i < base + len {
      PrintRun(w, v4, base, len, i + 1);
    }
  }

  // In front of the run.
  lemma {:induction false} PrintLeft(w: seq<word>, v4: string, base: int, len: int, i: nat)
    requires |w| == 8 && 0 < i <= base && 0 <= len && base + len <= 8
    ensures Print(w, v4, base, len, i) == Tails(w[i..base]) + Print(w, v4, base, len, base)
    decreases 8 - i
  {
    if i < base {
      PrintLeft(w, v4, base, len, i + 1);
      assert w[i..base][1..] == w[i + 1..base];
      assert w[i..base][0] == w[i];
    }
  }

  lemma {:induction false} TailsColons(ws: seq<word>)
    ensures Tails(ws) + ":" == ":" + Colons(ws)
  {
    if ws != [] {
      TailsColons(ws[1..]);
      calc {
        Tails(ws) + ":";
        ":" + Hex(ws[0]) + (Tails(ws[1..]) + ":");
        ":" + Hex(ws[0]) + (":" + Colons(ws[1..]));
        ":" + Colons(ws);
      }
    }
  }

  // The text behind "::".
  function Right(src: seq<byte>, base: int, len: int): string
    requires |src| == 16 && 0 <= base && 0 <= len && base + len <= 8
  {
    var w := Words(src);
    if Embedded(w, base, len) && len <= 6 then Colons(w[len..6]) + Show4(src[12..]) else Joined6(w[base + len..])
  }

  lemma TextPlain(src: seq<byte>, len: int)
    requires |src| == 16
    ensures Text6(src, -1, len) == Joined6(Words(src))
  {
    hide Words, Hex, Tails, Show4;
    var w := Words(src);
    PrintTail(w, Show4(src[12..]), -1, len, 1);
    PrintPlain(w, Show4(src[12..]), len);
  }

  lemma PrintPlain(w: seq<word>, v4: string, len: int)
    requires |w| == 8
    ensures Print(w, v4, -1, len, 0) == Hex(w[0]) + Print(w, v4, -1, len, 1)
  {}

  lemma RightText(src: seq<byte>, base: int, len: int)
    requires |src| == 16 && 0 <= base && 2 <= len && base + len <= 8
    ensures Print(Words(src), Show4(src[12..]), base, len, base + len) + (if base + len == 8 then ":" else "")
      == ":" + Right(src, base, len)
  {
    hide Print, Show4, Hex, Words;
    var w, v4 := Words(src), Show4(src[12..]);
    PrintTail(w, v4, base, len, base + len);
    if Embedded(w, base, len) && len <= 6 {
      EmbeddedText(w[len..6], v4);
    } else if base + len < 8 {
      var ws := w[base + len..];
      Associative(":", Hex(ws[0]), Tails(ws[1..]));
    }
  }

  lemma EmbeddedText(ws: seq<word>, v4: string)
    ensures Tails(ws) + ":" + v4 == ":" + (Colons(ws) + v4)
  {
    hide Tails, Colons;
    TailsColons(ws);
    Associative(":", Colons(ws), v4);
  }

  lemma LeftText(w: seq<word>, base: int)
    requires |w| == 8 && 0 < base <= 8
    ensures Hex(w[0]) + Tails(w[1..base]) + ":" == Colons(w[..base])
  {
    TailsColons(w[1..base]);
    assert w[..base][1..] == w[1..base];
    assert Hex(w[0]) + Tails(w[1..base]) + ":" == Hex(w[0]) + (Tails(w[1..base]) + ":");
  }

  // The printed text with its "::" made visible.
  lemma TextRun(src: seq<byte>, base: int, len: int)
    requires |src| == 16 && 0 <= base && 2 <= len && base + len <= 8
    ensures Text6(src, base, len) ==
      (if base == 0 then ":" else Colons(Words(src)[..base])) + (":" + Right(src, base, len))
  {
    hide Print, Show4, Hex, Right, Tails, Colons, Words;
    var w, v4 := Words(src), Show4(src[12..]);
    var trail := if base + len == 8 then ":" else "";
    var r := Print(w, v4, base, len, base + len);
    PrintRun(w, v4, base, len, base);
    RightText(src, base, len);
    Associative(":", r, trail);
    if base > 0 {
      PrintLeft(w, v4, base, len, 1);
      LeftText(w, base);
      PrintFirst(w, v4, base, len);
      var h, t := Hex(w[0]), Tails(w[1..base]);
      assert h + (t + (":" + r)) + trail == (h + t + ":") + (r + trail);
    }
  }

  lemma PrintFirst(w: seq<word>, v4: string, base: int, len: int)
    requires |w| == 8 && base > 0
    ensures Print(w, v4, base, len, 0) == Hex(w[0]) + Print(w, v4, base, len, 1)
  {}

  // ---- what the parser makes of it ----

  lemma ScanHexDigit(d: int, rest: string, tok: string, out: seq<byte>, colon: Option<nat>, seen: nat, val: nat)
    requires 0 <= d < 16 && seen < 4 && (colon.Some? ==> colon.value <= |out|)
    ensures Scan6([HexDigit(d)] + rest, tok, out, colon, seen, val) ==
      Scan6(rest, tok, out, colon, seen + 1, val * 16 + d)
  {
    assert ([HexDigit(d)] + rest)[1..] == rest;
  }

  lemma {:induction false} ScanHex(w: int, n: nat, rest: string, tok: string, out: seq<byte>, colon: Option<nat>)
    requires 0 <= w && n <= 4 && w < Pow16(n) && n > 0 && (colon.Some? ==> colon.value <= |out|)
    ensures 1 <= |Hex(w)| <= n
      && Scan6(Hex(w) + rest, tok, out, colon, 0, 0) == Scan6(rest, tok, out, colon, |Hex(w)|, w)
    decreases n
  {
    if w < 16 {
      ScanHexDigit(w, rest, tok, out, colon, 0, 0);
    } else {
      var last := [HexDigit(w % 16)] + rest;
      ScanHex(w / 16, n - 1, last, tok, out, colon);
      ScanHexDigit(w % 16, rest, tok, out, colon, |Hex(w / 16)|, w / 16);
      assert Hex(w) + rest == Hex(w / 16) + last;
    }
  }

  function Pow16(n: nat): nat { if n == 0 then 1 else 16 * Pow16(n - 1) }

  lemma ScanColon(rest: string, tok: string, out: seq<byte>, colon: Option<nat>, seen: nat, val: nat)
    requires rest != "" && seen > 0 && |out| + 2 <= 16 && (colon.Some? ==> colon.value <= |out|)
    ensures Scan6(":" + rest, tok, out, colon, seen, val) == Scan6(rest, rest, out + [Hi(val), Lo(val)], colon, 0, 0)
  {
    assert (":" + rest)[1..] == rest;
  }

  lemma ScanDouble(rest: string, tok: string, out: seq<byte>)
    ensures Scan6(":" + rest, tok, out, None, 0, 0) == Scan6(rest, rest, out, Some(|out|), 0, 0)
  {
    assert (":" + rest)[1..] == rest;
  }

  lemma ScanWord(w: word, rest: string, out: seq<byte>, colon: Option<nat>)
    requires rest != "" && |out| + 2 <= 16 && (colon.Some? ==> colon.value <= |out|)
    ensures var s := Hex(w) + (":" + rest);
      Scan6(s, s, out, colon, 0, 0) == Scan6(rest, rest, out + [Hi(w), Lo(w)], colon, 0, 0)
  {
    hide Scan6, Hex;
    assert Pow16(4) == 0x10000;
    var s := Hex(w) + (":" + rest);
    ScanHex(w, 4, ":" + rest, s, out, colon);
    ScanColon(rest, s, out, colon, |Hex(w)|, w);
  }

  lemma {:induction false} ScanColons(ws: seq<word>, rest: string, out: seq<byte>, colon: Option<nat>)
    requires rest != "" && |out| + 2 * |ws| <= 16 && (colon.Some? ==> colon.value <= |out|)
    ensures var s := Colons(ws) + rest; Scan6(s, s, out, colon, 0, 0) == Scan6(rest, rest, out + Bytes(ws), colon, 0, 0)
    decreases |ws|
  {
    hide Scan6, Hex, Pow16, Hi, Lo;
    if ws == [] {
      assert Colons(ws) + rest == rest && out + Bytes(ws) == out;
    } else {
      var w, tail, two := ws[0], Colons(ws[1..]) + rest, [Hi(ws[0]), Lo(ws[0])];
      ScanWord(w, tail, out, colon);
      ScanColons(ws[1..], rest, out + two, colon);
      ColonsStep(ws, rest, out);
    }
  }

  lemma ColonsStep(ws: seq<word>, rest: string, out: seq<byte>)
    requires ws != []
    ensures Colons(ws) + rest == Hex(ws[0]) + (":" + (Colons(ws[1..]) + rest))
    ensures out + Bytes(ws) == out + [Hi(ws[0]), Lo(ws[0])] + Bytes(ws[1..])
  {
    hide Hex, Hi, Lo;
  }

  lemma {:induction false} JoinedColons(ws: seq<word>)
    requires ws != []
    ensures Joined6(ws) == Colons(ws[..|ws| - 1]) + Hex(ws[|ws| - 1])
    ensures Bytes(ws) == Bytes(ws[..|ws| - 1]) + [Hi(ws[|ws| - 1]), Lo(ws[|ws| - 1])]
    decreases |ws|
  {
    hide Hex;
    var n := |ws| - 1;
    if n > 0 {
      JoinedColons(ws[1..]);
      assert ws[..n][1..] == ws[1..][..n - 1] && ws[1..][n - 1] == ws[n] && ws[..n][0] == ws[0];
      assert Tails(ws[1..]) == ":" + Joined6(ws[1..]);
      calc {
        Joined6(ws);
        Hex(ws[0]) + (":" + (Colons(ws[..n][1..]) + Hex(ws[n])));
        (Hex(ws[0]) + ":" + Colons(ws[..n][1..])) + Hex(ws[n]);
      }
    } else {
      assert ws[1..] == [] && ws[..n] == [];
    }
  }

  lemma ScanEnd6(tok: string, out: seq<byte>, colon: Option<nat>, seen: nat, val: nat)
    requires (seen > 0 ==> |out| + 2 <= 16) && (colon.Some? ==> colon.value <= |out|)
    ensures Scan6("", tok, out, colon, seen, val) ==
      Finish6(out + if seen > 0 then [Hi(val), Lo(val)] else [], colon, 0, 0)
  {
    assert out + [] == out;
  }

  lemma NoWords()
    ensures Joined6([]) == "" && Bytes([]) == []
  {}

  // The last words of the text.
  lemma ScanLast(ws: seq<word>, out: seq<byte>, colon: Option<nat>)
    requires |out| + 2 * |ws| <= 16 && (colon.Some? ==> colon.value <= |out|)
    ensures var s := Joined6(ws); Scan6(s, s, out, colon, 0, 0) == Finish6(out + Bytes(ws), colon, 0, 0)
  {
    hide Hex, Scan6, Finish6, Tails, Colons, Joined6, Bytes, Hi, Lo;
    if ws == [] {
      NoWords();
      ScanEnd6("", out, colon, 0, 0);
    } else {
      var l, init := ws[|ws| - 1], ws[..|ws| - 1];
      var mid := out + Bytes(init);
      JoinedColons(ws);
      assert Hex(l) + "" == Hex(l);
      assert Pow16(4) == 0x10000;
      ScanHex(l, 4, "", Hex(l), mid, colon);
      ScanColons(init, Hex(l), out, colon);
      ScanEnd6(Hex(l), mid, colon, |Hex(l)|, l);
      assert out + (Bytes(init) + [Hi(l), Lo(l)]) == mid + [Hi(l), Lo(l)];
    }
  }

  // An embedded address: its first octet is read as hexadecimal, then read again.
  lemma DecDigits(b: byte, rest: string, tok: string, out: seq<byte>, colon: Option<nat>) returns (val: nat)
    requires colon.Some? ==> colon.value <= |out|
    ensures Scan6(Dec(b) + rest, tok, out, colon, 0, 0) == Scan6(rest, tok, out, colon, |Dec(b)|, val) && |Dec(b)| > 0
  {
    if b < 10 {
      assert DecDigit(b) == HexDigit(b);
      ScanHexDigit(b, rest, tok, out, colon, 0, 0);
      val := b;
    } else if b < 100 {
      TwoDigits(b, rest, tok, out, colon);
      val := b / 10 * 16 + b % 10;
    } else {
      var x := b / 10;
      var last := [DecDigit(b % 10)] + rest;
      assert Dec(b) + rest == Dec(x) + last && |Dec(b)| == |Dec(x)| + 1;
      TwoDigits(x, last, tok, out, colon);
      val := (x / 10 * 16 + x % 10) * 16 + b % 10;
      assert DecDigit(b % 10) == HexDigit(b % 10);
      ScanHexDigit(b % 10, rest, tok, out, colon, 2, x / 10 * 16 + x % 10);
    }
  }

  lemma TwoDigits(b: int, rest: string, tok: string, out: seq<byte>, colon: Option<nat>)
    requires 10 <= b < 100 && (colon.Some? ==> colon.value <= |out|)
    ensures |Dec(b)| == 2
      && Scan6(Dec(b) + rest, tok, out, colon, 0, 0) == Scan6(rest, tok, out, colon, 2, b / 10 * 16 + b % 10)
  {
    assert DecDigit(b / 10) == HexDigit(b / 10) && DecDigit(b % 10) == HexDigit(b % 10);
    var last := [DecDigit(b % 10)] + rest;
    assert Dec(b) + rest == [DecDigit(b / 10)] + last;
    ScanHexDigit(b / 10, last, tok, out, colon, 0, 0);
    ScanHexDigit(b % 10, rest, tok, out, colon, 1, b / 10);
  }

  lemma ScanV4(a: seq<byte>, out: seq<byte>, colon: Option<nat>)
    requires |a| == 4 && |out| + 4 <= 16 && (colon.Some? ==> colon.value <= |out|)
    ensures Scan6(Show4(a), Show4(a), out, colon, 0, 0) == Finish6(out + a, colon, 0, 0)
  {
    hide Scan4, Dec;
    var s, rest := Show4(a), "." + (Dec(a[1]) + "." + Dec(a[2]) + "." + Dec(a[3]));
    assert s == Dec(a[0]) + rest;
    var val := DecDigits(a[0], rest, s, out, colon);
    Inverse4(s, a);
    ScanDotV4(rest, s, a, out, colon, |Dec(a[0])|, val);
  }

  lemma ScanDotV4(rest: string, tok: string, a: seq<byte>, out: seq<byte>, colon: Option<nat>, seen: nat, val: nat)
    requires rest != "" && rest[0] == '.' && Scan4(tok, [], 0, false) == Ok(a) && |out| + 4 <= 16 && |a| == 4
    requires colon.Some? ==> colon.value <= |out|
    ensures Scan6(rest, tok, out, colon, seen, val) == Finish6(out + a, colon, 0, 0)
  {
    hide Scan4;
  }

  // What "::" expands to.
  lemma ScanRight(src: seq<byte>, base: int, len: int, out: seq<byte>)
    requires |src| == 16 && 0 <= base && 2 <= len && base + len <= 8 && |out| == 2 * base
    ensures var r := Right(src, base, len);
      Scan6(r, r, out, Some(2 * base), 0, 0) == Finish6(out + src[2 * (base + len)..], Some(2 * base), 0, 0)
  {
    hide Scan6, Finish6, Show4, Hex, Words, Joined6, Colons, Bytes;
    var w := Words(src);
    if Embedded(w, base, len) && len <= 6 {
      assert out == [];
      ScanEmbedded(w[len..6], src[12..]);
      WordBytes(src, len, 6);
      assert src[2 * len..12] + src[12..] == out + src[2 * len..];
    } else {
      ScanLast(w[base + len..], out, Some(2 * base));
      WordBytes(src, base + len, 8);
      assert src[2 * (base + len)..16] == src[2 * (base + len)..];
      assert w[base + len..8] == w[base + len..];
    }
  }

  lemma ScanEmbedded(ws: seq<word>, a: seq<byte>)
    requires |a| == 4 && |ws| <= 6
    ensures var r := Colons(ws) + Show4(a); Scan6(r, r, [], Some(0), 0, 0) == Finish6(Bytes(ws) + a, Some(0), 0, 0)
  {
    hide Scan6, Finish6, Show4, Colons, Bytes, Dec;
    var t, out := Show4(a), Bytes(ws);
    Show4Length(a);
    assert [] + out == out;
    ScanColons(ws, t, [], Some(0));
    ScanV4(a, out, Some(0));
  }

  lemma {:induction false} WordBytes(src: seq<byte>, i: nat, j: nat)
    requires |src| == 16 && i <= j <= 8
    ensures Bytes(Words(src)[i..j]) == src[2 * i..2 * j]
    decreases j - i
  {
    var w := Words(src);
    if i < j {
      WordBytes(src, i + 1, j);
      assert w[i..j][1..] == w[i + 1..j] && w[i..j][0] == Word(src[2 * i], src[2 * i + 1]);
      HiLo(src[2 * i], src[2 * i + 1]);
      assert src[2 * i..2 * j] == [src[2 * i], src[2 * i + 1]] + src[2 * (i + 1)..2 * j];
    }
  }

  lemma HiLo(hi: byte, lo: byte)
    ensures Hi(Word(hi, lo)) == hi && Lo(Word(hi, lo)) == lo
  {}

  // Every address survives being printed and parsed.
  lemma RoundTrip(src: seq<byte>, base: int, len: int)
    requires |src| == 16 && Best(Words(src), base, len) && -1 <= base
    ensures Parse6(Text6(src, base, len)) == Ok(src)
  {
    var w := Words(src);
    if base == -1 {
      PlainTrip(src, len);
    } else {
      RunTrip(src, base, len);
    }
  }

  lemma PlainTrip(src: seq<byte>, len: int)
    requires |src| == 16
    ensures Parse6(Text6(src, -1, len)) == Ok(src)
  {
    hide Scan6, Hex;
    var w := Words(src);
    TextPlain(src, len);
    ScanLast(w, [], None);
    WordBytes(src, 0, 8);
    assert w[0..8] == w && src[0..16] == src && [] + Bytes(w) == src;
    HexStart(w[0], Tails(w[1..]));
  }

  lemma HexStart(w: word, rest: string)
    ensures |Hex(w)| > 0 && (Hex(w) + rest)[0] != ':'
  {
    if w >= 16 {
      HexStart(w / 16, [HexDigit(w % 16)] + rest);
      assert Hex(w) + rest == Hex(w / 16) + ([HexDigit(w % 16)] + rest);
    }
  }

  lemma RunTrip(src: seq<byte>, base: int, len: int)
    requires |src| == 16 && 0 <= base && 2 <= len && Zeros(Words(src), base, len)
    ensures Parse6(Text6(src, base, len)) == Ok(src)
  {
    hide Scan6, Right, Finish6, Words, Text6, Bytes, Colons;
    var left, r := Words(src)[..base], Right(src, base, len);
    TextRun(src, base, len);
    ScanRight(src, base, len, Bytes(left));
    FinishRun(src, base, len);
    if base == 0 {
      ParseLeading(r);
      assert Bytes(left) == [];
    } else {
      ParseLeft(left, r);
    }
  }

  lemma ParseLeading(r: string)
    ensures Parse6(":" + (":" + r)) == Scan6(r, r, [], Some(0), 0, 0)
  {
    hide Scan6;
    assert (":" + (":" + r))[1..] == ":" + r;
    ScanDouble(r, ":" + r, []);
  }

  lemma ParseLeft(left: seq<word>, r: string)
    requires 0 < |left| <= 8
    ensures Parse6(Colons(left) + (":" + r)) == Scan6(r, r, Bytes(left), Some(2 * |left|), 0, 0)
  {
    hide Scan6, Hex, Bytes;
    var t := Colons(left) + (":" + r);
    HexStart(left[0], ":" + Colons(left[1..]) + (":" + r));
    assert t == Hex(left[0]) + (":" + Colons(left[1..]) + (":" + r));
    ScanColons(left, ":" + r, [], None);
    assert [] + Bytes(left) == Bytes(left);
    ScanDouble(r, ":" + r, Bytes(left));
  }

  lemma WordAt(src: seq<byte>, k: nat)
    requires |src| == 16 && k < 8
    ensures Words(src)[k] == 0 ==> src[2 * k] == 0 && src[2 * k + 1] == 0
  {
    assert Words(src)[k] == Word(src[2 * k], src[2 * k + 1]);
  }

  lemma FinishRun(src: seq<byte>, base: int, len: int)
    requires |src| == 16 && 0 <= base && 2 <= len && Zeros(Words(src), base, len)
    ensures Finish6(Bytes(Words(src)[..base]) + src[2 * (base + len)..], Some(2 * base), 0, 0) == Ok(src)
  {
    hide Words, Bytes;
    var w, e := Words(src), base + len;
    WordBytes(src, 0, base);
    assert w[0..base] == w[..base];
    forall k | 2 * base <= k < 2 * e ensures src[k] == 0 {
      WordAt(src, k / 2);
    }
    FinishZeros(src, 2 * base, 2 * e);
  }

  lemma FinishZeros(src: seq<byte>, i: nat, j: nat)
    requires |src| == 16 && i < j <= 16 && forall k :: i <= k < j ==> src[k] == 0
    ensures Finish6(src[0..i] + src[j..], Some(i), 0, 0) == Ok(src)
  {
    var out := src[0..i] + src[j..];
    assert out[..i] == src[..i] && out[i..] == src[j..] && |out| == 16 - (j - i);
    assert src == src[..i] + seq(j - i, k => 0) + src[j..];
  }

  lemma {:induction false} NoNul(w: seq<word>, v4: string, base: int, len: int, i: nat)
    requires |w| == 8 && i <= 8 && '\0' !in v4
    ensures '\0' !in Print(w, v4, base, len, i)
    decreases 8 - i
  {
    if i < 8 {
      HexLength(w[i]);
      NoNul(w, v4, base, len, i + 1);
    }
  }

  // inet_ntop6 into a buffer of UV__INET6_ADDRSTRLEN characters, then inet_pton6 of the result.
  method PrintThenParse(src: seq<byte>) returns (r: Result<seq<byte>>)
    requires |src| == 16
    ensures r == Ok(src)
  {
    hide Print, Show4, Words, Parse6, Best;
    var dst := new char[46];
    var printed;
    ghost var base, len;
    printed, base, len := Ntop6(src, dst);
    RoundTrip(src, base, len);
    Show4Length(src[12..]);
    NoNul(Words(src), Show4(src[12..]), base, len, 0);
    var n := 0;
    while dst[n] != '\0'
      decreases 46 - n
      invariant n <= |Text6(src, base, len)| && forall k :: 0 <= k < n ==> dst[k] != '\0'
    {
      n := n + 1;
    }
    assert n == |Text6(src, base, len)|;
    r := Pton6(dst[..n]);
  }
}
