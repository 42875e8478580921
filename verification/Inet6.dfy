// inet.c, the IPv6 half: inet_ntop6 and inet_pton6 (section 2.2 of RFC 4291,
// section 4.2 of RFC 5952).
module Inet6 {
  import opened Inet4
  import opened Sequences

  type word = x: int | 0 <= x < 0x10000

  // sprintf's "%x".
  function Hex(w: int): string
    requires 0 <= w
    decreases w
  {
    if w < 16 then [HexDigit(w)] else Hex(w / 16) + [HexDigit(w % 16)]
  }

  function HexDigit(d: int): char
    requires 0 <= d < 16
  {
    if d < 10 then '0' + d as char else 'a' + (d - 10) as char
  }

  // The index strchr finds in xdigits_l or xdigits_u, or -1.
  function HexValue(c: char): int {
    if '0' <= c <= '9' then c as int - '0' as int
    else if 'a' <= c <= 'f' then c as int - 'a' as int + 10
    else if 'A' <= c <= 'F' then c as int - 'A' as int + 10
    else -1
  }

  function Hi(v: nat): byte { v / 256 % 256 }

  function Lo(v: nat): byte { v % 256 }

  function Word(hi: byte, lo: byte): word { 256 * (hi as int) + lo as int }

  function Words(src: seq<byte>): (w: seq<word>)
    requires |src| == 16
    ensures |w| == 8
  {
    seq(8, i requires 0 <= i < 8 => Word(src[2 * i], src[2 * i + 1]))
  }

  // ---- printing ----

  // The words from base on, for len words, are zero.
  predicate Zeros(w: seq<word>, base: int, len: int) {
    0 <= base && 0 <= len && base + len <= |w| && forall i :: base <= i < base + len ==> w[i] == 0
  }

  // The leftmost of the longest runs of zero words; base is -1 if no run has two words.
  ghost predicate Best(w: seq<word>, base: int, len: int) {
    if base == -1 then forall b :: !Zeros(w, b, 2)
    else
      && len >= 2 && Zeros(w, base, len)
      && (forall b, l :: Zeros(w, b, l) ==> l <= len)
      && (forall b :: b < base ==> !Zeros(w, b, len))
  }

  // The best run so far, as the loop sees it: any length, base -1 for none.
  ghost predicate BestIn(w: seq<word>, n: int, base: int, len: int)
    requires 0 <= n <= |w|
  {
    if base == -1 then forall b, l :: l >= 1 && b + l <= n ==> !Zeros(w, b, l)
    else
      && len >= 1 && Zeros(w, base, len) && base + len <= n
      && (forall b, l :: Zeros(w, b, l) && b + l <= n ==> l <= len)
      && (forall b :: b < base && b + len <= n ==> !Zeros(w, b, len))
  }

  method BestRun(w: seq<word>) returns (base: int, len: int)
    requires |w| == 8
    ensures Best(w, base, len) && -1 <= base < 8 && (base != -1 ==> len >= 2 && base + len <= 8)
  {
    var curBase, curLen := -1, 0;
    base, len := -1, 0;
    for i := 0 to 8
      invariant curBase == -1 || (0 <= curBase && curLen >= 1 && curBase + curLen == i && Zeros(w, curBase, curLen))
      invariant curBase > 0 ==> w[curBase - 1] != 0
      invariant curBase == -1 && i > 0 ==> w[i - 1] != 0
      invariant BestIn(w, if curBase == -1 then i else curBase, base, len)
    {
      if w[i] == 0 {
        if curBase == -1 {
          curBase, curLen := i, 1;
        } else {
          curLen := curLen + 1;
        }
      } else {
        if curBase != -1 {
          RunEnds(w, i, base, len, curBase, curLen);
          if base == -1 || curLen > len {
            base, len := curBase, curLen;
          }
          curBase := -1;
        }
        RunOver(w, i, base, len);
      }
    }
    if curBase != -1 {
      RunEnds(w, 8, base, len, curBase, curLen);
      if base == -1 || curLen > len {
        base, len := curBase, curLen;
      }
    }
    if base != -1 && len < 2 {
      assert forall b :: Zeros(w, b, 2) ==> 2 <= len;
      base := -1;
    } else if base == -1 {
      assert forall b :: Zeros(w, b, 2) ==> b + 2 <= 8;
    }
  }

  // A maximal run [cb, i) joins the runs seen before cb.
  lemma RunEnds(w: seq<word>, i: nat, base: int, len: int, cb: nat, cl: nat)
    requires i <= |w| && cl >= 1 && cb + cl == i && Zeros(w, cb, cl) && BestIn(w, cb, base, len)
    requires cb > 0 ==> w[cb - 1] != 0
    ensures if base == -1 || cl > len then BestIn(w, i, cb, cl) else BestIn(w, i, base, len)
  {
    forall b, l | Zeros(w, b, l) && b + l <= i && l >= 1 ensures b + l <= cb || b >= cb {}
  }

  lemma RunOver(w: seq<word>, i: nat, base: int, len: int)
    requires i < |w| && w[i] != 0 && BestIn(w, i, base, len)
    ensures BestIn(w, i + 1, base, len)
  {
    forall b, l | Zeros(w, b, l) && b + l <= i + 1 && l >= 1 ensures b + l <= i {}
  }

  // Is an IPv4 address embedded at word 6?
  predicate Embedded(w: seq<word>, base: int, len: int)
    requires |w| == 8
  {
    base == 0 && (len == 6 || (len == 7 && w[7] != 1) || (len == 5 && w[5] == 0xffff))
  }

  predicate InRun(base: int, len: int, i: int) { base != -1 && base <= i < base + len }

  predicate Last(w: seq<word>, base: int, len: int, i: int)
    requires |w| == 8
  {
    i == 6 && !InRun(base, len, i) && Embedded(w, base, len)
  }

  // What one pass of the printing loop appends; v4 is the text of the last four bytes.
  function Piece(w: seq<word>, v4: string, base: int, len: int, i: nat): string
    requires |w| == 8 && i < 8
  {
    if InRun(base, len, i) then
      if i == base then ":" else ""
    else
      (if i != 0 then ":" else "") + if i == 6 && Embedded(w, base, len) then v4 else Hex(w[i])
  }

  // What the printing loop appends from word i on; an embedded address ends it.
  function Print(w: seq<word>, v4: string, base: int, len: int, i: nat): string
    requires |w| == 8 && i <= 8
    decreases 8 - i
  {
    if i == 8 then ""
    else if Last(w, base, len, i) then Piece(w, v4, base, len, i)
    else Piece(w, v4, base, len, i) + Print(w, v4, base, len, i + 1)
  }

  // The printed text with only two of the three cases of the source's test.
  function PrintPlain(w: seq<word>, v4: string, base: int, len: int, i: nat): string
    requires |w| == 8 && i <= 8
    decreases 8 - i
  {
    if i == 8 then ""
    else if InRun(base, len, i) then (if i == base then ":" else "") + PrintPlain(w, v4, base, len, i + 1)
    else
      (if i != 0 then ":" else "")
      + if i == 6 && base == 0 && (len == 6 || (len == 5 && w[5] == 0xffff)) then v4
        else Hex(w[i]) + PrintPlain(w, v4, base, len, i + 1)
  }

  // The seven-word case decides nothing: where it holds, word 6 is in the run.
  lemma {:induction false} SevenNeverDecides(w: seq<word>, v4: string, base: int, len: int, i: nat)
    requires |w| == 8 && i <= 8
    ensures Print(w, v4, base, len, i) == PrintPlain(w, v4, base, len, i)
    decreases 8 - i
  {
    if i < 8 {
      SevenNeverDecides(w, v4, base, len, i + 1);
    }
  }

  function Text6(src: seq<byte>, base: int, len: int): string
    requires |src| == 16
  {
    Print(Words(src), Show4(src[12..]), base, len, 0) + if base != -1 && base + len == 8 then ":" else ""
  }

  // Characters stored at tp, and a NUL behind them.
  method Append(tmp: array<char>, tp: nat, text: string) returns (tp': nat)
    requires tp + |text| < tmp.Length
    modifies tmp
    ensures tp' == tp + |text| && tmp[..tp'] == old(tmp[..tp]) + text
  {
    for k := 0 to |text|
      invariant tmp[..tp] == old(tmp[..tp])
      invariant forall j :: 0 <= j < k ==> tmp[tp + j] == text[j]
    {
      tmp[tp + k] := text[k];
    }
    tp' := tp + |text|;
    tmp[tp'] := '\0';
  }

  lemma HexLength(w: word)
    ensures 1 <= |Hex(w)| <= 4 && '\0' !in Hex(w)
  {
    if w >= 256 {
      assert Hex(w / 16) == Hex(w / 256) + [HexDigit(w / 16 % 16)];
    }
    if w >= 4096 {
      assert Hex(w / 256) == Hex(w / 4096) + [HexDigit(w / 256 % 16)];
    }
  }

  // The word-wise copy of the address.
  method CopyWords(src: seq<byte>) returns (words: array<int>)
    requires |src| == 16
    ensures words[..] == Words(src) && fresh(words)
  {
    words := new int[8](_ => 0);
    for i := 0 to 16
      invariant forall k :: 0 <= k < 8 ==>
        words[k] == if 2 * k + 1 < i then Words(src)[k] else if 2 * k < i then 256 * (src[2 * k] as int) else 0
    {
      // The two halves share no bit, so | is +.
      words[i / 2] := words[i / 2] + if i % 2 == 0 then 256 * (src[i] as int) else src[i];
    }
  }

  // An upper bound of what has been printed before word i.
  function Bound(base: int, len: int, i: int): int {
    if base == 0 then (if i == 0 then 0 else if i <= len then 1 else 1 + 5 * (i - len)) else 5 * i
  }

  lemma BoundStep(w: seq<word>, b: int, l: int, i: nat, tp: int)
    requires |w| == 8 && i < 8 && -1 <= b < 8 && (b != -1 ==> l >= 2 && b + l <= 8) && 0 <= tp <= Bound(b, l, i)
    ensures InRun(b, l, i) ==> tp + (if i == b then 1 else 0) <= Bound(b, l, i + 1)
    ensures !InRun(b, l, i) && !Last(w, b, l, i) ==> tp + (if i != 0 then 1 else 0) + 4 <= Bound(b, l, i + 1)
    ensures Last(w, b, l, i) ==> tp + 16 < 45
    ensures 0 <= Bound(b, l, i + 1) <= 40
  {}

  // One pass of the printing loop; done on an embedded address.
  method PrintWord(tmp: array<char>, tp: nat, w: seq<word>, v4: string, b: int, l: int, i: nat)
    returns (tp': nat, done: bool)
    requires tmp.Length == 46 && |w| == 8 && |v4| <= 15 && i < 8 && -1 <= b < 8 && (b != -1 ==> l >= 2 && b + l <= 8)
    requires tp <= Bound(b, l, i)
    modifies tmp
    ensures tp' <= 45 && tmp[..tp'] == old(tmp[..tp]) + Piece(w, v4, b, l, i)
    ensures done <==> Last(w, b, l, i)
    ensures !done ==> tp' <= Bound(b, l, i + 1)
    ensures done ==> tp' < 45
  {
    hide Hex, Bound, Embedded;
    BoundStep(w, b, l, i, tp);
    HexLength(w[i]);
    tp', done := tp, false;
    if b != -1 && b <= i < b + l {
      if i == b {
        tp' := Append(tmp, tp, ":");
      }
    } else if i == 6 && Embedded(w, b, l) {
      tp' := PrintGroup(tmp, tp, i != 0, v4);
      done := true;
    } else {
      tp' := PrintGroup(tmp, tp, i != 0, Hex(w[i]));
    }
  }

  // A separating colon, then a group.
  method PrintGroup(tmp: array<char>, tp: nat, colon: bool, text: string) returns (tp': nat)
    requires tp + |text| + 1 < tmp.Length
    modifies tmp
    ensures tp' == tp + |text| + (if colon then 1 else 0)
    ensures tmp[..tp'] == old(tmp[..tp]) + ((if colon then ":" else "") + text)
  {
    tp' := tp;
    if colon {
      tp' := Append(tmp, tp', ":");
    }
    tp' := Append(tmp, tp', text);
  }

  lemma PrintStep(w: seq<word>, v4: string, b: int, l: int, i: nat)
    requires |w| == 8 && i < 8
    ensures Print(w, v4, b, l, i) == Piece(w, v4, b, l, i) + if Last(w, b, l, i) then "" else Print(w, v4, b, l, i + 1)
  {}

  lemma PrintEnd(w: seq<word>, v4: string, b: int, l: int)
    requires |w| == 8
    ensures Print(w, v4, b, l, 8) == ""
  {}

  method Format(w: seq<word>, v4: string, b: int, l: int) returns (tmp: array<char>, tp: nat)
    requires |w| == 8 && |v4| <= 15 && -1 <= b < 8 && (b != -1 ==> l >= 2 && b + l <= 8)
    ensures fresh(tmp) && tp < tmp.Length == 46
    ensures tmp[..tp] == Print(w, v4, b, l, 0) + if b != -1 && b + l == 8 then ":" else ""
  {
    hide Print, Piece;
    tmp := new char[46];
    tp := 0;
    var i, done := 0, false;
    assert tmp[..0] + Print(w, v4, b, l, 0) == Print(w, v4, b, l, 0);
    while i < 8 && !done
      invariant 0 <= i <= 8 && tp <= 45 && (done ==> i == 6 && tp < 45)
      invariant !done ==> tp <= Bound(b, l, i)
      invariant if done then tmp[..tp] == Print(w, v4, b, l, 0)
        else tmp[..tp] + Print(w, v4, b, l, i) == Print(w, v4, b, l, 0)
      decreases 8 - i, !done
    {
      PrintStep(w, v4, b, l, i);
      ghost var before := tmp[..tp];
      tp, done := PrintWord(tmp, tp, w, v4, b, l, i);
      assert done ==> tmp[..tp] == before + Print(w, v4, b, l, i);
      assert !done ==> tmp[..tp] + Print(w, v4, b, l, i + 1) == before + Print(w, v4, b, l, i);
      if !done {
        i := i + 1;
      }
    }
    PrintEnd(w, v4, b, l);
    assert tmp[..tp] + "" == tmp[..tp];
    if b != -1 && b + l == 8 {
      tp := Append(tmp, tp, ":");
    }
  }

  // inet_ntop6: the text and its NUL if they fit, else UV_ENOSPC and nothing written.
  // The 46-byte local buffer always suffices.
  method Ntop6(src: seq<byte>, dst: array<char>) returns (r: Result<()>, ghost base: int, ghost len: int)
    requires |src| == 16
    modifies dst
    ensures Best(Words(src), base, len) && -1 <= base < 8 && |Text6(src, base, len)| < 46
    ensures var t := Text6(src, base, len);
      if |t| < dst.Length then
        r == Ok(()) && dst[..|t|] == t && dst[|t|] == '\0' && dst[|t| + 1..] == old(dst[|t| + 1..])
      else r == ENoSpc && dst[..] == old(dst[..])
  {
    hide Print, Best, Show4;
    var words := CopyWords(src);
    var w: seq<word> := Words(src);
    var b, l := BestRun(w);
    base, len := b, l;
    Show4Length(src[12..]);
    var tmp, tp := Format(w, Show4(src[12..]), b, l);
    if tp + 1 > dst.Length {
      return ENoSpc, b, l;
    }
    Copy(tmp, tp, dst);
    r := Ok(());
  }

  // strcpy of the tp characters and the NUL in tmp.
  method Copy(tmp: array<char>, tp: nat, dst: array<char>)
    requires tmp != dst && tp < tmp.Length && tp < dst.Length
    modifies dst
    ensures dst[..tp] == tmp[..tp] && dst[tp] == '\0' && dst[tp + 1..] == old(dst[tp + 1..])
  {
    for k := 0 to tp
      invariant dst[..k] == tmp[..k]
      invariant forall j :: k <= j < dst.Length ==> dst[j] == old(dst[j])
    {
      dst[k] := tmp[k];
    }
    dst[tp] := '\0';
  }

  // ---- parsing ----

  // The end of inet_pton6: the last word, and the words behind "::" moved to the end.
  function Finish6(out: seq<byte>, colon: Option<nat>, seen: nat, val: nat): Result<seq<byte>>
    requires colon.Some? ==> colon.value <= |out|
  {
    if seen > 0 && |out| + 2 > 16 then EInval
    else
      var out' := if seen > 0 then out + [Hi(val), Lo(val)] else out;
      if colon.Some? then
        if |out'| >= 16 then EInval
        else Ok(out'[..colon.value] + seq(16 - |out'|, i => 0) + out'[colon.value..])
      else if |out'| != 16 then EInval
      else Ok(out')
  }

  // The loop of inet_pton6 from here on: out holds the finished bytes, colon their
  // number at "::", tok the text from the current token on.
  function Scan6(s: string, tok: string, out: seq<byte>, colon: Option<nat>, seen: nat, val: nat): Result<seq<byte>>
    requires colon.Some? ==> colon.value <= |out|
  {
    if s == [] then Finish6(out, colon, seen, val)
    else if HexValue(s[0]) >= 0 then
      if seen + 1 > 4 then EInval else Scan6(s[1..], tok, out, colon, seen + 1, val * 16 + HexValue(s[0]))
    else if s[0] == ':' then
      if seen == 0 then
        if colon.Some? then EInval else Scan6(s[1..], s[1..], out, Some(|out|), 0, val)
      else if s[1..] == [] || |out| + 2 > 16 then EInval
      else Scan6(s[1..], s[1..], out + [Hi(val), Lo(val)], colon, 0, 0)
    else if s[0] == '.' && |out| + 4 <= 16 && Scan4(tok, [], 0, false).Ok? then
      Finish6(out + Scan4(tok, [], 0, false).value, colon, 0, val)
    else EInval
  }

  function Parse6(s: string): Result<seq<byte>> {
    if s != [] && s[0] == ':' then
      if |s| > 1 && s[1] == ':' then Scan6(s[1..], s[1..], [], None, 0, 0) else EInval
    else Scan6(s, s, [], None, 0, 0)
  }

  // The hand-written overlapping move that makes room for the zeros of "::".
  method Shift(tmp: array<byte>, colonp: nat, tp: nat)
    requires tmp.Length == 16 && colonp <= tp < 16
    requires forall k :: tp <= k < 16 ==> tmp[k] == 0
    modifies tmp
    ensures tmp[..] == old(tmp[..colonp]) + seq(16 - tp, i => 0) + old(tmp[colonp..tp])
  {
    var n := tp - colonp;
    for i := 1 to n + 1
      invariant forall k :: 0 <= k < colonp ==> tmp[k] == old(tmp[k])
      invariant forall k :: 16 - i < k < 16 ==> tmp[k] == old(tmp[k - (16 - tp)])
      invariant forall k :: colonp <= k < tp - (i - 1) ==> tmp[k] == old(tmp[k])
      invariant forall k :: tp - (i - 1) <= k <= 16 - i ==> tmp[k] == 0
    {
      tmp[16 - i] := tmp[colonp + n - i];
      tmp[colonp + n - i] := 0;
    }
  }

  // Two bytes of a finished word, if there is room.
  method Push(tmp: array<byte>, tp: nat, val: nat) returns (ok: bool)
    requires tmp.Length == 16 && tp <= 16
    modifies tmp
    ensures ok <==> tp + 2 <= 16
    ensures ok ==> tmp[..tp + 2] == old(tmp[..tp]) + [Hi(val), Lo(val)] && tmp[tp + 2..] == old(tmp[tp + 2..])
  {
    ok := tp + 2 <= 16;
    if ok {
      tmp[tp] := Hi(val);
      tmp[tp + 1] := Lo(val);
    }
  }

  // The lines of inet_pton6 behind its loop.
  method Finish(tmp: array<byte>, tp0: nat, colonp: Option<nat>, seen: nat, val: nat) returns (r: Result<seq<byte>>)
    requires tmp.Length == 16 && tp0 <= 16 && (colonp.Some? ==> colonp.value <= tp0)
    requires forall k :: tp0 <= k < 16 ==> tmp[k] == 0
    modifies tmp
    ensures r == Finish6(old(tmp[..tp0]), colonp, seen, val)
  {
    var tp := tp0;
    if seen > 0 {
      var ok := Push(tmp, tp, val);
      if !ok {
        return EInval;
      }
      tp := tp + 2;
      assert forall k :: tp <= k < 16 ==> tmp[k] == tmp[tp..][k - tp];
    }
    ghost var out := tmp[..tp];
    if colonp.Some? {
      if tp == 16 {
        return EInval;
      }
      assert tmp[..colonp.value] == out[..colonp.value] && tmp[colonp.value..tp] == out[colonp.value..];
      Shift(tmp, colonp.value, tp);
      tp := 16;
    }
    if tp != 16 {
      return EInval;
    }
    assert tmp[..] == tmp[..16];
    return Ok(tmp[..]);
  }

  // inet_pton6
  method Pton6(src: string) returns (r: Result<seq<byte>>)
    requires '\0' !in src
    ensures r == Parse6(src)
  {
    hide Finish6, Scan4, Show4, Hi, Lo;
    var tmp := new byte[16](_ => 0);
    var tp, i: nat := 0, 0;
    var colonp: Option<nat> := None;
    if |src| > 0 && src[0] == ':' {
      i := 1;
      if |src| == 1 || src[1] != ':' {
        return EInval;
      }
    }
    var curtok, seen, val: nat := i, 0, 0;
    assert src[0..] == src;
    while i < |src|
      invariant 0 <= curtok <= i <= |src| && 0 <= tp <= 16 && (colonp.Some? ==> colonp.value <= tp)
      invariant forall k :: tp <= k < 16 ==> tmp[k] == 0
      invariant Parse6(src) == Scan6(src[i..], src[curtok..], tmp[..tp], colonp, seen, val)
    {
      var ch := src[i];
      i := i + 1;
      var digit := HexValue(ch);
      if digit >= 0 {
        val := val * 16 + digit;
        seen := seen + 1;
        if seen > 4 {
          return EInval;
        }
      } else if ch == ':' {
        curtok := i;
        if seen == 0 {
          if colonp.Some? {
            return EInval;
          }
          colonp := Some(tp);
        } else {
          if i == |src| {
            return EInval;
          }
          var ok := Push(tmp, tp, val);
          if !ok {
            return EInval;
          }
          tp := tp + 2;
          assert forall k :: tp <= k < 16 ==> tmp[k] == tmp[tp..][k - tp];
          seen, val := 0, 0;
        }
      } else {
        if ch == '.' && tp + 4 <= 16 {
          var v4 := Pton4(src[curtok..]);
          if v4.Ok? {
            ghost var out := tmp[..tp];
            forall k | 0 <= k < 4 {
              tmp[tp + k] := v4.value[k];
            }
            assert tmp[..tp + 4] == out + v4.value;
            r := Finish(tmp, tp + 4, colonp, 0, val);
            return;
          }
        }
        return EInval;
      }
    }
    r := Finish(tmp, tp, colonp, seen, val);
  }
}
