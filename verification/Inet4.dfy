// inet.c, the dotted-decimal half: inet_ntop4 and inet_pton4.
module Inet4 {
  import opened Sequences

  datatype Result<T> = Ok(value: T) | EInval | ENoSpc

  // snprintf's "%u" for a byte.
  function Dec(b: int): string
    requires 0 <= b
    decreases b
  {
    if b < 10 then [DecDigit(b)] else Dec(b / 10) + [DecDigit(b % 10)]
  }

  function DecDigit(d: int): char
    requires 0 <= d < 10
  {
    '0' + d as char
  }

  // The index strchr finds in "0123456789", or -1.
  function DecValue(c: char): int {
    if '0' <= c <= '9' then c as int - '0' as int else -1
  }

  // "%u.%u.%u.%u"
  function Show4(a: seq<byte>): string
    requires |a| == 4
  {
    Dec(a[0]) + "." + Dec(a[1]) + "." + Dec(a[2]) + "." + Dec(a[3])
  }

  // The loop of inet_pton4 from here on: oct holds the finished octets.
  function Scan4(s: string, oct: seq<byte>, cur: byte, saw: bool): Result<seq<byte>> {
    if s == [] then
      if |oct| + (if saw then 1 else 0) < 4 then EInval else Ok(oct + [cur])
    else if DecValue(s[0]) >= 0 then
      var nw := cur * 10 + DecValue(s[0]);
      if (saw && cur == 0) || nw > 255 || (!saw && |oct| + 1 > 4) then EInval
      else Scan4(s[1..], oct, nw, true)
    else if s[0] == '.' && saw then
      if |oct| + 1 == 4 then EInval else Scan4(s[1..], oct + [cur], 0, false)
    else
      EInval
  }

  // What the loop has consumed once oct is finished and cur is being read.
  function Joined(oct: seq<byte>): string {
    if oct == [] then "" else Joined(oct[..|oct| - 1]) + Dec(oct[|oct| - 1]) + "."
  }

  function Consumed(oct: seq<byte>, cur: byte, saw: bool): string {
    Joined(oct) + if saw then Dec(cur) else ""
  }

  lemma DecStep(cur: int, d: int)
    requires 0 <= cur && 0 <= d < 10
    ensures Dec(d) == [DecDigit(d)] && (cur > 0 ==> Dec(cur * 10 + d) == Dec(cur) + [DecDigit(d)])
  {}

  lemma DigitInverse(c: char)
    ensures DecValue(c) >= 0 ==> DecValue(c) < 10 && DecDigit(DecValue(c)) == c
  {}

  lemma JoinedThree(oct: seq<byte>, cur: byte)
    requires |oct| == 3
    ensures Joined(oct) + Dec(cur) == Show4(oct + [cur])
  {
    hide Dec;
    assert oct[..2][..1] == oct[..1] && oct[..1][..0] == [];
    assert Joined(oct[..1]) == Joined([]) + Dec(oct[0]) + ".";
    assert Joined(oct[..2]) == Joined(oct[..1]) + Dec(oct[1]) + ".";
  }

  // What inet_pton4 accepts is the text inet_ntop4 prints for the result, and nothing else.
  lemma {:induction false} ScanSound(s: string, oct: seq<byte>, cur: byte, saw: bool)
    requires Scan4(s, oct, cur, saw).Ok? && |oct| <= 3 && (!saw ==> cur == 0)
    ensures var a := Scan4(s, oct, cur, saw).value; |a| == 4 && Consumed(oct, cur, saw) + s == Show4(a)
  {
    if s == [] {
      JoinedThree(oct, cur);
    } else if DecValue(s[0]) >= 0 {
      DigitInverse(s[0]);
      DecStep(cur, DecValue(s[0]));
      ScanSound(s[1..], oct, cur * 10 + DecValue(s[0]), true);
      assert Consumed(oct, cur, saw) + s == Consumed(oct, cur * 10 + DecValue(s[0]), true) + s[1..];
    } else {
      ScanSound(s[1..], oct + [cur], 0, false);
      assert (oct + [cur])[..|oct|] == oct;
      assert Consumed(oct, cur, saw) + s == Consumed(oct + [cur], 0, false) + s[1..];
    }
  }

  lemma ScanDigit(d: int, rest: string, oct: seq<byte>, cur: byte, saw: bool)
    requires 0 <= d < 10 && cur * 10 + d < 256 && |oct| <= 3 && (saw ==> cur > 0)
    ensures Scan4([DecDigit(d)] + rest, oct, cur, saw) == Scan4(rest, oct, cur * 10 + d, true)
  {
    assert ([DecDigit(d)] + rest)[1..] == rest;
  }

  lemma ScanDec(b: byte, rest: string, oct: seq<byte>)
    requires |oct| <= 3
    ensures Scan4(Dec(b) + rest, oct, 0, false) == Scan4(rest, oct, b, true)
  {
    hide Scan4;
    if b < 10 {
      ScanDigit(b, rest, oct, 0, false);
    } else if b < 100 {
      assert Dec(b) + rest == [DecDigit(b / 10)] + ([DecDigit(b % 10)] + rest);
      ScanDigit(b / 10, [DecDigit(b % 10)] + rest, oct, 0, false);
      ScanDigit(b % 10, rest, oct, b / 10, true);
    } else {
      var x, y, z := b / 100, b / 10 % 10, b % 10;
      assert Dec(b / 10) == [DecDigit(x)] + [DecDigit(y)];
      assert Dec(b) + rest == [DecDigit(x)] + ([DecDigit(y)] + ([DecDigit(z)] + rest));
      ScanDigit(x, [DecDigit(y)] + ([DecDigit(z)] + rest), oct, 0, false);
      ScanDigit(y, [DecDigit(z)] + rest, oct, x, true);
      ScanDigit(z, rest, oct, b / 10, true);
    }
  }

  lemma ScanDot(rest: string, oct: seq<byte>, cur: byte)
    requires |oct| < 3
    ensures Scan4("." + rest, oct, cur, true) == Scan4(rest, oct + [cur], 0, false)
  {
    assert ("." + rest)[1..] == rest;
  }

  // Every printed address parses back.
  lemma ScanComplete(a: seq<byte>)
    requires |a| == 4
    ensures Scan4(Show4(a), [], 0, false) == Ok(a)
  {
    hide Scan4, Dec;
    var t3 := Dec(a[3]) + "";
    var t2 := Dec(a[2]) + ("." + t3);
    var t1 := Dec(a[1]) + ("." + t2);
    var o1: seq<byte> := [] + [a[0]];
    var o2 := o1 + [a[1]];
    var o3 := o2 + [a[2]];
    assert Show4(a) == Dec(a[0]) + ("." + t1);
    ScanDec(a[0], "." + t1, []);
    ScanDot(t1, [], a[0]);
    ScanDec(a[1], "." + t2, o1);
    ScanDot(t2, o1, a[1]);
    ScanDec(a[2], "." + t3, o2);
    ScanDot(t3, o2, a[2]);
    ScanDec(a[3], "", o3);
    ScanEnd(o3, a[3]);
    assert o3 + [a[3]] == a;
  }

  lemma ScanEnd(oct: seq<byte>, cur: byte)
    requires |oct| == 3
    ensures Scan4("", oct, cur, true) == Ok(oct + [cur])
  {}

  // inet_pton4 and inet_ntop4 are inverse to each other.
  lemma Inverse4(s: string, a: seq<byte>)
    requires |a| == 4
    ensures Scan4(s, [], 0, false) == Ok(a) <==> s == Show4(a)
  {
    ScanComplete(a);
    if Scan4(s, [], 0, false).Ok? {
      ScanSound(s, [], 0, false);
      assert Consumed([], 0, false) + s == s;
    }
  }

  lemma Accepts4(s: string)
    ensures var r := Scan4(s, [], 0, false);
      && (r.Ok? ==> |r.value| == 4 && s == Show4(r.value))
      && (!r.Ok? ==> r == EInval && forall a: seq<byte> :: |a| == 4 ==> s != Show4(a))
  {
    NoSpc(s, [], 0, false);
    if Scan4(s, [], 0, false).Ok? {
      ScanSound(s, [], 0, false);
      assert Consumed([], 0, false) + s == s;
    } else {
      forall a: seq<byte> | |a| == 4 ensures s != Show4(a) {
        Inverse4(s, a);
      }
    }
  }

  lemma {:induction false} NoSpc(s: string, oct: seq<byte>, cur: byte, saw: bool)
    ensures !Scan4(s, oct, cur, saw).ENoSpc?
    decreases |s|
  {
    if s != [] && DecValue(s[0]) >= 0 && 0 <= cur * 10 + DecValue(s[0]) < 256 {
      NoSpc(s[1..], oct, cur * 10 + DecValue(s[0]), true);
    } else if s != [] {
      NoSpc(s[1..], oct + [cur], 0, false);
    }
  }

  // inet_pton4
  method Pton4(src: string) returns (r: Result<seq<byte>>)
    requires '\0' !in src
    ensures r == Scan4(src, [], 0, false)
    ensures r.Ok? ==> |r.value| == 4 && src == Show4(r.value)
    ensures !r.Ok? ==> r == EInval && forall a: seq<byte> :: |a| == 4 ==> src != Show4(a)
  {
    Accepts4(src);
    hide Show4;
    var tmp := new byte[4](_ => 0);
    var saw, octets, tp, i := false, 0, 0, 0;
    while i < |src|
      invariant 0 <= i <= |src| && 0 <= tp < 4 && octets == tp + if saw then 1 else 0
      invariant !saw ==> tmp[tp] == 0
      invariant Scan4(src, [], 0, false) == Scan4(src[i..], tmp[..tp], tmp[tp], saw)
    {
      var ch := src[i];
      i := i + 1;
      var d := DecValue(ch);
      if d >= 0 {
        var nw := tmp[tp] * 10 + d;
        if saw && tmp[tp] == 0 {
          return EInval;
        }
        if nw > 255 {
          return EInval;
        }
        ghost var done := tmp[..tp];
        tmp[tp] := nw;
        assert tmp[..tp] == done;
        if !saw {
          octets := octets + 1;
          if octets > 4 {
            return EInval;
          }
          saw := true;
        }
      } else if ch == '.' && saw {
        if octets == 4 {
          return EInval;
        }
        ghost var done, cur := tmp[..tp], tmp[tp];
        tp := tp + 1;
        tmp[tp] := 0;
        assert tmp[..tp] == done + [cur];
        saw := false;
      } else {
        return EInval;
      }
    }
    if octets < 4 {
      return EInval;
    }
    assert tmp[..] == tmp[..3] + [tmp[3]];
    return Ok(tmp[..]);
  }

  lemma DecLength(b: byte)
    ensures 1 <= |Dec(b)| <= 3 && '\0' !in Dec(b)
  {
    if b >= 100 {
      assert Dec(b / 10) == Dec(b / 100) + [DecDigit(b / 10 % 10)];
    }
  }

  lemma Show4Length(a: seq<byte>)
    requires |a| == 4
    ensures 7 <= |Show4(a)| <= 15 && '\0' !in Show4(a)
  {
    DecLength(a[0]);
    DecLength(a[1]);
    DecLength(a[2]);
    DecLength(a[3]);
  }

  // inet_ntop4: the text and a NUL if they fit, else UV_ENOSPC and nothing written.
  // snprintf's 16-byte buffer always suffices.
  method Ntop4(src: seq<byte>, dst: array<char>) returns (r: Result<()>)
    requires |src| == 4
    modifies dst
    ensures r == if |Show4(src)| < dst.Length then Ok(()) else ENoSpc
    ensures r.Ok? ==> dst[..] == Show4(src) + seq(dst.Length - |Show4(src)|, i => '\0')
    ensures !r.Ok? ==> dst[..] == old(dst[..])
  {
    Show4Length(src);
    var tmp := Show4(src);
    var l := |tmp|;
    if l <= 0 || l >= dst.Length {
      return ENoSpc;
    }
    for i := 0 to dst.Length
      invariant forall j :: 0 <= j < i ==> dst[j] == if j < l then tmp[j] else '\0'
    {
      dst[i] := if i < l then tmp[i] else '\0';
    }
    dst[dst.Length - 1] := '\0';
    r := Ok(());
  }
}
