// The characters of inet.c: what each digit is worth, which are printed, and
// that numbers are written without leading zeros.
module InetDigits {
  import opened Inet4
  import opened Inet6
  import opened Sequences

  const DECIMALS := "0123456789"
  const LOWER := "0123456789abcdef" // xdigits_l
  const UPPER := "0123456789ABCDEF" // xdigits_u

  // strchr: the first place of c in s, or -1
  function Find(s: string, c: char): (k: int)
    ensures -1 <= k < |s| && (k >= 0 ==> s[k] == c) && (k == -1 <==> c !in s)
  {
    if s == "" then -1
    else if s[0] == c then 0
    else
      var k := Find(s[1..], c);
      if k < 0 then -1 else k + 1
  }

  // What a character is worth in inet_pton6: looked up in lower case, then in upper case.
  function Digit(c: char): int { if c in LOWER then Find(LOWER, c) else Find(UPPER, c) }

  // The two tables, digit by digit.
  lemma Tables()
    ensures |LOWER| == |UPPER| == 16 && Distinct(LOWER) && Distinct(UPPER)
    ensures forall d :: 0 <= d < 16 ==> LOWER[d] == if d < 10 then '0' + d as char else 'a' + (d - 10) as char
    ensures forall d :: 0 <= d < 16 ==> UPPER[d] == if d < 10 then '0' + d as char else 'A' + (d - 10) as char
  {}

  lemma HexValueExact(c: char)
    ensures HexValue(c) == Digit(c)
  {
    hide Find, LOWER, UPPER, Distinct;
    Tables();
    var d := HexValue(c);
    if 'A' <= c <= 'F' {
      assert UPPER[d] == c && c !in LOWER;
      FindAt(UPPER, d);
    } else if d >= 0 {
      assert LOWER[d] == c;
      FindAt(LOWER, d);
    } else {
      assert c !in LOWER && c !in UPPER;
    }
  }

  lemma {:induction false} FindAt(s: string, d: nat)
    requires d < |s| && Distinct(s)
    ensures Find(s, s[d]) == d
  {
    if d > 0 {
      assert s[0] != s[d];
      FindAt(s[1..], d - 1);
    }
  }

  lemma DecValueExact(c: char)
    ensures DecValue(c) == Find(DECIMALS, c)
  {
    var d := DecValue(c);
    if d >= 0 {
      assert DECIMALS[d] == c;
      FindAt(DECIMALS, d);
    }
  }

  // The number that the digits of s behind those of v make.
  function Number(digits: string, v: nat, s: string): nat
    requires forall c :: c in s ==> c in digits
    decreases |s|
  {
    if s == "" then v else Number(digits, v * |digits| + Find(digits, s[0]), s[1..])
  }

  lemma {:induction false} NumberPush(digits: string, v: nat, s: string, c: char)
    requires forall x :: x in s + [c] ==> x in digits
    ensures forall x :: x in s ==> x in digits
    ensures Number(digits, v, s + [c]) == Number(digits, v, s) * |digits| + Find(digits, c)
    decreases |s|
  {
    assert forall x :: x in s ==> x in s + [c];
    if s == "" {
      assert s + [c] == [c] && [c][1..] == "";
    } else {
      assert (s + [c])[0] == s[0] && (s + [c])[1..] == s[1..] + [c];
      NumberPush(digits, v * |digits| + Find(digits, s[0]), s[1..], c);
    }
  }

  // A numeral of n: digits only, worth n, and no zero in front of others.
  ghost predicate Numeral(digits: string, s: string, n: nat) {
    && s != "" && (forall c :: c in s ==> c in digits) && Number(digits, 0, s) == n
    && (|s| > 1 ==> s[0] != '0')
  }

  lemma OneDigit(digits: string, d: nat)
    requires d < |digits| && Distinct(digits)
    ensures Numeral(digits, [digits[d]], d)
  {
    FindAt(digits, d);
    assert [digits[d]][1..] == "";
  }

  lemma MoreDigits(digits: string, s: string, n: nat, d: nat)
    requires n > 0 && Numeral(digits, s, n) && d < |digits| && Distinct(digits) && digits[0] == '0'
    ensures Numeral(digits, s + [digits[d]], n * |digits| + d)
  {
    FindAt(digits, d);
    NumberPush(digits, 0, s, digits[d]);
    NotZero(digits, s, n);
  }

  lemma NotZero(digits: string, s: string, n: nat)
    requires n > 0 && Numeral(digits, s, n) && Distinct(digits) && digits[0] == '0'
    ensures s[0] != '0'
  {
    if |s| == 1 {
      assert s[1..] == "" && Number(digits, 0, s) == Find(digits, s[0]);
      FindAt(digits, 0);
    }
  }

  lemma Decimals(d: nat)
    requires d < 10
    ensures |DECIMALS| == 10 && Distinct(DECIMALS) && DECIMALS[0] == '0' && DecDigit(d) == DECIMALS[d]
  {}

  lemma LowerDigits(d: nat)
    requires d < 16
    ensures |LOWER| == 16 && Distinct(LOWER) && LOWER[0] == '0' && HexDigit(d) == LOWER[d]
  {}

  lemma {:induction false} DecNumeral(n: nat)
    ensures Numeral(DECIMALS, Dec(n), n)
    decreases n
  {
    hide Numeral, DECIMALS, Distinct, DecDigit;
    Decimals(n % 10);
    if n < 10 {
      OneDigit(DECIMALS, n);
    } else {
      DecNumeral(n / 10);
      MoreDigits(DECIMALS, Dec(n / 10), n / 10, n % 10);
    }
  }

  lemma {:induction false} HexNumeral(n: nat)
    ensures Numeral(LOWER, Hex(n), n)
    decreases n
  {
    hide Numeral, LOWER, Distinct, HexDigit;
    LowerDigits(n % 16);
    if n < 16 {
      OneDigit(LOWER, n);
    } else {
      HexNumeral(n / 16);
      MoreDigits(LOWER, Hex(n / 16), n / 16, n % 16);
    }
  }

  // ---- case does not matter ----

  function ToLower(c: char): char { if c in UPPER then LOWER[Find(UPPER, c)] else c }

  function Lower(s: string): (r: string)
    ensures |r| == |s| && forall i :: 0 <= i < |s| ==> r[i] == ToLower(s[i])
  {
    if s == "" then "" else [ToLower(s[0])] + Lower(s[1..])
  }

  // Letters in upper case are worth what they are in lower case; all other
  // characters stay, and no character becomes a digit, a colon or a dot.
  lemma ToLowerKeeps(c: char)
    ensures HexValue(ToLower(c)) == HexValue(c) && DecValue(ToLower(c)) == DecValue(c)
    ensures (ToLower(c) == ':' <==> c == ':') && (ToLower(c) == '.' <==> c == '.')
  {
    hide Find, LOWER, UPPER, Distinct;
    Tables();
    if c in UPPER {
      var k := Find(UPPER, c);
      assert UPPER[k] == c && ToLower(c) == LOWER[k];
    }
  }

  lemma {:induction false} Scan4Lower(s: string, oct: seq<byte>, cur: byte, saw: bool)
    ensures Scan4(Lower(s), oct, cur, saw) == Scan4(s, oct, cur, saw)
    decreases |s|
  {
    hide ToLower;
    if s != "" {
      ToLowerKeeps(s[0]);
      assert Lower(s)[1..] == Lower(s[1..]);
      if DecValue(s[0]) >= 0 {
        var nw := cur * 10 + DecValue(s[0]);
        if nw <= 255 {
          Scan4Lower(s[1..], oct, nw, true);
        }
      } else {
        Scan4Lower(s[1..], oct + [cur], 0, false);
      }
    }
  }

  lemma {:induction false} Scan6Lower(s: string, tok: string, out: seq<byte>, colon: Option<nat>, seen: nat, val: nat)
    requires colon.Some? ==> colon.value <= |out|
    ensures Scan6(Lower(s), Lower(tok), out, colon, seen, val) == Scan6(s, tok, out, colon, seen, val)
    decreases |s|
  {
    hide ToLower, Scan4, Finish6, Hi, Lo, HexValue;
    Scan4Lower(tok, [], 0, false);
    if s != "" {
      var t := s[1..];
      ToLowerKeeps(s[0]);
      assert Lower(s)[1..] == Lower(t);
      if HexValue(s[0]) >= 0 {
        Scan6Lower(t, tok, out, colon, seen + 1, val * 16 + HexValue(s[0]));
      } else {
        Scan6Lower(t, t, out, Some(|out|), 0, val);
        Scan6Lower(t, t, out + [Hi(val), Lo(val)], colon, 0, 0);
      }
    }
  }

  // inet_pton6 reads letters in upper and in lower case alike.
  lemma CaseIgnored(s: string)
    ensures Parse6(Lower(s)) == Parse6(s)
  {
    hide Scan6, ToLower;
    if s != "" {
      ToLowerKeeps(s[0]);
      assert Lower(s)[1..] == Lower(s[1..]);
      if |s| > 1 {
        ToLowerKeeps(s[1]);
      }
      Scan6Lower(s[1..], s[1..], [], None, 0, 0);
      Scan6Lower(s, s, [], None, 0, 0);
    }
  }

  // ---- the text of an address ----

  ghost predicate Plain(s: string) { forall c :: c in s ==> c in LOWER + ":." }

  lemma Show4Plain(a: seq<byte>)
    requires |a| == 4
    ensures Plain(Show4(a)) && '.' in Show4(a)
  {
    hide Dec;
    forall i | 0 <= i < 4 ensures Plain(Dec(a[i])) {
      DecNumeral(a[i]);
      assert forall c :: c in DECIMALS ==> c in LOWER;
    }
  }

  lemma HexPlain(n: nat)
    ensures Plain(Hex(n)) && '.' !in Hex(n) && ':' !in Hex(n)
  {
    HexNumeral(n);
  }

  // Does the loop that prints from word i on come to the dotted form?
  predicate Dotted(w: seq<word>, base: int, len: int)
    requires |w| == 8
  {
    !InRun(base, len, 6) && base == 0 && (len == 6 || (len == 5 && w[5] == 0xffff))
  }

  lemma {:induction false} PrintChars(w: seq<word>, v4: string, base: int, len: int, i: nat)
    requires |w| == 8 && i <= 8 && Plain(v4) && '.' in v4
    ensures Plain(PrintPlain(w, v4, base, len, i))
    ensures '.' in PrintPlain(w, v4, base, len, i) <==> i <= 6 && Dotted(w, base, len)
    decreases 8 - i
  {
    hide Hex;
    if i < 8 {
      HexPlain(w[i]);
      PrintChars(w, v4, base, len, i + 1);
    }
  }

  // Zero bytes in front of the k-th.
  predicate ZeroTo(src: seq<byte>, k: nat)
    requires k <= |src|
  {
    forall i :: 0 <= i < k ==> src[i] == 0
  }

  // inet_ntop6 writes lower-case digits, colons and dots only, and the last
  // four bytes dotted exactly for an address that begins with ten zero bytes and
  // two bytes ff, or with twelve zero bytes and then not two more.
  lemma DottedExactly(src: seq<byte>, base: int, len: int)
    requires |src| == 16 && Best(Words(src), base, len) && -1 <= base < 8
    ensures Plain(Text6(src, base, len))
    ensures '.' in Text6(src, base, len) <==>
      || (ZeroTo(src, 10) && src[10] == src[11] == 0xff)
      || (ZeroTo(src, 12) && (src[12] != 0 || src[13] != 0))
  {
    hide Print, PrintPlain, Show4, Words, Dotted, Best;
    var w, v4 := Words(src), Show4(src[12..]);
    Show4Plain(src[12..]);
    SevenNeverDecides(w, v4, base, len, 0);
    PrintChars(w, v4, base, len, 0);
    DottedWords(w, base, len);
    WordsZeroTo(src, 5);
    WordsZeroTo(src, 6);
    WordZero(src, 5);
    WordZero(src, 6);
  }

  lemma DottedWords(w: seq<word>, base: int, len: int)
    requires |w| == 8 && Best(w, base, len) && -1 <= base < 8
    ensures Dotted(w, base, len) <==>
      (Zeros(w, 0, 5) && w[5] == 0xffff) || (Zeros(w, 0, 6) && w[6] != 0)
  {
    if Zeros(w, 0, 5) {
      assert Zeros(w, 0, 2);
    }
    if Zeros(w, 0, 5) && w[5] != 0 {
      assert base != -1 && len >= 5;
      forall b, l | Zeros(w, b, l) && l >= 5 ensures b == 0 && l == 5 {
        assert b <= 3;
        assert b > 0 ==> b <= 5 < b + l;
      }
    }
    if Zeros(w, 0, 6) && w[6] != 0 {
      assert base != -1 && len >= 6;
      forall b, l | Zeros(w, b, l) && l >= 6 ensures b == 0 && l == 6 {
        assert b <= 2;
        assert b <= 6 < b + l || (b == 0 && l == 6);
      }
    }
    assert Zeros(w, 0, 7) <==> Zeros(w, 0, 6) && w[6] == 0;
  }

  lemma WordZero(src: seq<byte>, i: nat)
    requires |src| == 16 && i < 8
    ensures Words(src)[i] == 0 <==> src[2 * i] == 0 && src[2 * i + 1] == 0
    ensures Words(src)[i] == 0xffff <==> src[2 * i] == src[2 * i + 1] == 0xff
  {}

  lemma {:induction false} WordsZeroTo(src: seq<byte>, n: nat)
    requires |src| == 16 && n <= 8
    ensures Zeros(Words(src), 0, n) <==> ZeroTo(src, 2 * n)
  {
    hide Words;
    if n > 0 {
      WordZero(src, n - 1);
      WordsZeroTo(src, n - 1);
      assert Zeros(Words(src), 0, n) <==> Zeros(Words(src), 0, n - 1) && Words(src)[n - 1] == 0;
    }
  }
}
