// next_power_of_two of core.c on 32-bit unsigned integers.
module PowerOfTwo {
  const MODULUS := 0x1_0000_0000

  function Pow2(k: nat): (p: nat)
    ensures p >= 1
  {
    if k == 0 then 1 else 2 * Pow2(k - 1)
  }

  // n >> k
  function Shr(n: nat, k: nat): nat { if k == 0 then n else Shr(n / 2, k - 1) }

  // a | b
  function Or(a: nat, b: nat): nat {
    if a == 0 && b == 0 then 0 else (if a % 2 == 1 || b % 2 == 1 then 1 else 0) + 2 * Or(a / 2, b / 2)
  }

  // val |= val >> 1 to val |= val >> 16
  function Fill(v0: nat): nat {
    var v1 := Or(v0, Shr(v0, 1));
    var v2 := Or(v1, Shr(v1, 2));
    var v3 := Or(v2, Shr(v2, 4));
    var v4 := Or(v3, Shr(v3, 8));
    Or(v4, Shr(v4, 16))
  }

  function NextPowerOfTwo(val: nat): (r: nat)
    requires val < MODULUS
  {
    (Fill((val + MODULUS - 1) % MODULUS) + 1) % MODULUS
  }

  predicate Bit(n: nat, i: nat) { Shr(n, i) % 2 == 1 }

  lemma {:induction false} ShrShr(n: nat, j: nat, i: nat)
    ensures Shr(Shr(n, j), i) == Shr(n, i + j)
    decreases j
  {
    if j > 0 {
      ShrShr(n / 2, j - 1, i);
    }
  }

  lemma {:induction false} OrBit(a: nat, b: nat, i: nat)
    ensures Bit(Or(a, b), i) <==> Bit(a, i) || Bit(b, i)
    decreases i
  {
    if i == 0 {
    } else if a == 0 && b == 0 {
      OrBit(0, 0, i - 1);
    } else {
      OrBit(a / 2, b / 2, i - 1);
    }
  }

  lemma {:induction false} OrBound(a: nat, b: nat, s: nat)
    requires a < Pow2(s) && b < Pow2(s)
    ensures Or(a, b) < Pow2(s)
    decreases s
  {
    if s > 0 {
      OrBound(a / 2, b / 2, s - 1);
    }
  }

  lemma {:induction false} ShrBound(n: nat, k: nat)
    ensures Shr(n, k) <= n
    decreases k
  {
    if k > 0 {
      ShrBound(n / 2, k - 1);
    }
  }

  lemma {:induction false} AllOnes(n: nat, s: nat)
    requires n < Pow2(s) && forall i: nat :: i < s ==> Bit(n, i)
    ensures n == Pow2(s) - 1
    decreases s
  {
    if s > 0 {
      forall i: nat | i < s - 1 ensures Bit(n / 2, i) { assert Bit(n, i + 1); }
      AllOnes(n / 2, s - 1);
      assert Bit(n, 0);
    }
  }

  // The number of binary digits of n.
  function Digits(n: nat): (s: nat)
    ensures n < Pow2(s) && (n > 0 ==> s > 0 && Pow2(s - 1) <= n) && (n == 0 ==> s == 0)
  {
    if n == 0 then 0 else 1 + Digits(n / 2)
  }

  lemma {:induction false} TopDigit(n: nat)
    requires n > 0
    ensures Bit(n, Digits(n) - 1)
  {
    if n > 1 {
      TopDigit(n / 2);
      assert Shr(n, Digits(n) - 1) == Shr(n / 2, Digits(n / 2) - 1);
    }
  }

  // The top j of the s digits are ones.
  ghost predicate TopOnes(n: nat, s: nat, j: nat) {
    n < Pow2(s) && forall i: nat {:trigger Bit(n, i)} :: i < s && i + j >= s ==> Bit(n, i)
  }

  // Or-ing in a copy shifted by j doubles the run of ones at the top.
  lemma Smear(n: nat, s: nat, j: nat)
    requires TopOnes(n, s, j)
    ensures TopOnes(Or(n, Shr(n, j)), s, j + j)
  {
    var m := Or(n, Shr(n, j));
    ShrBound(n, j);
    OrBound(n, Shr(n, j), s);
    forall i: nat | i < s && i + j + j >= s ensures Bit(m, i) {
      OrBit(n, Shr(n, j), i);
      if i + j < s {
        ShrShr(n, j, i);
        assert Bit(n, i + j);
      }
    }
  }

  lemma {:induction false} Pow2Order(a: nat, b: nat)
    requires a <= b
    ensures Pow2(a) <= Pow2(b)
    decreases b
  {
    if a < b {
      Pow2Order(a, b - 1);
    }
  }

  lemma Pow2At32()
    ensures Pow2(32) == MODULUS && Pow2(31) == MODULUS / 2
  {
    assert Pow2(8) == 0x100;
    assert Pow2(16) == 0x1_0000;
    assert Pow2(24) == 0x100_0000;
  }

  // r is the k-th power of two, and the first that is not below val.
  ghost predicate IsLeast(k: nat, r: nat, val: nat) {
    k < 32 && r == Pow2(k) && val <= r && (k > 0 ==> Pow2(k - 1) < val)
  }

  // The least power of two that is at least val; zero if that does not fit in
  // 32 bits, and for zero.
  lemma NextPowerOfTwoExact(val: nat)
    requires val < MODULUS
    ensures var r := NextPowerOfTwo(val);
      if 1 <= val <= MODULUS / 2
      then exists k: nat :: IsLeast(k, r, val)
      else r == 0
  {
    hide NextPowerOfTwo, Pow2;
    NextValue(val);
    Pow2At0();
    Pow2At32();
    if 1 <= val <= MODULUS / 2 {
      var s := Digits(val - 1);
      if s < 32 {
        Pow2Order(s, 31);
      }
      assert IsLeast(s, NextPowerOfTwo(val), val);
    } else {
      var s := Digits(if val == 0 then MODULUS - 1 else val - 1);
      if s < 32 {
        Pow2Order(s, 31);
      }
      assert s == 32;
    }
  }

  lemma NextValue(val: nat)
    requires val < MODULUS
    ensures var s := Digits(if val == 0 then MODULUS - 1 else val - 1);
      s <= 32 && NextPowerOfTwo(val) == Pow2(s) % MODULUS
  {
    hide Fill, Pow2;
    var v0 := if val == 0 then MODULUS - 1 else val - 1;
    assert v0 == (val + MODULUS - 1) % MODULUS;
    Pow2At32();
    if Digits(v0) > 32 {
      Pow2Order(32, Digits(v0) - 1);
    }
    SmearAll(v0);
  }

  lemma Pow2At0()
    ensures Pow2(0) == 1
  {}

  // Five steps fill a run of one up to 32 digits.
  lemma SmearAll(v0: nat)
    requires Digits(v0) <= 32
    ensures Fill(v0) == Pow2(Digits(v0)) - 1
  {
    hide Or, Shr, Pow2;
    var s := Digits(v0);
    if v0 > 0 {
      TopDigit(v0);
    }
    Smear(v0, s, 1);
    var v1 := Or(v0, Shr(v0, 1));
    Smear(v1, s, 2);
    var v2 := Or(v1, Shr(v1, 2));
    Smear(v2, s, 4);
    var v3 := Or(v2, Shr(v2, 4));
    Smear(v3, s, 8);
    var v4 := Or(v3, Shr(v3, 8));
    Smear(v4, s, 16);
    AllOnes(Or(v4, Shr(v4, 16)), s);
  }
}
