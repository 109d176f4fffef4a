/** Powers of two, bitwise conjunction, and what it rounds to; and conjunction at two widths. */
module Bits {
  import opened Words

  function Pow2(n: nat): nat {
    if n == 0 then 1 else 2 * Pow2(n - 1)
  }

  lemma Pow2Shift7(n: nat)
    ensures Pow2(n + 7) == 128 * Pow2(n)
  {
    assert Pow2(n + 7) == 4 * Pow2(n + 5);
    assert Pow2(n + 5) == 4 * Pow2(n + 3);
    assert Pow2(n + 3) == 4 * Pow2(n + 1);
    assert Pow2(n + 1) == 2 * Pow2(n);
  }

  lemma {:induction false} Pow2Positive(n: nat)
    ensures Pow2(n) >= 1
  {
    if n > 0 {
      Pow2Positive(n - 1);
    }
  }

  lemma WordSizes()
    ensures Pow2(32) == TWO32 && Pow2(31) == TWO31 && Pow2(64) == TWO64 && Pow2(63) == TWO63
  {
    assert Pow2(0) == 1 && Pow2(3) == 8;
    Pow2Shift7(3); Pow2Shift7(10); Pow2Shift7(17); Pow2Shift7(24);
    assert Pow2(32) == 2 * Pow2(31);
    Pow2Shift7(31); Pow2Shift7(38); Pow2Shift7(45); Pow2Shift7(52);
    assert Pow2(63) == 16 * Pow2(59) && Pow2(64) == 2 * Pow2(63);
  }

  // ---- conjunction -----------------------------------------------------------------------------

  /** One bit at a time, with no special case for zero. */
  lemma AndStep(a: nat, b: nat)
    ensures AndBits(a, b) == (if a % 2 == 1 && b % 2 == 1 then 1 else 0) + 2 * AndBits(a / 2, b / 2)
  {
  }

  lemma {:induction false} AndBelow(a: nat, b: nat)
    ensures AndBits(a, b) <= a && AndBits(a, b) <= b
  {
    if a != 0 && b != 0 {
      AndBelow(a / 2, b / 2);
    }
  }

  lemma {:induction false} AndSelf(a: nat)
    ensures AndBits(a, a) == a
  {
    if a != 0 {
      AndSelf(a / 2);
    }
  }

  /** The high and the low bits of two numbers do not meet. */
  lemma {:induction false} AndSplit(k: nat, h1: nat, l1: nat, h2: nat, l2: nat)
    requires l1 < Pow2(k) && l2 < Pow2(k)
    ensures AndBits(h1 * Pow2(k) + l1, h2 * Pow2(k) + l2) == AndBits(h1, h2) * Pow2(k) + AndBits(l1, l2)
    decreases k
  {
    hide AndBits;
    if k == 0 {
      AndBelow(l1, l2);
    } else {
      var p := Pow2(k - 1);
      Halves(h1, p, l1);
      Halves(h2, p, l2);
      AndStep(h1 * (2 * p) + l1, h2 * (2 * p) + l2);
      AndStep(l1, l2);
      AndSplit(k - 1, h1, l1 / 2, h2, l2 / 2);
      Doubled(AndBits(h1, h2), p);
    }
  }

  lemma Halves(h: nat, p: nat, l: nat)
    ensures (h * (2 * p) + l) / 2 == h * p + l / 2 && (h * (2 * p) + l) % 2 == l % 2
  {
    Doubled(h, p);
    var x := h * p;
    assert (2 * x + l) / 2 == x + l / 2;
  }

  lemma Doubled(h: nat, p: nat)
    ensures h * (2 * p) == 2 * (h * p)
  {
  }

  // ---- rounding --------------------------------------------------------------------------------

  /** The bits of `x` outside `m` and inside `m` add up to `x`. */
  lemma {:induction false} AndComplement(n: nat, x: nat, m: nat)
    requires x < Pow2(n) && m < Pow2(n)
    ensures AndBits(x, Pow2(n) - 1 - m) == x - AndBits(x, m)
    decreases n
  {
    if n > 0 {
      var c := Pow2(n) - 1 - m;
      assert Pow2(n) == 2 * Pow2(n - 1);
      assert c / 2 == Pow2(n - 1) - 1 - m / 2 && c % 2 == 1 - m % 2;
      AndComplement(n - 1, x / 2, m / 2);
      AndStep(x, c);
      AndStep(x, m);
    }
  }

  /** The low bits of a number are its remainder. */
  lemma {:induction false} AndLowBits(k: nat, x: nat)
    ensures Pow2(k) >= 1 && AndBits(x, Pow2(k) - 1) == RemNat(x, Pow2(k))
    decreases k
  {
    Pow2Positive(k);
    if k == 0 {
      assert Pow2(0) == 1;
      RemainderOfOne(x);
    } else {
      var m := Pow2(k) - 1;
      Pow2Positive(k - 1);
      assert m / 2 == Pow2(k - 1) - 1 && m % 2 == 1;
      AndStep(x, m);
      AndLowBits(k - 1, x / 2);
      HalveRemainder(x, Pow2(k - 1));
    }
  }

  lemma {:induction false} RemainderOfOne(x: nat)
    ensures RemNat(x, 1) == 0
  {
    if x > 0 {
      RemainderOfOne(x - 1);
    }
  }

  lemma {:induction false} HalveRemainder(x: nat, n: nat)
    requires n > 0
    ensures RemNat(x, 2 * n) == 2 * RemNat(x / 2, n) + x % 2
    decreases x
  {
    if x >= 2 * n {
      assert (x - 2 * n) / 2 == x / 2 - n && (x - 2 * n) % 2 == x % 2;
      HalveRemainder(x - 2 * n, n);
    }
  }

  /** Taking the remainder off leaves a multiple. */
  lemma {:induction false} RoundedDown(x: nat, n: nat)
    requires n > 0
    ensures RemNat(x, n) <= x && RemNat(x - RemNat(x, n), n) == 0
    decreases x
  {
    if x >= n {
      RoundedDown(x - n, n);
      assert x - RemNat(x, n) - n == (x - n) - RemNat(x - n, n);
    }
  }

  // ---- two widths ------------------------------------------------------------------------------

  const ONES := TWO32 - 1

  /** A 32-bit number read as 64 bits has copies of its sign in front. */
  lemma Extended(x: I32)
    ensures x % TWO64 == (if x < 0 then ONES else 0) * TWO32 + x % TWO32
  {
  }

  /** The 64-bit conjunction, by its high and low words. */
  lemma AndWords(a: I32, b: I32)
    ensures AndBits(a % TWO64, b % TWO64)
      == (if a < 0 && b < 0 then ONES else 0) * TWO32 + AndBits(a % TWO32, b % TWO32)
  {
    hide AndBits;
    WordSizes();
    Extended(a);
    Extended(b);
    var h1, h2 := if a < 0 then ONES else 0, if b < 0 then ONES else 0;
    AndSplit(32, h1, a % TWO32, h2, b % TWO32);
    AndSelf(ONES);
    AndBelow(h1, h2);
  }

  /** The sign bit of a conjunction. */
  lemma AndSign(a: I32, b: I32)
    ensures 0 <= AndBits(a % TWO32, b % TWO32) < TWO32
    ensures AndBits(a % TWO32, b % TWO32) >= TWO31 <==> a < 0 && b < 0
  {
    hide AndBits;
    var l1, l2 := a % TWO32, b % TWO32;
    AndBelow(l1, l2);
    if a < 0 && b < 0 {
      WordSizes();
      AndSplit(31, 1, l1 - TWO31, 1, l2 - TWO31);
      AndSelf(1);
    }
  }

  lemma Reads(low: nat)
    requires low < TWO32
    ensures Wrap64((if low >= TWO31 then ONES else 0) * TWO32 + low) == Wrap32(low)
  {
    if low >= TWO31 {
      assert ONES * TWO32 + low < TWO64;
    }
  }

  /** Conjunction of sign-extended numbers is the sign-extended conjunction. */
  lemma AndExtends(a: I32, b: I32)
    ensures Wrap64(AndBits(a % TWO64, b % TWO64)) == Wrap32(AndBits(a % TWO32, b % TWO32))
  {
    hide AndBits, Wrap32, Wrap64;
    AndWords(a, b);
    AndSign(a, b);
    Reads(AndBits(a % TWO32, b % TWO32));
  }
}
