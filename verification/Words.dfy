/** Fixed-width integers: 32- and 64-bit two's complement arithmetic, and bytes. */
module Words {
  datatype Option<+T> = None | Some(value: T)

  const TWO31 := 0x8000_0000
  const TWO32 := 0x1_0000_0000
  const TWO63 := 0x8000_0000_0000_0000
  const TWO64 := 0x1_0000_0000_0000_0000

  type Byte = x: int | 0 <= x < 256
  type I32 = x: int | -TWO31 <= x < TWO31
  type I64 = x: int | -TWO63 <= x < TWO63

  predicate IsI32(x: int) { -TWO31 <= x < TWO31 }

  predicate IsI64(x: int) { -TWO63 <= x < TWO63 }

  /** The 32-bit two's complement reading of `x`. */
  function Wrap32(x: int): I32 {
    var m := x % TWO32;
    if m < TWO31 then m else m - TWO32
  }

  /** The 64-bit two's complement reading of `x`. */
  function Wrap64(x: int): I64 {
    var m := x % TWO64;
    if m < TWO63 then m else m - TWO64
  }

  // Products and quotients are defined by linear recursion, so that unfolding a machine's
  // definition never hands the solver nonlinear arithmetic; the lemmas below say what they are.

  function Times(a: int, b: int): int
    decreases if b < 0 then -b else b
  {
    if b == 0 then 0
    else if b > 0 then a + Times(a, b - 1)
    else Times(a, b + 1) - a
  }

  function DivNat(a: nat, b: nat): nat
    requires b != 0
  {
    if a < b then 0 else 1 + DivNat(a - b, b)
  }

  function RemNat(a: nat, b: nat): nat
    requires b != 0
  {
    if a < b then a else RemNat(a - b, b)
  }

  function Abs(x: int): nat {
    if x < 0 then -x else x
  }

  /** Division rounding toward zero, as C and WebAssembly divide. */
  function TruncDiv(a: int, b: int): int
    requires b != 0
  {
    var q: int := DivNat(Abs(a), Abs(b));
    if (a < 0) == (b < 0) then q else -q
  }

  /** The remainder that goes with `TruncDiv`; its sign is the sign of `a`. */
  function TruncRem(a: int, b: int): int
    requires b != 0
  {
    var r: int := RemNat(Abs(a), Abs(b));
    if a < 0 then -r else r
  }

  /** Bitwise conjunction of two naturals. */
  function AndBits(a: nat, b: nat): nat {
    if a == 0 || b == 0 then 0
    else (if a % 2 == 1 && b % 2 == 1 then 1 else 0) + 2 * AndBits(a / 2, b / 2)
  }

  lemma {:induction false} TimesIsProduct(a: int, b: int)
    ensures Times(a, b) == a * b
    decreases if b < 0 then -b else b
  {
    if b > 0 {
      TimesIsProduct(a, b - 1);
    } else if b < 0 {
      TimesIsProduct(a, b + 1);
    }
  }

  lemma {:induction false} DivNatIsQuotient(a: nat, b: nat)
    requires b != 0
    ensures a == b * DivNat(a, b) + RemNat(a, b) && RemNat(a, b) < b
  {
    if a >= b {
      DivNatIsQuotient(a - b, b);
    }
  }
}
