/**
 * LEB128 integers (section 5.2.2 of the WebAssembly Core Specification 1.0): what the backend
 * writes, the grammar a decoder reads, and that each undoes the other with the fewest bytes.
 */
module Leb {
  import opened Bits
  import opened Words

  datatype Parsed<+T> = Parsed(value: T, rest: seq<Byte>) | Malformed

  lemma Pow2By7(n: nat)
    requires n >= 7
    ensures Pow2(n) == 128 * Pow2(n - 7) && Pow2(n - 7) >= 1
    ensures n > 7 ==> Pow2(n - 1) == 128 * Pow2(n - 8)
  {
    Pow2Shift7(n - 7);
    Pow2Positive(n - 7);
    if n > 7 {
      Pow2Shift7(n - 8);
    }
  }

  // ---- unsigned ------------------------------------------------------------------------

  function Uleb(v: nat): seq<Byte> {
    if v < 128 then [v] else [v % 128 + 128] + Uleb(v / 128)
  }

  /** The grammar of unsigned integers of `bits` bits. */
  function ParseU(bits: nat, bs: seq<Byte>): (r: Parsed<nat>)
    ensures r.Parsed? ==> |r.rest| < |bs|
    decreases bits
  {
    if bs == [] then Malformed
    else if bs[0] < 128 then
      if bs[0] < Pow2(bits) then Parsed(bs[0], bs[1..]) else Malformed
    else if bits <= 7 then Malformed
    else match ParseU(bits - 7, bs[1..])
      case Parsed(m, rest) => Parsed(128 * m + (bs[0] - 128), rest)
      case Malformed => Malformed
  }

  lemma {:induction false} UlebRoundTrip(bits: nat, v: nat, rest: seq<Byte>)
    requires v < Pow2(bits)
    ensures ParseU(bits, Uleb(v) + rest) == Parsed(v, rest)
    decreases bits
  {
    var bs := Uleb(v) + rest;
    if v < 128 {
      assert bs[1..] == rest;
    } else {
      if bits <= 7 {
        SmallPow2(bits);
        assert false;
      }
      Pow2By7(bits);
      UlebRoundTrip(bits - 7, v / 128, rest);
      assert bs[1..] == Uleb(v / 128) + rest;
    }
  }

  lemma SmallPow2(n: nat)
    requires n <= 7
    ensures Pow2(n) <= 128
  {
    assert Pow2(0) == 1 && Pow2(1) == 2 && Pow2(2) == 4 && Pow2(3) == 8;
    assert Pow2(4) == 16 && Pow2(5) == 32 && Pow2(6) == 64 && Pow2(7) == 128;
  }

  /** No encoding of the same number is shorter. */
  lemma {:induction false} UlebShortest(bits: nat, bs: seq<Byte>)
    requires ParseU(bits, bs).Parsed?
    ensures |Uleb(ParseU(bits, bs).value)| <= |bs| - |ParseU(bits, bs).rest|
    decreases bits
  {
    if bs[0] >= 128 {
      UlebShortest(bits - 7, bs[1..]);
    }
  }

  /** One byte for every seven bits begun. */
  lemma {:induction false} UlebLength(bits: nat, v: nat)
    requires v < Pow2(bits) && bits > 0
    ensures 7 * |Uleb(v)| < bits + 7
    decreases bits
  {
    if v >= 128 {
      if bits <= 7 {
        SmallPow2(bits);
        assert false;
      }
      Pow2By7(bits);
      UlebLength(bits - 7, v / 128);
    }
  }

  // ---- signed --------------------------------------------------------------------------

  /** The quotient and remainder are those of an arithmetic shift by seven. */
  function Sleb(v: int): seq<Byte>
    decreases if v < 0 then -v else v
  {
    if SlebEnds(v) then [v % 128] else [v % 128 + 128] + Sleb(v / 128)
  }

  predicate SlebEnds(v: int) {
    (v / 128 == 0 && v % 128 < 64) || (v / 128 == -1 && v % 128 >= 64)
  }

  function ParseS(bits: nat, bs: seq<Byte>): (r: Parsed<int>)
    requires bits > 0
    ensures r.Parsed? ==> |r.rest| < |bs|
    decreases bits
  {
    if bs == [] then Malformed
    else if bs[0] < 64 then
      if bs[0] < Pow2(bits - 1) then Parsed(bs[0], bs[1..]) else Malformed
    else if bs[0] < 128 then
      if bs[0] + Pow2(bits - 1) >= 128 then Parsed(bs[0] as int - 128, bs[1..]) else Malformed
    else if bits <= 7 then Malformed
    else match ParseS(bits - 7, bs[1..])
      case Parsed(m, rest) => Parsed(128 * m + (bs[0] - 128), rest)
      case Malformed => Malformed
  }

  /** What is left after one byte still fits. */
  lemma SlebStep(bits: nat, v: int)
    requires bits > 0 && 0 - Pow2(bits - 1) <= v < Pow2(bits - 1) && !SlebEnds(v)
    ensures bits > 7 && 0 - Pow2(bits - 8) <= v / 128 < Pow2(bits - 8)
  {
    if bits <= 7 {
      assert Pow2(6) == 64 by { SmallPow2(6); }
      Pow2Monotone(bits - 1, 6);
      assert false;
    }
    Pow2By7(bits);
    assert bits == 7 + 1 ==> Pow2(0) == 1;
    Pow2Shift7(bits - 8);
  }

  lemma {:induction false} SlebRoundTrip(bits: nat, v: int, rest: seq<Byte>)
    requires bits > 0 && 0 - Pow2(bits - 1) <= v < Pow2(bits - 1)
    ensures ParseS(bits, Sleb(v) + rest) == Parsed(v, rest)
    decreases bits
  {
    hide Pow2;
    var bs := Sleb(v) + rest;
    if SlebEnds(v) {
      assert bs[1..] == rest;
    } else {
      SlebStep(bits, v);
      SlebRoundTrip(bits - 7, v / 128, rest);
      assert bs[1..] == Sleb(v / 128) + rest;
    }
  }

  lemma {:induction false} Pow2Monotone(a: nat, b: nat)
    requires a <= b
    ensures Pow2(a) <= Pow2(b)
    decreases b
  {
    if a < b {
      Pow2Monotone(a, b - 1);
      Pow2Positive(b - 1);
    }
  }

  lemma {:induction false} SlebShortest(bits: nat, bs: seq<Byte>)
    requires bits > 0 && ParseS(bits, bs).Parsed?
    ensures |Sleb(ParseS(bits, bs).value)| <= |bs| - |ParseS(bits, bs).rest|
    decreases bits
  {
    if bs[0] >= 128 {
      SlebShortest(bits - 7, bs[1..]);
    }
  }

  lemma {:induction false} SlebLength(bits: nat, v: int)
    requires bits > 0 && 0 - Pow2(bits - 1) <= v < Pow2(bits - 1)
    ensures 7 * |Sleb(v)| < bits + 7
    decreases bits
  {
    if !SlebEnds(v) {
      SlebStep(bits, v);
      SlebLength(bits - 7, v / 128);
    }
  }

  /** At most five bytes for a 32-bit integer, ten for a 64-bit one, read back from any stream. */
  lemma LebIsFaithful(u: nat, i: I32, l: I64, rest: seq<Byte>)
    requires u < TWO32
    ensures |Uleb(u)| <= 5 && ParseU(32, Uleb(u) + rest) == Parsed(u, rest)
    ensures |Sleb(i)| <= 5 && ParseS(32, Sleb(i) + rest) == Parsed(i, rest)
    ensures |Sleb(l)| <= 10 && ParseS(64, Sleb(l) + rest) == Parsed(l, rest)
  {
    WordSizes();
    UlebRoundTrip(32, u, rest); UlebLength(32, u);
    SlebRoundTrip(32, i, rest); SlebLength(32, i);
    SlebRoundTrip(64, l, rest); SlebLength(64, l);
  }
}
