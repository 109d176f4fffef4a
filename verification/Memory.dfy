/** Linear memory and globals: what emitted functions share with the functions they call. */
module Memory {
  import opened Words

  /** `frameGlobal` is the global that holds the frame pointer; the frames of running functions
      lie between `frameStart` and the pointer. */
  datatype Store = Store(globals: seq<I32>, memory: seq<Byte>, frameGlobal: nat, frameStart: nat)

  /** Addresses are read unsigned. */
  function Unsigned(x: I32): nat {
    if x >= 0 then x else x + TWO32
  }

  function Unsigned64(x: I64): nat {
    if x >= 0 then x else x + TWO64
  }

  function FramePointer(s: Store): nat {
    if s.frameGlobal < |s.globals| then Unsigned(s.globals[s.frameGlobal]) else 0
  }

  /** No instruction adds globals or grows the memory. */
  predicate KeepsShape(a: Store, b: Store) {
    |b.globals| == |a.globals| && |b.memory| == |a.memory| && b.frameGlobal == a.frameGlobal
      && b.frameStart == a.frameStart
  }

  /** The frame pointer is where it was, and so are the contents of all frames below it. */
  predicate KeepsFrames(a: Store, b: Store) {
    KeepsShape(a, b) && FramePointer(b) == FramePointer(a)
    && forall x :: a.frameStart <= x < FramePointer(a) && x < |a.memory| ==> b.memory[x] == a.memory[x]
  }

  // ---- little-endian words ---------------------------------------------------------------------

  function WordAt(memory: seq<Byte>, a: nat, n: nat): nat
    requires a + n <= |memory|
    decreases n
  {
    if n == 0 then 0 else memory[a] + 256 * WordAt(memory, a + 1, n - 1)
  }

  function WordBytes(v: nat, n: nat): (bs: seq<Byte>)
    ensures |bs| == n
    decreases n
  {
    if n == 0 then [] else [v % 256] + WordBytes(v / 256, n - 1)
  }

  /** The memory with `bs` at address `a`. */
  function Overwrite(memory: seq<Byte>, a: nat, bs: seq<Byte>): (r: seq<Byte>)
    requires a + |bs| <= |memory|
    ensures |r| == |memory|
  {
    memory[..a] + bs + memory[a + |bs|..]
  }

  function Power256(n: nat): nat {
    if n == 0 then 1 else 256 * Power256(n - 1)
  }

  lemma Powers()
    ensures Power256(4) == TWO32 && Power256(8) == TWO64
  {
    assert Power256(4) == 256 * Power256(3) && Power256(3) == 256 * Power256(2) && Power256(2) == 256 * Power256(1);
    assert Power256(8) == 256 * Power256(7) && Power256(7) == 256 * Power256(6) && Power256(6) == 256 * Power256(5);
  }

  lemma {:induction false} WordAtBytes(memory: seq<Byte>, a: nat, v: nat, n: nat)
    requires a + n <= |memory| && memory[a..a + n] == WordBytes(v, n) && v < Power256(n)
    ensures WordAt(memory, a, n) == v
    decreases n
  {
    if n > 0 {
      assert memory[a] == memory[a..a + n][0] == v % 256;
      assert memory[a + 1..a + 1 + (n - 1)] == memory[a..a + n][1..];
      WordAtBytes(memory, a + 1, v / 256, n - 1);
    }
  }

  /** A word reads back as it was written. */
  lemma ReadWritten(memory: seq<Byte>, a: nat, v: nat, n: nat)
    requires a + n <= |memory| && v < Power256(n)
    ensures WordAt(Overwrite(memory, a, WordBytes(v, n)), a, n) == v
  {
    var m := Overwrite(memory, a, WordBytes(v, n));
    assert m[a..a + n] == WordBytes(v, n);
    WordAtBytes(m, a, v, n);
  }

  /** Words depend on their own bytes only. */
  lemma {:induction false} WordAtSame(m1: seq<Byte>, m2: seq<Byte>, a: nat, n: nat)
    requires a + n <= |m1| && a + n <= |m2| && forall x :: a <= x < a + n ==> m1[x] == m2[x]
    ensures WordAt(m1, a, n) == WordAt(m2, a, n)
    decreases n
  {
    if n > 0 {
      WordAtSame(m1, m2, a + 1, n - 1);
    }
  }
}
