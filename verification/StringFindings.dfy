/**
 * Strings are compared by content: by the language definition, and by the const evaluator. The
 * emitted comparison looks at pointers and lengths only, and in functions without a frame not even
 * at those. Here is what it answers, and exactly when that is right.
 */
module StringFindings {
  import opened Words
  import opened Memory
  import M = Mir
  import W = Wasm
  import opened StackMap
  import opened Emitter
  import opened Slots
  import opened Straightline
  import E = Executor

  /** Instructions that never branch, run one after the other. */
  function Steps(code: seq<W.Instr>, stack: seq<W.Value>, locals: seq<W.Value>): Option<(seq<W.Value>, seq<W.Value>)>
    decreases |code|
  {
    if code == [] then Some((stack, locals))
    else
      var n := |stack|;
      match code[0]
      case LocalGet(x) => if x >= |locals| then None else Steps(code[1..], stack + [locals[x]], locals)
      case LocalSet(x) => if x >= |locals| || n < 1 then None
        else Steps(code[1..], stack[..n - 1], locals[x := stack[n - 1]])
      case _ => None
  }

  lemma {:induction false} StepsExec(host: W.Host, code: seq<W.Instr>, stack: seq<W.Value>, st: W.State)
    requires Steps(code, stack, st.locals).Some?
    ensures W.Exec(host, code, stack, st)
      == W.Normal(Steps(code, stack, st.locals).value.0, st.(locals := Steps(code, stack, st.locals).value.1))
    decreases |code|
  {
    hide W.ExecNumeric, W.ExecCall, W.LeaveBlock;
    if code != [] {
      var n := |stack|;
      match code[0]
      case LocalGet(x) => StepsExec(host, code[1..], stack + [st.locals[x]], st);
      case LocalSet(x) => StepsExec(host, code[1..], stack[..n - 1], st.(locals := st.locals[x := stack[n - 1]]));
    }
  }

  /** Parking four words in locals `s3`, `s2`, `s1`, `s0`, the top first. */
  lemma ParkFour(host: W.Host, s0: nat, s1: nat, s2: nat, s3: nat, a: W.Value, b: W.Value, c: W.Value, d: W.Value,
      below: seq<W.Value>, st: W.State)
    requires s0 < |st.locals| && s1 < |st.locals| && s2 < |st.locals| && s3 < |st.locals|
    ensures W.Exec(host, [W.LocalSet(s3), W.LocalSet(s2), W.LocalSet(s1), W.LocalSet(s0)], below + [a, b, c, d], st)
      == W.Normal(below, st.(locals := st.locals[s3 := d][s2 := c][s1 := b][s0 := a]))
  {
    var code := [W.LocalSet(s3), W.LocalSet(s2), W.LocalSet(s1), W.LocalSet(s0)];
    var l1 := st.locals[s3 := d];
    var l2 := l1[s2 := c];
    var l3 := l2[s1 := b];
    var l4 := l3[s0 := a];
    var all := below + [a, b, c, d];
    var r1, r2, r3 := below + [a, b, c], below + [a, b], below + [a];
    assert all[..|all| - 1] == r1 && r1[..|r1| - 1] == r2 && r2[..|r2| - 1] == r3 && r3[..|r3| - 1] == below;
    var c1, c2, c3 := code[1..], code[2..], code[3..];
    assert c1[1..] == c2 && c2[1..] == c3 && c3[1..] == [];
    assert Steps([], below, l4) == Some((below, l4));
    assert Steps(c3, r3, l3) == Some((below, l4));
    assert Steps(c2, r2, l2) == Some((below, l4));
    assert Steps(c1, r1, l1) == Some((below, l4));
    assert Steps(code, all, st.locals) == Some((below, l4));
    StepsExec(host, code, all, st);
  }

  /** Whether two locals hold the same word. */
  lemma SameWord(host: W.Host, x: nat, y: nat, stack: seq<W.Value>, st: W.State)
    requires x < |st.locals| && y < |st.locals| && st.locals[x].I32V? && st.locals[y].I32V?
    ensures W.Exec(host, [W.LocalGet(x), W.LocalGet(y), W.Numeric(0x46)], stack, st)
      == W.Normal(stack + [W.I32V(if st.locals[x] == st.locals[y] then 1 else 0)], st)
  {
    hide W.ExecNumeric, W.ExecCall, W.LeaveBlock;
    var a, b := st.locals[x], st.locals[y];
    assert [W.LocalGet(x), W.LocalGet(y), W.Numeric(0x46)] == [W.LocalGet(x), W.LocalGet(y)] + [W.Numeric(0x46)];
    ExecTwo(host, W.LocalGet(x), W.LocalGet(y), stack, st);
    ExecThen(host, [W.LocalGet(x), W.LocalGet(y)], [W.Numeric(0x46)], stack, st, stack + [a] + [b], st);
    NumericCorrect(host, 0x46, a, b, stack, st);
  }

  /** What the sequence computes, whatever scratch locals it uses. */
  lemma CompareComputes(host: W.Host, s0: nat, s1: nat, s2: nat, s3: nat, negate: bool, a: M.Value, b: M.Value,
      below: seq<W.Value>, st: W.State)
    requires a.MStr? && b.MStr? && s0 < |st.locals| && s1 < |st.locals| && s2 < |st.locals| && s3 < |st.locals|
    ensures var parked := st.locals[s3 := W.I32V(b.len)][s2 := W.I32V(b.ptr)][s1 := W.I32V(a.len)][s0 := W.I32V(a.ptr)];
      var same := parked[s0] == parked[s2] && parked[s1] == parked[s3];
      W.Exec(host, CompareStrings(s0, s1, s2, s3, negate), below + W.Slots(a) + W.Slots(b), st)
      == W.Normal(below + [W.I32V(if same != negate then 1 else 0)], st.(locals := parked))
  {
    hide W.Exec, W.ExecInstr, W.ExecNumeric;
    var parked := st.locals[s3 := W.I32V(b.len)][s2 := W.I32V(b.ptr)][s1 := W.I32V(a.len)][s0 := W.I32V(a.ptr)];
    var w := st.(locals := parked);
    var all := below + W.Slots(a) + W.Slots(b);
    assert all == below + [W.I32V(a.ptr), W.I32V(a.len), W.I32V(b.ptr), W.I32V(b.len)];
    ParkFour(host, s0, s1, s2, s3, W.I32V(a.ptr), W.I32V(a.len), W.I32V(b.ptr), W.I32V(b.len), below, st);
    var f0 := W.I32V(if parked[s0] == parked[s2] then 1 else 0);
    var f1 := W.I32V(if parked[s1] == parked[s3] then 1 else 0);
    SameWord(host, s0, s2, below, w);
    SameWord(host, s1, s3, below + [f0], w);
    Conclude(host, f0.i32, f1.i32, negate, below, w);
    var park := [W.LocalSet(s3), W.LocalSet(s2), W.LocalSet(s1), W.LocalSet(s0)];
    var first := [W.LocalGet(s0), W.LocalGet(s2), W.Numeric(0x46)];
    var second := [W.LocalGet(s1), W.LocalGet(s3), W.Numeric(0x46)];
    var last := [W.Numeric(0x71)] + if negate then [W.Numeric(0x45)] else [];
    assert CompareStrings(s0, s1, s2, s3, negate) == park + (first + (second + last));
    ExecThen(host, park, first + (second + last), all, st, below, w);
    ExecThen(host, first, second + last, below, w, below + [f0], w);
    ExecThen(host, second, last, below + [f0], w, below + [f0] + [f1], w);
  }

  /** The conjunction of two flags, negated if asked for. */
  lemma Conclude(host: W.Host, x: I32, y: I32, negate: bool, below: seq<W.Value>, w: W.State)
    requires (x == 0 || x == 1) && (y == 0 || y == 1)
    ensures W.Exec(host, [W.Numeric(0x71)] + (if negate then [W.Numeric(0x45)] else []), below + [W.I32V(x)]
      + [W.I32V(y)], w)
      == W.Normal(below + [W.I32V(if (x == 1 && y == 1) != negate then 1 else 0)], w)
  {
    hide W.Exec, W.ExecInstr, W.ExecNumeric;
    var both: I32 := if x == 1 && y == 1 then 1 else 0;
    assert AndBits(x % TWO32, y % TWO32) == both;
    var start := below + [W.I32V(x)] + [W.I32V(y)];
    NumericCorrect(host, 0x71, W.I32V(x), W.I32V(y), below, w);
    if negate {
      UnopCorrect(host, 0x45, W.I32V(both), below, w);
      ExecThen(host, [W.Numeric(0x71)], [W.Numeric(0x45)], start, w, below + [W.I32V(both)], w);
    } else {
      assert [W.Numeric(0x71)] + [] == [W.Numeric(0x71)];
    }
  }

  // ---- contents --------------------------------------------------------------------------------------

  /** The string lies in memory. */
  predicate InBounds(memory: seq<Byte>, a: M.Value) {
    a.MStr? && Unsigned(a.ptr) + Unsigned(a.len) <= |memory|
  }

  function Contents(memory: seq<Byte>, a: M.Value): seq<Byte>
    requires InBounds(memory, a)
  {
    memory[Unsigned(a.ptr)..Unsigned(a.ptr) + Unsigned(a.len)]
  }

  /** What `==` or `!=` means, as the const evaluator has it. */
  function Expected(memory: seq<Byte>, negate: bool, a: M.Value, b: M.Value): (r: I32)
    requires InBounds(memory, a) && InBounds(memory, b)
    ensures E.Binary(if negate then M.Neq else M.Eq, E.Str(Contents(memory, a)), E.Str(Contents(memory, b)))
      == E.Gives(E.Bool(r == 1))
  {
    if (Contents(memory, a) == Contents(memory, b)) != negate then 1 else 0
  }

  // ---- functions with a frame: four different scratch locals --------------------------------------------

  predicate Distinct(s0: nat, s1: nat, s2: nat, s3: nat) {
    s0 != s1 && s0 != s2 && s0 != s3 && s1 != s2 && s1 != s3 && s2 != s3
  }

  /** The scratch locals of a function with a frame are such locals. */
  lemma ScratchDistinct(fn: M.Function)
    ensures Distinct(Scratch(fn, 0), Scratch(fn, 1), Scratch(fn, 2), Scratch(fn, 3))
  {
  }

  /** The answer is right if and only if the strings are the same piece of memory or differ. */
  lemma FramedComparisonExact(host: W.Host, s0: nat, s1: nat, s2: nat, s3: nat, negate: bool, a: M.Value, b: M.Value,
      below: seq<W.Value>, st: W.State)
    requires InBounds(st.store.memory, a) && InBounds(st.store.memory, b) && Distinct(s0, s1, s2, s3)
    requires s0 < |st.locals| && s1 < |st.locals| && s2 < |st.locals| && s3 < |st.locals|
    ensures var o := W.Exec(host, CompareStrings(s0, s1, s2, s3, negate), below + W.Slots(a) + W.Slots(b), st);
      && o.Normal? && o.st.store == st.store
      && (o.stack == below + [W.I32V(Expected(st.store.memory, negate, a, b))]
          <==> (a == b || Contents(st.store.memory, a) != Contents(st.store.memory, b)))
  {
    hide W.Exec;
    CompareComputes(host, s0, s1, s2, s3, negate, a, b, below, st);
    var flag := W.I32V(if (a == b) != negate then 1 else 0);
    var right := W.I32V(Expected(st.store.memory, negate, a, b));
    assert (below + [flag])[|below|] == flag && (below + [right])[|below|] == right;
  }

  /** The code that a function with a frame has for `==` and `!=` on strings. */
  lemma EmittedComparisonExact(fn: M.Function, host: W.Host, negate: bool, a: M.Value, b: M.Value, rest: Kinds,
      below: seq<W.Value>, st: W.State)
    requires InBounds(st.store.memory, a) && InBounds(st.store.memory, b)
    requires |rest| < MAX_STACK && Scratch(fn, 3) < |st.locals|
    ensures var r := EmitFramedBinary(fn, if negate then M.Neq else M.Eq, M.KStr, M.KStr, rest);
      && r.Ok? && r.stack == rest + [M.KI32]
      && var o := W.Exec(host, r.code, below + W.Slots(a) + W.Slots(b), st);
      && o.Normal? && o.st.store == st.store
      && (o.stack == below + [W.I32V(Expected(st.store.memory, negate, a, b))]
          <==> (a == b || Contents(st.store.memory, a) != Contents(st.store.memory, b)))
  {
    hide W.Exec, FrameBase;
    ScratchDistinct(fn);
    FramedComparisonExact(host, Scratch(fn, 0), Scratch(fn, 1), Scratch(fn, 2), Scratch(fn, 3), negate, a, b, below,
      st);
  }

  // ---- functions without a frame: one scratch local --------------------------------------------------------

  /**
   * Without a frame all four scratch locals are local 0. The emitted comparison answers "equal" for
   * all strings and leaves the left pointer in local 0; so it is right, and leaves the locals alone,
   * if and only if the contents are equal and local 0 held that pointer already.
   */
  lemma FramelessComparisonExact(host: W.Host, negate: bool, a: M.Value, b: M.Value, below: seq<W.Value>, st: W.State)
    requires InBounds(st.store.memory, a) && InBounds(st.store.memory, b) && |st.locals| > 0
    ensures W.Exec(host, StringEquality(negate), below + W.Slots(a) + W.Slots(b), st)
         == W.Normal(below + [W.I32V(Expected(st.store.memory, negate, a, b))], st)
       <==> Contents(st.store.memory, a) == Contents(st.store.memory, b) && st.locals[0] == W.I32V(a.ptr)
  {
    hide W.Exec;
    CompareComputes(host, 0, 0, 0, 0, negate, a, b, below, st);
    var parked := st.locals[0 := W.I32V(b.len)][0 := W.I32V(b.ptr)][0 := W.I32V(a.len)][0 := W.I32V(a.ptr)];
    assert parked == st.locals[0 := W.I32V(a.ptr)];
    assert parked == st.locals <==> st.locals[0] == W.I32V(a.ptr);
    var flag := W.I32V(if negate then 0 else 1);
    var right := W.I32V(Expected(st.store.memory, negate, a, b));
    assert (below + [flag])[|below|] == flag && (below + [right])[|below|] == right;
  }

  // ---- witnesses ---------------------------------------------------------------------------------------------

  /** A memory in which the one-byte strings at 16 and 32 are equal and the one at 48 is another. */
  const MEMORY: seq<Byte> := seq(64, i => if i == 48 then 98 else 97)

  const NO_CALLS := W.Host([], (s: Store, t: M.Trace, f: nat, a: seq<M.Value>) => None)

  const HERE := W.State([W.I32V(7), W.I32V(0), W.I32V(0), W.I32V(0)], [], 0, Store([], MEMORY, 0, 0))

  /** Equal strings at different addresses are found unequal in a function with a frame. */
  lemma EqualStringsFoundUnequal()
    ensures var a, b := M.MStr(16, 1), M.MStr(32, 1);
      && Contents(MEMORY, a) == Contents(MEMORY, b) && Expected(MEMORY, false, a, b) == 1
      && W.Exec(NO_CALLS, CompareStrings(0, 1, 2, 3, false), W.Slots(a) + W.Slots(b), HERE).Normal?
      && W.Exec(NO_CALLS, CompareStrings(0, 1, 2, 3, false), W.Slots(a) + W.Slots(b), HERE).stack == [W.I32V(0)]
  {
    hide W.Exec;
    var a, b := M.MStr(16, 1), M.MStr(32, 1);
    CompareComputes(NO_CALLS, 0, 1, 2, 3, false, a, b, [], HERE);
    assert [] + W.Slots(a) + W.Slots(b) == W.Slots(a) + W.Slots(b) && [] + [W.I32V(0)] == [W.I32V(0)];
    assert MEMORY[16..17] == [97] && MEMORY[32..33] == [97];
  }

  /** Different strings are found equal in a function without one, and local 0 is overwritten. */
  lemma DifferentStringsFoundEqual()
    ensures var a, b := M.MStr(16, 1), M.MStr(48, 1);
      && Contents(MEMORY, a) != Contents(MEMORY, b) && Expected(MEMORY, false, a, b) == 0
      && W.Exec(NO_CALLS, StringEquality(false), W.Slots(a) + W.Slots(b), HERE)
         == W.Normal([W.I32V(1)], HERE.(locals := HERE.locals[0 := W.I32V(16)]))
  {
    hide W.Exec;
    var a, b := M.MStr(16, 1), M.MStr(48, 1);
    CompareComputes(NO_CALLS, 0, 0, 0, 0, false, a, b, [], HERE);
    assert [] + W.Slots(a) + W.Slots(b) == W.Slots(a) + W.Slots(b) && [] + [W.I32V(1)] == [W.I32V(1)];
    assert MEMORY[16..17] == [97] && MEMORY[48..49] == [98];
    var l := HERE.locals;
    assert l[0 := W.I32V(1)][0 := W.I32V(48)][0 := W.I32V(1)][0 := W.I32V(16)] == l[0 := W.I32V(16)];
  }
}
