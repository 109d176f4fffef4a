/**
 * The address of a field as the emitted code computes it, when fields before it have run-time sizes:
 * the code walks over them, reading their lengths from memory. Where there are none, the address is
 * the one that static layout gives.
 */
module FieldAddress {
  import opened Bits
  import opened Words
  import opened Memory
  import opened Wasm
  import opened Straightline
  import opened FrameSlots
  import opened Aggregates

  /** The scratch locals: the aggregate's address, the running offset, and two more. */
  datatype Scratch = Scratch(base: nat, offset: nat, start: nat, length: nat) {
    predicate Apart() {
      && base != offset && base != start && base != length
      && offset != start && offset != length && start != length
    }
  }

  // ---- what is emitted -----------------------------------------------------------------------

  function AddTo(x: nat, c: I32, y: nat): seq<Instr> {
    [LocalGet(x), I32Const(c), Numeric(0x6a), LocalSet(y)]
  }

  function AlignCode(s: Scratch, a: nat): seq<Instr>
    requires 0 < a <= 8
  {
    if a == 1 then []
    else [LocalGet(s.offset), I32Const(a - 1), Numeric(0x6a), I32Const(0 - a), Numeric(0x71), LocalSet(s.offset)]
  }

  /** Base and offset, added up. */
  function SumCode(s: Scratch): seq<Instr> {
    [LocalGet(s.base), LocalGet(s.offset), Numeric(0x6a)]
  }

  /** Past the bytes of a string, and the zero after them, if it has any. */
  function PastText(s: Scratch): seq<Instr> {
    [LocalGet(s.offset), LocalGet(s.length), Numeric(0x6a), I32Const(1), Numeric(0x6a), LocalSet(s.offset)]
  }

  function TextCode(s: Scratch): seq<Instr> {
    SumCode(s) + [LocalSet(s.start)]
    + AddTo(s.offset, 8, s.offset)
    + ([LocalGet(s.start), I32Const(4), Numeric(0x6a)] + [MemLoad(TI32), LocalSet(s.length)])
    + [LocalGet(s.length), Numeric(0x45), IfElse(None, [], PastText(s))]
  }

  function TailCode(s: Scratch, width: nat, count: nat): seq<Instr>
    requires 0 < width <= 4
  {
    [LocalGet(s.offset)] + ([LocalGet(s.base), I32Const(Wrap32(count)), Numeric(0x6a)] + [MemLoad(TI32)])
    + (if width == 1 then [] else [I32Const(width), Numeric(0x6c)])
    + [Numeric(0x6a), LocalSet(s.offset)]
  }

  function AdvanceCode(s: Scratch, t: Type): Option<seq<Instr>> {
    match t
    case Text => Some(TextCode(s))
    case Tail(width, count) => if 0 < width <= 4 then Some(TailCode(s, width, count)) else None
    case _ =>
      match Size(t)
      case None => None
      case Some(n) => Some(if n == 0 then [] else AddTo(s.offset, Wrap32(n), s.offset))
  }

  /** The walk over the first `n` fields. */
  function WalkCode(s: Scratch, fields: seq<Field>, n: nat): Option<seq<Instr>>
    requires n <= |fields|
  {
    if n == 0 then Some([I32Const(0), LocalSet(s.offset)])
    else
      var before, align, advance := WalkCode(s, fields, n - 1), Align(fields[n - 1].ty),
        AdvanceCode(s, fields[n - 1].ty);
      if before.None? || align.None? || advance.None? then None
      else
        Alignments(fields[n - 1].ty);
        Some(before.value + AlignCode(s, align.value) + advance.value)
  }

  predicate Varies(t: Type) { t.Text? || t.Tail? }

  predicate HasDynamicLayout(fields: seq<Field>) {
    exists i :: 0 <= i < |fields| && Varies(fields[i].ty)
  }

  /** A direct field's address: a constant offset, or the walk up to the field. */
  function EmitFieldAddress(s: Scratch, fields: seq<Field>, i: nat): Option<seq<Instr>>
    requires LaidOut(fields, i)
  {
    Alignments(fields[i].ty);
    if !HasDynamicLayout(fields) then
      Some([LocalGet(s.base), I32Const(Wrap32(FieldOffset(fields, i))), Numeric(0x6a)])
    else
      match WalkCode(s, fields, i)
      case None => None
      case Some(code) => Some(code + AlignCode(s, Align(fields[i].ty).value) + SumCode(s))
  }

  // ---- what the walk means -------------------------------------------------------------------

  /** The word at an address, if it is in memory. */
  function Length(memory: seq<Byte>, a: nat): Option<nat> {
    if a + 4 <= |memory| && a < TWO32 then Some(WordAt(memory, a, 4)) else None
  }

  /** The size of an array; elements are at most four bytes wide. */
  function TailBytes(n: nat, width: nat): nat {
    match width
    case 1 => n
    case 2 => 2 * n
    case 3 => 3 * n
    case 4 => 4 * n
    case _ => 0
  }

  /** Where a field that starts at `offset` ends, given the lengths in memory. */
  function RunEnd(memory: seq<Byte>, base: nat, t: Type, offset: nat): (r: Option<nat>)
    ensures r.Some? ==> offset <= r.value
  {
    match t
    case Text =>
      var n := Length(memory, base + offset + 4);
      if n.None? then None
      else
        var end: nat := offset + 8 + if n.value == 0 then 0 else n.value + 1;
        Some(end)
    case Tail(width, count) =>
      var n := Length(memory, base + count);
      if n.None? then None
      else
        var end: nat := offset + TailBytes(n.value, width);
        Some(end)
    case _ =>
      var size := Size(t);
      if size.None? then None
      else
        var end: nat := offset + size.value;
        Some(end)
  }

  /** Where the first `n` fields end. */
  function RunWalk(memory: seq<Byte>, base: nat, fields: seq<Field>, n: nat): Option<nat>
    requires n <= |fields|
  {
    if n == 0 then Some(0)
    else
      var before, align := RunWalk(memory, base, fields, n - 1), Align(fields[n - 1].ty);
      if before.None? || align.None? then None
      else RunEnd(memory, base, fields[n - 1].ty, RoundUp(before.value, align.value))
  }

  predicate RunLaidOut(memory: seq<Byte>, base: nat, fields: seq<Field>, i: nat) {
    i < |fields| && RunWalk(memory, base, fields, i).Some? && Align(fields[i].ty).Some?
  }

  function RunOffset(memory: seq<Byte>, base: nat, fields: seq<Field>, i: nat): nat
    requires RunLaidOut(memory, base, fields, i)
  {
    RoundUp(RunWalk(memory, base, fields, i).value, Align(fields[i].ty).value)
  }

  lemma {:induction false} RunEndsGrow(memory: seq<Byte>, base: nat, fields: seq<Field>, i: nat, n: nat)
    requires i <= n <= |fields| && RunWalk(memory, base, fields, n).Some?
    ensures RunWalk(memory, base, fields, i).Some?
    ensures RunWalk(memory, base, fields, i).value <= RunWalk(memory, base, fields, n).value
    decreases n
  {
    if i < n {
      RunEndsGrow(memory, base, fields, i, n - 1);
    }
  }

  /** With their contents, fields still lie one after the other. */
  lemma RunFieldsApart(memory: seq<Byte>, base: nat, fields: seq<Field>, i: nat, j: nat)
    requires i < j && RunLaidOut(memory, base, fields, j)
    ensures RunLaidOut(memory, base, fields, i)
    ensures var end := RunEnd(memory, base, fields[i].ty, RunOffset(memory, base, fields, i));
      end.Some? && end.value <= RunOffset(memory, base, fields, j)
  {
    RunEndsGrow(memory, base, fields, i + 1, j);
    RunEndsGrow(memory, base, fields, i, j);
  }

  /** Before the first field whose size varies, the walk is the static one. */
  lemma {:induction false} RunIsStatic(memory: seq<Byte>, base: nat, fields: seq<Field>, i: nat)
    requires LaidOut(fields, i) && forall j :: 0 <= j < i ==> !Varies(fields[j].ty)
    ensures RunLaidOut(memory, base, fields, i) && RunOffset(memory, base, fields, i) == FieldOffset(fields, i)
    decreases i
  {
    hide RoundUp, Size, Align;
    if i > 0 {
      EndsGrow(fields, i, i + 1);
      RunIsStatic(memory, base, fields, i - 1);
    }
  }

  // ---- the code computes the walk ------------------------------------------------------------

  predicate Holds(st: State, x: nat, n: nat) {
    x < |st.locals| && n < TWO32 && st.locals[x] == I32V(Wrap32(n))
  }

  lemma WrapSum(n: nat, c: int)
    requires n < TWO32
    ensures Wrap32(Wrap32(n) + c) == Wrap32(n + c)
  {
  }

  /** A local plus a constant, into a local. */
  lemma AddToExec(host: Host, x: nat, c: I32, y: nat, n: nat, stack: seq<Value>, st: State)
    requires Holds(st, x, n) && y < |st.locals|
    ensures Exec(host, AddTo(x, c, y), stack, st) == Normal(stack, st.(locals := st.locals[y := I32V(Wrap32(n + c))]))
  {
    hide Exec, ExecInstr, Wrap32;
    AddExec(host, x, c, n, stack, st);
    var sum := I32V(Wrap32(n + c));
    assert AddTo(x, c, y) == [LocalGet(x), I32Const(c), Numeric(0x6a)] + [LocalSet(y)];
    ExecThen(host, [LocalGet(x), I32Const(c), Numeric(0x6a)], [LocalSet(y)], stack, st, stack + [sum], st);
    SetExec(host, y, sum, stack, st);
  }

  lemma AddExec(host: Host, x: nat, c: I32, n: nat, stack: seq<Value>, st: State)
    requires Holds(st, x, n)
    ensures Exec(host, [LocalGet(x), I32Const(c), Numeric(0x6a)], stack, st)
      == Normal(stack + [I32V(Wrap32(n + c))], st)
  {
    hide ExecNumeric, Wrap32;
    var a, b := st.locals[x], I32V(c);
    assert [LocalGet(x), I32Const(c), Numeric(0x6a)] == [LocalGet(x), I32Const(c)] + [Numeric(0x6a)];
    ExecTwo(host, LocalGet(x), I32Const(c), stack, st);
    ExecThen(host, [LocalGet(x), I32Const(c)], [Numeric(0x6a)], stack, st, stack + [a] + [b], st);
    NumericCorrect(host, 0x6a, a, b, stack, st);
    WrapSum(n, c);
  }

  lemma SetExec(host: Host, y: nat, v: Value, stack: seq<Value>, st: State)
    requires y < |st.locals|
    ensures Exec(host, [LocalSet(y)], stack + [v], st) == Normal(stack, st.(locals := st.locals[y := v]))
  {
    ExecOne(host, LocalSet(y), stack + [v], st);
    assert (stack + [v])[..|stack|] == stack;
  }

  /** Two locals added up. */
  lemma SumExec(host: Host, x: nat, y: nat, m: nat, n: nat, stack: seq<Value>, st: State)
    requires Holds(st, x, m) && Holds(st, y, n)
    ensures Exec(host, [LocalGet(x), LocalGet(y), Numeric(0x6a)], stack, st)
      == Normal(stack + [I32V(Wrap32(m + n))], st)
  {
    hide ExecNumeric, Wrap32;
    var a, b := st.locals[x], st.locals[y];
    assert [LocalGet(x), LocalGet(y), Numeric(0x6a)] == [LocalGet(x), LocalGet(y)] + [Numeric(0x6a)];
    ExecTwo(host, LocalGet(x), LocalGet(y), stack, st);
    ExecThen(host, [LocalGet(x), LocalGet(y)], [Numeric(0x6a)], stack, st, stack + [a] + [b], st);
    NumericCorrect(host, 0x6a, a, b, stack, st);
    WrapBoth(m, n);
  }

  lemma WrapBoth(m: nat, n: nat)
    requires m < TWO32 && n < TWO32
    ensures Wrap32(Wrap32(m) + Wrap32(n)) == Wrap32(m + n)
  {
    var b: int := Wrap32(n);
    WrapSum(m, b);
    assert b == n || b == n - TWO32;
    WrapShift(m + n);
  }

  lemma WrapShift(x: int)
    ensures Wrap32(x - TWO32) == Wrap32(x)
  {
  }

  // ---- rounding ------------------------------------------------------------------------------

  /** `(x + (a - 1)) & -a` in 32 bits is rounding up, for every alignment there is. */
  lemma RoundsUp(n: nat, a: nat)
    requires 0 < a <= 8 && n + a - 1 < TWO32
    ensures Wrap32(AndBits(Wrap32(n + (a - 1)) % TWO32, (0 - a) % TWO32)) == Wrap32(RoundUp(n, a))
  {
    hide AndBits, Pow2;
    WordSizes();
    var x := n + (a - 1);
    AndComplement(32, x, a - 1);
    assert Wrap32(x) % TWO32 == x;
    assert (0 - a) % TWO32 == TWO32 - 1 - (a - 1);
  }

  lemma MaskExec(host: Host, c: I32, v: I32, stack: seq<Value>, st: State)
    ensures Exec(host, [I32Const(c), Numeric(0x71)], stack + [I32V(v)], st)
      == Normal(stack + [I32V(Wrap32(AndBits(v % TWO32, c % TWO32)))], st)
  {
    hide ExecNumeric, AndBits, Wrap32;
    var before := stack + [I32V(v)];
    assert [I32Const(c), Numeric(0x71)] == [I32Const(c)] + [Numeric(0x71)];
    ExecOne(host, I32Const(c), before, st);
    ExecThen(host, [I32Const(c)], [Numeric(0x71)], before, st, before + [I32V(c)], st);
    NumericCorrect(host, 0x71, I32V(v), I32V(c), stack, st);
  }

  lemma AlignExec(host: Host, s: Scratch, a: nat, n: nat, stack: seq<Value>, st: State)
    requires 0 < a <= 8 && Holds(st, s.offset, n) && n + a - 1 < TWO32
    ensures Exec(host, AlignCode(s, a), stack, st)
      == Normal(stack, st.(locals := st.locals[s.offset := I32V(Wrap32(RoundUp(n, a)))]))
  {
    hide ExecInstr, AndBits, Wrap32;
    if a == 1 {
      assert st.locals[s.offset := st.locals[s.offset]] == st.locals;
    } else {
      AlignCodeExec(host, s, a, n, stack, st);
    }
  }

  lemma AlignCodeExec(host: Host, s: Scratch, a: nat, n: nat, stack: seq<Value>, st: State)
    requires 1 < a <= 8 && Holds(st, s.offset, n) && n + a - 1 < TWO32
    ensures Exec(host, AlignCode(s, a), stack, st)
      == Normal(stack, st.(locals := st.locals[s.offset := I32V(Wrap32(RoundUp(n, a)))]))
  {
    hide Exec, AndBits, Wrap32, RoundUp;
    var add, mask := [LocalGet(s.offset), I32Const(a - 1), Numeric(0x6a)], [I32Const(0 - a), Numeric(0x71)];
    var sum: I32 := Wrap32(n + (a - 1));
    var rounded := I32V(Wrap32(AndBits(sum % TWO32, (0 - a) % TWO32)));
    AddExec(host, s.offset, a - 1, n, stack, st);
    MaskExec(host, 0 - a, sum, stack, st);
    SetExec(host, s.offset, rounded, stack, st);
    RoundsUp(n, a);
    assert AlignCode(s, a) == add + (mask + [LocalSet(s.offset)]);
    ExecThen(host, add, mask + [LocalSet(s.offset)], stack, st, stack + [I32V(sum)], st);
    ExecThen(host, mask, [LocalSet(s.offset)], stack + [I32V(sum)], st, stack + [rounded], st);
  }

  // ---- strings and tails ---------------------------------------------------------------------

  /** Where the walk stands: the aggregate at `base`, the offset `n`. */
  predicate Walking(s: Scratch, st: State, base: nat, n: nat) {
    s.Apart() && Holds(st, s.base, base) && Holds(st, s.offset, n) && s.start < |st.locals| && s.length < |st.locals|
  }

  /** States of one walk differ in the scratch locals other than the base only. */
  predicate Scribbled(s: Scratch, a: State, b: State) {
    && |b.locals| == |a.locals| && b == a.(locals := b.locals)
    && forall x :: 0 <= x < |a.locals| && x != s.offset && x != s.start && x != s.length ==> b.locals[x] == a.locals[x]
  }

  lemma LoadExec(host: Host, y: nat, a: nat, stack: seq<Value>, st: State)
    requires y < |st.locals| && Length(st.store.memory, a).Some?
    ensures var n := Length(st.store.memory, a).value;
      n < TWO32
      && Exec(host, [MemLoad(TI32), LocalSet(y)], stack + [I32V(Wrap32(a))], st)
         == Normal(stack, st.(locals := st.locals[y := I32V(Wrap32(n))]))
  {
    hide Wrap32, WordAt;
    var n := Length(st.store.memory, a).value;
    LoadOne(host, a, stack, st);
    assert [MemLoad(TI32), LocalSet(y)] == [MemLoad(TI32)] + [LocalSet(y)];
    ExecThen(host, [MemLoad(TI32)], [LocalSet(y)], stack + [I32V(Wrap32(a))], st, stack + [I32V(Wrap32(n))], st);
    SetExec(host, y, I32V(Wrap32(n)), stack, st);
  }

  lemma LoadOne(host: Host, a: nat, stack: seq<Value>, st: State)
    requires Length(st.store.memory, a).Some?
    ensures Length(st.store.memory, a).value < TWO32
    ensures Exec(host, [MemLoad(TI32)], stack + [I32V(Wrap32(a))], st)
      == Normal(stack + [I32V(Wrap32(Length(st.store.memory, a).value))], st)
  {
    hide Wrap32, WordAt;
    var before := stack + [I32V(Wrap32(a))];
    ExecOne(host, MemLoad(TI32), before, st);
    assert before[..|stack|] == stack;
    WrapUnsigned(a);
    WordBound(st.store.memory, a, 4);
    Powers();
  }

  lemma {:induction false} WordBound(memory: seq<Byte>, a: nat, n: nat)
    requires a + n <= |memory|
    ensures WordAt(memory, a, n) < Power256(n)
    decreases n
  {
    if n > 0 {
      WordBound(memory, a + 1, n - 1);
    }
  }

  lemma LengthCode(host: Host, x: nat, n: nat, c: I32, a: nat, y: nat, stack: seq<Value>, st: State)
    requires Holds(st, x, n) && y < |st.locals| && Length(st.store.memory, a).Some? && Wrap32(n + c) == Wrap32(a)
    ensures Exec(host, [LocalGet(x), I32Const(c), Numeric(0x6a)] + [MemLoad(TI32), LocalSet(y)], stack, st)
      == Normal(stack, st.(locals := st.locals[y := I32V(Wrap32(Length(st.store.memory, a).value))]))
  {
    hide Exec, Wrap32, WordAt;
    AddExec(host, x, c, n, stack, st);
    LoadExec(host, y, a, stack, st);
    ExecThen(host, [LocalGet(x), I32Const(c), Numeric(0x6a)], [MemLoad(TI32), LocalSet(y)], stack, st,
      stack + [I32V(Wrap32(a))], st);
  }

  lemma StartCode(host: Host, s: Scratch, base: nat, n: nat, stack: seq<Value>, st: State)
    requires Walking(s, st, base, n)
    ensures Exec(host, SumCode(s) + [LocalSet(s.start)], stack, st)
      == Normal(stack, st.(locals := st.locals[s.start := I32V(Wrap32(base + n))]))
  {
    hide Exec, Wrap32;
    SumExec(host, s.base, s.offset, base, n, stack, st);
    SetExec(host, s.start, I32V(Wrap32(base + n)), stack, st);
    ExecThen(host, SumCode(s), [LocalSet(s.start)], stack, st, stack + [I32V(Wrap32(base + n))], st);
  }

  /** Past the header and, if there are any, the bytes and the zero after them. */
  lemma PastTextExec(host: Host, s: Scratch, n: nat, len: nat, stack: seq<Value>, st: State)
    requires Holds(st, s.offset, n) && Holds(st, s.length, len) && n + len < TWO32
    ensures Exec(host, PastText(s), stack, st)
      == Normal(stack, st.(locals := st.locals[s.offset := I32V(Wrap32(n + len + 1))]))
  {
    hide Exec, ExecInstr, Wrap32;
    var sum := I32V(Wrap32(n + len));
    var next := I32V(Wrap32(n + len + 1));
    SumExec(host, s.offset, s.length, n, len, stack, st);
    assert PastText(s) == [LocalGet(s.offset), LocalGet(s.length), Numeric(0x6a)]
      + ([I32Const(1), Numeric(0x6a)] + [LocalSet(s.offset)]);
    ExecThen(host, [LocalGet(s.offset), LocalGet(s.length), Numeric(0x6a)],
      [I32Const(1), Numeric(0x6a)] + [LocalSet(s.offset)], stack, st, stack + [sum], st);
    PlusOne(host, n + len, stack, st);
    ExecThen(host, [I32Const(1), Numeric(0x6a)], [LocalSet(s.offset)], stack + [sum], st, stack + [next], st);
    SetExec(host, s.offset, next, stack, st);
  }

  lemma PlusOne(host: Host, n: nat, stack: seq<Value>, st: State)
    requires n < TWO32
    ensures Exec(host, [I32Const(1), Numeric(0x6a)], stack + [I32V(Wrap32(n))], st)
      == Normal(stack + [I32V(Wrap32(n + 1))], st)
  {
    hide ExecNumeric, Wrap32;
    var before := stack + [I32V(Wrap32(n))];
    assert [I32Const(1), Numeric(0x6a)] == [I32Const(1)] + [Numeric(0x6a)];
    ExecOne(host, I32Const(1), before, st);
    ExecThen(host, [I32Const(1)], [Numeric(0x6a)], before, st, before + [I32V(1)], st);
    NumericCorrect(host, 0x6a, I32V(Wrap32(n)), I32V(1), stack, st);
    WrapSum(n, 1);
  }

  /** `if length == 0 {} else { past the bytes }`. */
  lemma MaybePast(host: Host, s: Scratch, n: nat, len: nat, stack: seq<Value>, st: State)
    requires Holds(st, s.offset, n) && Holds(st, s.length, len) && n + len < TWO32
    ensures Exec(host, [LocalGet(s.length), Numeric(0x45), IfElse(None, [], PastText(s))], stack, st)
      == Normal(stack,
           st.(locals := st.locals[s.offset := I32V(Wrap32(n + if len == 0 then 0 else len + 1))]))
  {
    hide ExecNumeric, Wrap32, PastText;
    var v := st.locals[s.length];
    var empty := I32V(if len == 0 then 1 else 0);
    var branch := [IfElse(None, [], PastText(s))];
    WrapZero(len);
    ExecOne(host, LocalGet(s.length), stack, st);
    UnopCorrect(host, 0x45, v, stack, st);
    assert [LocalGet(s.length), Numeric(0x45), IfElse(None, [], PastText(s))]
      == [LocalGet(s.length)] + ([Numeric(0x45)] + branch);
    ExecThen(host, [LocalGet(s.length)], [Numeric(0x45)] + branch, stack, st, stack + [v], st);
    ExecThen(host, [Numeric(0x45)], branch, stack + [v], st, stack + [empty], st);
    ExecOne(host, branch[0], stack + [empty], st);
    assert (stack + [empty])[..|stack|] == stack && stack + [] == stack;
    assert st.locals[s.offset := st.locals[s.offset]] == st.locals;
    PastTextExec(host, s, n, len, [], st);
  }

  lemma WrapZero(n: nat)
    requires n < TWO32
    ensures Wrap32(n) == 0 <==> n == 0
  {
  }

  lemma TextExec(host: Host, s: Scratch, base: nat, n: nat, stack: seq<Value>, st: State) returns (st1: State)
    requires Walking(s, st, base, n) && RunEnd(st.store.memory, base, Text, n).Some?
    requires RunEnd(st.store.memory, base, Text, n).value < TWO32
    ensures Exec(host, TextCode(s), stack, st) == Normal(stack, st1)
    ensures Walking(s, st1, base, RunEnd(st.store.memory, base, Text, n).value) && Scribbled(s, st, st1)
  {
    hide Exec, ExecInstr, Wrap32, WordAt, PastText;
    var len := Length(st.store.memory, base + n + 4).value;
    var a := st.(locals := st.locals[s.start := I32V(Wrap32(base + n))]);
    var b := a.(locals := a.locals[s.offset := I32V(Wrap32(n + 8))]);
    var c := b.(locals := b.locals[s.length := I32V(Wrap32(len))]);
    st1 := c.(locals := c.locals[s.offset := I32V(Wrap32(n + 8 + if len == 0 then 0 else len + 1))]);
    StartCode(host, s, base, n, stack, st);
    AddToExec(host, s.offset, 8, s.offset, n, stack, a);
    LengthCode(host, s.start, base + n, 4, base + n + 4, s.length, stack, b);
    MaybePast(host, s, n + 8, len, stack, c);
    var first := SumCode(s) + [LocalSet(s.start)];
    var load := [LocalGet(s.start), I32Const(4), Numeric(0x6a)] + [MemLoad(TI32), LocalSet(s.length)];
    var last := [LocalGet(s.length), Numeric(0x45), IfElse(None, [], PastText(s))];
    ExecThen(host, first, AddTo(s.offset, 8, s.offset), stack, st, stack, a);
    ExecThen(host, first + AddTo(s.offset, 8, s.offset), load, stack, st, stack, b);
    ExecThen(host, first + AddTo(s.offset, 8, s.offset) + load, last, stack, st, stack, c);
  }

  // ---- tails ---------------------------------------------------------------------------------

  /** Multiplying by an element width. */
  lemma TimesWidth(n: nat, width: nat)
    requires n < TWO32 && 0 < width <= 4
    ensures Wrap32(Times(Wrap32(n), width)) == Wrap32(TailBytes(n, width))
  {
    hide Times, Wrap32;
    TimesIsProduct(Wrap32(n), width);
    WrapIs(n);
    var b: int := Wrap32(n);
    assert width == 1 || width == 2 || width == 3 || width == 4;
    assert b * width == TailBytes(n, width) || b * width == TailBytes(n, width) - width * TWO32;
    WrapMultiple(TailBytes(n, width), width);
  }

  lemma WrapIs(n: nat)
    requires n < TWO32
    ensures Wrap32(n) == n || (Wrap32(n) < 0 && Wrap32(n) == n - TWO32)
  {
  }

  lemma WrapMultiple(x: int, k: nat)
    requires 0 < k <= 4
    ensures Wrap32(x - k * TWO32) == Wrap32(x)
  {
    WrapShift(x);
    WrapShift(x - TWO32);
    WrapShift(x - 2 * TWO32);
    WrapShift(x - 3 * TWO32);
  }

  lemma ScaleExec(host: Host, width: nat, n: nat, stack: seq<Value>, st: State)
    requires n < TWO32 && 0 < width <= 4
    ensures Exec(host, if width == 1 then [] else [I32Const(width), Numeric(0x6c)], stack + [I32V(Wrap32(n))], st)
      == Normal(stack + [I32V(Wrap32(TailBytes(n, width)))], st)
  {
    hide ExecNumeric, Wrap32, Times;
    if width != 1 {
      var before := stack + [I32V(Wrap32(n))];
      assert [I32Const(width), Numeric(0x6c)] == [I32Const(width)] + [Numeric(0x6c)];
      ExecOne(host, I32Const(width), before, st);
      ExecThen(host, [I32Const(width)], [Numeric(0x6c)], before, st, before + [I32V(width)], st);
      NumericCorrect(host, 0x6c, I32V(Wrap32(n)), I32V(width), stack, st);
      TimesWidth(n, width);
    }
  }

  lemma CountExec(host: Host, s: Scratch, base: nat, count: nat, stack: seq<Value>, st: State)
    requires Holds(st, s.base, base) && Length(st.store.memory, base + count).Some?
    ensures Length(st.store.memory, base + count).value < TWO32
    ensures Exec(host, [LocalGet(s.base), I32Const(Wrap32(count)), Numeric(0x6a)] + [MemLoad(TI32)], stack, st)
      == Normal(stack + [I32V(Wrap32(Length(st.store.memory, base + count).value))], st)
  {
    hide Exec, Wrap32, WordAt;
    AddExec(host, s.base, Wrap32(count), base, stack, st);
    WrapInner(base, count);
    LoadOne(host, base + count, stack, st);
    ExecThen(host, [LocalGet(s.base), I32Const(Wrap32(count)), Numeric(0x6a)], [MemLoad(TI32)], stack, st,
      stack + [I32V(Wrap32(base + count))], st);
  }

  lemma WrapInner(m: nat, n: nat)
    requires m + n < TWO32
    ensures Wrap32(m + Wrap32(n)) == Wrap32(m + n)
  {
    WrapShift(m + n);
  }

  lemma AddSet(host: Host, y: nat, m: nat, n: nat, stack: seq<Value>, st: State)
    requires m < TWO32 && n < TWO32 && y < |st.locals|
    ensures Exec(host, [Numeric(0x6a), LocalSet(y)], stack + [I32V(Wrap32(m))] + [I32V(Wrap32(n))], st)
      == Normal(stack, st.(locals := st.locals[y := I32V(Wrap32(m + n))]))
  {
    hide Exec, ExecInstr, ExecNumeric, Wrap32;
    var a, b, sum := I32V(Wrap32(m)), I32V(Wrap32(n)), I32V(Wrap32(m + n));
    NumericCorrect(host, 0x6a, a, b, stack, st);
    WrapBoth(m, n);
    SetExec(host, y, sum, stack, st);
    assert [Numeric(0x6a), LocalSet(y)] == [Numeric(0x6a)] + [LocalSet(y)];
    ExecThen(host, [Numeric(0x6a)], [LocalSet(y)], stack + [a] + [b], st, stack + [sum], st);
  }

  lemma TailExec(host: Host, s: Scratch, base: nat, n: nat, width: nat, count: nat, stack: seq<Value>, st: State)
      returns (st1: State)
    requires Walking(s, st, base, n) && 0 < width <= 4 && RunEnd(st.store.memory, base, Tail(width, count), n).Some?
    requires RunEnd(st.store.memory, base, Tail(width, count), n).value < TWO32
    ensures Exec(host, TailCode(s, width, count), stack, st) == Normal(stack, st1)
    ensures Walking(s, st1, base, RunEnd(st.store.memory, base, Tail(width, count), n).value) && Scribbled(s, st, st1)
  {
    hide Exec, ExecInstr, Wrap32, WordAt;
    var len := Length(st.store.memory, base + count).value;
    var size := TailBytes(len, width);
    var held := stack + [I32V(Wrap32(n))];
    st1 := st.(locals := st.locals[s.offset := I32V(Wrap32(n + size))]);
    GetExec(host, s.offset, stack, st);
    CountExec(host, s, base, count, held, st);
    ScaleExec(host, width, len, held, st);
    AddSet(host, s.offset, n, size, stack, st);
    var load := [LocalGet(s.base), I32Const(Wrap32(count)), Numeric(0x6a)] + [MemLoad(TI32)];
    var scale := if width == 1 then [] else [I32Const(width), Numeric(0x6c)];
    ExecThen(host, [LocalGet(s.offset)], load, stack, st, held, st);
    ExecThen(host, [LocalGet(s.offset)] + load, scale, stack, st, held + [I32V(Wrap32(len))], st);
    ExecThen(host, [LocalGet(s.offset)] + load + scale, [Numeric(0x6a), LocalSet(s.offset)], stack, st,
      held + [I32V(Wrap32(size))], st);
  }

  lemma GetExec(host: Host, x: nat, stack: seq<Value>, st: State)
    requires x < |st.locals|
    ensures Exec(host, [LocalGet(x)], stack, st) == Normal(stack + [st.locals[x]], st)
  {
    ExecOne(host, LocalGet(x), stack, st);
  }

  // ---- the whole walk ------------------------------------------------------------------------

  lemma AdvanceExec(host: Host, s: Scratch, base: nat, n: nat, t: Type, stack: seq<Value>, st: State)
      returns (st1: State)
    requires Walking(s, st, base, n) && AdvanceCode(s, t).Some? && RunEnd(st.store.memory, base, t, n).Some?
    requires RunEnd(st.store.memory, base, t, n).value < TWO32
    ensures Exec(host, AdvanceCode(s, t).value, stack, st) == Normal(stack, st1)
    ensures Walking(s, st1, base, RunEnd(st.store.memory, base, t, n).value) && Scribbled(s, st, st1)
  {
    hide Exec, ExecInstr, Wrap32, WordAt, TextCode, TailCode, Size;
    if t.Text? {
      st1 := TextExec(host, s, base, n, stack, st);
    } else if t.Tail? {
      st1 := TailExec(host, s, base, n, t.width, t.count, stack, st);
    } else {
      var size := Size(t).value;
      if size == 0 {
        st1 := st;
        NothingExec(host, stack, st);
      } else {
        st1 := st.(locals := st.locals[s.offset := I32V(Wrap32(n + size))]);
        AddToExec(host, s.offset, Wrap32(size), s.offset, n, stack, st);
        WrapInner(n, size);
      }
    }
  }

  lemma NothingExec(host: Host, stack: seq<Value>, st: State)
    ensures Exec(host, [], stack, st) == Normal(stack, st)
  {
  }

  lemma ZeroExec(host: Host, y: nat, stack: seq<Value>, st: State)
    requires y < |st.locals|
    ensures Exec(host, [I32Const(0), LocalSet(y)], stack, st)
      == Normal(stack, st.(locals := st.locals[y := I32V(0)]))
  {
    ExecTwo(host, I32Const(0), LocalSet(y), stack, st);
    assert (stack + [I32V(0)])[..|stack|] == stack;
  }

  lemma AlignedWalk(host: Host, s: Scratch, base: nat, n: nat, a: nat, stack: seq<Value>, st: State)
      returns (st1: State)
    requires Walking(s, st, base, n) && 0 < a <= 8 && n + a - 1 < TWO32
    ensures Exec(host, AlignCode(s, a), stack, st) == Normal(stack, st1)
    ensures Walking(s, st1, base, RoundUp(n, a)) && Scribbled(s, st, st1)
  {
    hide Exec, Wrap32, AndBits;
    AlignExec(host, s, a, n, stack, st);
    st1 := st.(locals := st.locals[s.offset := I32V(Wrap32(RoundUp(n, a)))]);
  }

  /** Offsets of the walk, with room for rounding them up, are 32-bit numbers. */
  predicate FitsWords(memory: seq<Byte>, base: nat, fields: seq<Field>, n: nat)
    requires n <= |fields|
  {
    RunWalk(memory, base, fields, n).Some? && RunWalk(memory, base, fields, n).value + 8 < TWO32
  }

  lemma {:induction false} WalkExec(host: Host, s: Scratch, fields: seq<Field>, n: nat, base: nat, stack: seq<Value>,
      st: State) returns (st1: State)
    requires n <= |fields| && WalkCode(s, fields, n).Some? && FitsWords(st.store.memory, base, fields, n)
    requires s.Apart() && Holds(st, s.base, base) && s.offset < |st.locals| && s.start < |st.locals|
      && s.length < |st.locals|
    ensures Exec(host, WalkCode(s, fields, n).value, stack, st) == Normal(stack, st1)
    ensures Walking(s, st1, base, RunWalk(st.store.memory, base, fields, n).value) && Scribbled(s, st, st1)
    decreases n
  {
    hide Exec, ExecInstr, Wrap32, AlignCode, AdvanceCode, RunEnd, Align, RoundUp;
    if n == 0 {
      ZeroExec(host, s.offset, stack, st);
      st1 := st.(locals := st.locals[s.offset := I32V(0)]);
      WrapZero(0);
    } else {
      var memory, f := st.store.memory, fields[n - 1];
      RunEndsGrow(memory, base, fields, n - 1, n);
      var w0 := WalkExec(host, s, fields, n - 1, base, stack, st);
      var a := Align(f.ty).value;
      Alignments(f.ty);
      var before := RunWalk(memory, base, fields, n - 1).value;
      var w1 := AlignedWalk(host, s, base, before, a, stack, w0);
      st1 := AdvanceExec(host, s, base, RoundUp(before, a), f.ty, stack, w1);
      var code := WalkCode(s, fields, n - 1).value;
      ExecThen(host, code, AlignCode(s, a), stack, st, stack, w0);
      ExecThen(host, code + AlignCode(s, a), AdvanceCode(s, f.ty).value, stack, st, stack, w1);
    }
  }

  /** The emitted code pushes the field's address: the base plus the walked offset. */
  lemma FieldAddressExec(host: Host, s: Scratch, fields: seq<Field>, i: nat, base: nat, stack: seq<Value>, st: State)
      returns (st1: State)
    requires LaidOut(fields, i) && EmitFieldAddress(s, fields, i).Some?
    requires FitsWords(st.store.memory, base, fields, i) && FieldOffset(fields, i) + base < TWO32
    requires s.Apart() && Holds(st, s.base, base) && s.offset < |st.locals| && s.start < |st.locals|
      && s.length < |st.locals|
    ensures RunLaidOut(st.store.memory, base, fields, i)
    ensures Exec(host, EmitFieldAddress(s, fields, i).value, stack, st)
      == Normal(stack + [I32V(Wrap32(base + RunOffset(st.store.memory, base, fields, i)))], st1)
    ensures Scribbled(s, st, st1)
  {
    hide Exec, ExecInstr, Wrap32, AlignCode, WalkCode, RunEnd, RoundUp, Align, Walk;
    AlignKnown(fields, i);
    if HasDynamicLayout(fields) {
      var a := Align(fields[i].ty).value;
      Alignments(fields[i].ty);
      var w0 := WalkExec(host, s, fields, i, base, stack, st);
      st1 := AlignedWalk(host, s, base, RunWalk(st.store.memory, base, fields, i).value, a, stack, w0);
      var code := WalkCode(s, fields, i).value;
      ExecThen(host, code, AlignCode(s, a), stack, st, stack, w0);
      SumExec(host, s.base, s.offset, base, RunOffset(st.store.memory, base, fields, i), stack, st1);
      ExecThen(host, code + AlignCode(s, a), SumCode(s), stack, st, stack, st1);
    } else {
      st1 := st;
      RunIsStatic(st.store.memory, base, fields, i);
      AddExec(host, s.base, Wrap32(FieldOffset(fields, i)), base, stack, st);
      WrapInner(base, FieldOffset(fields, i));
    }
  }

  lemma AlignKnown(fields: seq<Field>, i: nat)
    requires LaidOut(fields, i)
    ensures Align(fields[i].ty).Some?
  {
  }

  /** Without a varying field before it, a field's run-time address is its static one. */
  lemma StaticAddress(host: Host, s: Scratch, fields: seq<Field>, i: nat, base: nat, stack: seq<Value>, st: State)
    requires LaidOut(fields, i) && EmitFieldAddress(s, fields, i).Some?
    requires FitsWords(st.store.memory, base, fields, i) && FieldOffset(fields, i) + base < TWO32
    requires s.Apart() && Holds(st, s.base, base) && s.offset < |st.locals| && s.start < |st.locals|
      && s.length < |st.locals|
    requires forall j :: 0 <= j < i ==> !Varies(fields[j].ty)
    ensures var o := Exec(host, EmitFieldAddress(s, fields, i).value, stack, st);
      o.Normal? && o.stack == stack + [I32V(Wrap32(base + FieldOffset(fields, i)))]
  {
    hide Exec, EmitFieldAddress, Wrap32, RunWalk, RoundUp, Walk;
    var st1 := FieldAddressExec(host, s, fields, i, base, stack, st);
    RunIsStatic(st.store.memory, base, fields, i);
  }
}
