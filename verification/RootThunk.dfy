/**
 * The root allocator as it is emitted: the instructions of the thunk, run on the WebAssembly machine,
 * serve every request as `RootAllocator` says, wrap-around included.
 */
module RootThunk {
  import opened Words
  import opened Bits
  import opened Memory
  import M = Mir
  import opened Wasm
  import opened Straightline
  import opened RootAllocator

  // ---- expressions in straight code ----------------------------------------------------------------------------

  datatype Expr = Local(x: nat) | Global(g: nat) | Const(c: I32) | IsZero(e: Expr) | Apply(op: Byte, l: Expr, r: Expr)

  function Code(e: Expr): seq<Instr> {
    match e
    case Local(x) => [LocalGet(x)]
    case Global(g) => [GlobalGet(g)]
    case Const(c) => [I32Const(c)]
    case IsZero(a) => Code(a) + [Numeric(0x45)]
    case Apply(op, l, r) => Code(l) + Code(r) + [Numeric(op)]
  }

  function Eval(e: Expr, st: State): Option<I32> {
    match e
    case Local(x) => if x < |st.locals| && st.locals[x].I32V? then Some(st.locals[x].i32) else None
    case Global(g) => if g < |st.store.globals| then Some(st.store.globals[g]) else None
    case Const(c) => Some(c)
    case IsZero(a) =>
      (match Eval(a, st)
       case Some(v) => Some(if v == 0 then 1 else 0)
       case None => None)
    case Apply(op, l, r) =>
      match (Eval(l, st), Eval(r, st))
      case (Some(a), Some(b)) =>
        if IsUnop(op) || !I32Binop(op, a, b).Value? || !I32Binop(op, a, b).v.I32V? then None
        else Some(I32Binop(op, a, b).v.i32)
      case _ => None
  }

  lemma {:induction false} EvalExec(host: Host, e: Expr, stack: seq<Value>, st: State)
    requires Eval(e, st).Some?
    ensures Exec(host, Code(e), stack, st) == Normal(stack + [I32V(Eval(e, st).value)], st)
    decreases e
  {
    hide Exec, ExecInstr, I32Binop;
    match e
    case IsZero(a) =>
      EvalExec(host, a, stack, st);
      var v := I32V(Eval(a, st).value);
      UnopCorrect(host, 0x45, v, stack, st);
      ExecThen(host, Code(a), [Numeric(0x45)], stack, st, stack + [v], st);
    case Apply(op, l, r) =>
      var a, b := I32V(Eval(l, st).value), I32V(Eval(r, st).value);
      EvalExec(host, l, stack, st);
      EvalExec(host, r, stack + [a], st);
      NumericCorrect(host, op, a, b, stack, st);
      assert Code(e) == Code(l) + (Code(r) + [Numeric(op)]);
      ExecThen(host, Code(l), Code(r) + [Numeric(op)], stack, st, stack + [a], st);
      ExecThen(host, Code(r), [Numeric(op)], stack + [a], st, stack + [a] + [b], st);
    case _ => LeafExec(host, e, stack, st);
  }

  lemma LeafExec(host: Host, e: Expr, stack: seq<Value>, st: State)
    requires Eval(e, st).Some? && !e.IsZero? && !e.Apply?
    ensures Exec(host, Code(e), stack, st) == Normal(stack + [I32V(Eval(e, st).value)], st)
  {
    hide Exec;
    ExecOne(host, Code(e)[0], stack, st);
  }

  /** An instruction on the value of an expression. */
  lemma OnValue(host: Host, e: Expr, i: Instr, st: State)
    requires Eval(e, st).Some?
    ensures Exec(host, Code(e) + [i], [], st) == ExecInstr(host, i, [I32V(Eval(e, st).value)], st)
  {
    hide Exec, ExecInstr;
    var v := I32V(Eval(e, st).value);
    EvalExec(host, e, [], st);
    assert [] + [v] == [v];
    ExecThen(host, Code(e), [i], [], st, [v], st);
    ExecOne(host, i, [v], st);
  }

  lemma SetLocal(host: Host, e: Expr, x: nat, st: State)
    requires Eval(e, st).Some? && x < |st.locals|
    ensures Exec(host, Code(e) + [LocalSet(x)], [], st)
      == Normal([], st.(locals := st.locals[x := I32V(Eval(e, st).value)]))
  {
    hide Exec;
    OnValue(host, e, LocalSet(x), st);
    assert [I32V(Eval(e, st).value)][..0] == [];
  }

  lemma SetGlobal(host: Host, e: Expr, g: nat, st: State)
    requires Eval(e, st).Some? && g < |st.store.globals|
    ensures Exec(host, Code(e) + [GlobalSet(g)], [], st)
      == Normal([], st.(store := st.store.(globals := st.store.globals[g := Eval(e, st).value])))
  {
    hide Exec;
    OnValue(host, e, GlobalSet(g), st);
    assert [I32V(Eval(e, st).value)][..0] == [];
  }

  // ---- the instructions of the thunk -----------------------------------------------------------------------------

  /** Parameters: self, address, alignment, present size, address of the new size, flags, source position. */
  const ADDR := 1
  const ALIGN := 2
  const CUR_SIZE := 3
  const SIZE_PTR := 4
  const FLAGS := 5
  const BASE := 7
  const SIZE := 8
  const CURSOR := 9
  const ALIGNMENT := 10
  const LOCALS := 11

  /** Answers 0 when the condition holds. */
  function RejectIf(e: Expr): seq<Instr> {
    Code(e) + [If([I32Const(0), Return])]
  }

  function Checks(): seq<Instr> {
    RejectIf(IsZero(Local(SIZE_PTR))) + (RejectIf(Local(ADDR)) + (RejectIf(Local(CUR_SIZE)) + (RejectIf(Local(FLAGS))
      + RejectIf(IsZero(Local(ALIGN))))))
  }

  const LOAD_SIZE := [LocalGet(SIZE_PTR), MemLoad(TI32), LocalSet(SIZE)]

  const CLAMP := [If([I32Const(4), LocalSet(ALIGNMENT)])]

  function Align(): seq<Instr> {
    (Code(Local(ALIGN)) + [LocalSet(ALIGNMENT)]) + (Code(Apply(0x49, Local(ALIGNMENT), Const(4))) + CLAMP)
  }

  function RoundedUp(heap: nat): Expr {
    Apply(0x71, Apply(0x6a, Global(heap), Apply(0x6b, Local(ALIGNMENT), Const(1))),
      Apply(0x6b, Const(0), Local(ALIGNMENT)))
  }

  const END := Apply(0x6a, Local(BASE), Local(SIZE))

  function Reserve(heap: nat): seq<Instr> {
    (Code(RoundedUp(heap)) + [LocalSet(BASE)]) + ((Code(END) + [GlobalSet(heap)]) + (Code(Local(BASE))
      + [LocalSet(CURSOR)]))
  }

  const STORE_ZERO := [LocalGet(CURSOR), I32Const(0), MemStore8]

  function Turn(): seq<Instr> {
    (Code(Apply(0x4f, Local(CURSOR), END)) + [BrIf(1)])
    + (STORE_ZERO + ((Code(Apply(0x6a, Local(CURSOR), Const(1))) + [LocalSet(CURSOR)]) + [Br(0)]))
  }

  function Clear(): seq<Instr> { [Instr.Block([Loop(Turn())])] }

  function Thunk(heap: nat): seq<Instr> {
    Checks() + (LOAD_SIZE
      + (RejectIf(IsZero(Local(SIZE))) + (Align() + (Reserve(heap) + (Clear() + [LocalGet(BASE)])))))
  }

  // ---- words -----------------------------------------------------------------------------------------------------

  lemma UnsignedIs(x: I32)
    ensures Unsigned(x) == x % TWO32 && Wrap32(Unsigned(x)) == x
  {
  }

  lemma UnsignedWrap(x: int)
    ensures Unsigned(Wrap32(x)) == x % TWO32
  {
  }

  lemma SumWraps(a: I32, b: I32)
    ensures Unsigned(Wrap32(a + b)) == (Unsigned(a) + Unsigned(b)) % TWO32
  {
  }

  lemma DifferenceWraps(a: I32, b: I32)
    ensures Unsigned(Wrap32(a - b)) == (Unsigned(a) - Unsigned(b)) % TWO32
  {
  }

  /** The address that the rounding code computes. */
  lemma BaseComputed(g: I32, a: I32)
    requires Unsigned(a) > 0
    ensures 0 <= Base(Unsigned(g), Unsigned(a)) < TWO32
    ensures I32Binop(0x71, Wrap32(g + Wrap32(a - 1)), Wrap32(0 - a))
      == Value(I32V(Wrap32(Base(Unsigned(g), Unsigned(a)))))
  {
    hide AndBits, Wrap32, Unsigned;
    var x, y := Wrap32(g + Wrap32(a - 1)), Wrap32(0 - a);
    SumWraps(g, Wrap32(a - 1));
    DifferenceWraps(a, 1);
    DifferenceWraps(0, a);
    UnsignedIs(x);
    UnsignedIs(y);
    SmallWords(a);
    AndBelow(Unsigned(x), Unsigned(y));
  }

  lemma SmallWords(a: I32)
    ensures Unsigned(0) == 0 && Unsigned(1) == 1 && Unsigned(a) < TWO32
  {
  }

  // ---- the parts ---------------------------------------------------------------------------------------------------

  lemma RejectExec(host: Host, e: Expr, st: State)
    requires Eval(e, st).Some?
    ensures Exec(host, RejectIf(e), [], st)
      == if Eval(e, st).value != 0 then Returning([I32V(0)], st) else Normal([], st)
  {
    hide Exec, Eval, Code;
    var v := Eval(e, st).value;
    OnValue(host, e, If([I32Const(0), Return]), st);
    assert [I32V(v)][..0] == [];
    if v != 0 {
      ExecTwo(host, I32Const(0), Return, [], st);
      assert [] + [I32V(0)] == [I32V(0)];
    }
  }

  /** `b` after `a`, when `a` may answer. */
  lemma Then(host: Host, a: seq<Instr>, b: seq<Instr>, st: State, reject: bool)
    requires Exec(host, a, [], st) == if reject then Returning([I32V(0)], st) else Normal([], st)
    ensures Exec(host, a + b, [], st) == if reject then Returning([I32V(0)], st) else Exec(host, b, [], st)
  {
    ExecConcat(host, a, b, [], st);
  }

  /** The locals are words: those of the request, and four more. */
  predicate Asked(st: State, r: Request) {
    && |st.locals| == LOCALS && (forall i :: 0 <= i < LOCALS ==> st.locals[i].I32V?)
    && Unsigned(st.locals[ADDR].i32) == r.addr && Unsigned(st.locals[ALIGN].i32) == r.align
    && Unsigned(st.locals[CUR_SIZE].i32) == r.curSize && Unsigned(st.locals[SIZE_PTR].i32) == r.sizePtr
    && Unsigned(st.locals[FLAGS].i32) == r.flags
    && (r.sizePtr + 4 <= |st.store.memory| ==> WordAt(st.store.memory, r.sizePtr, 4) == r.size)
  }

  /** What is seen without looking at the size. */
  predicate RejectedAtOnce(r: Request) {
    r.sizePtr == 0 || r.addr != 0 || r.curSize != 0 || r.flags != 0 || r.align == 0
  }

  lemma ChecksExec(host: Host, st: State, r: Request)
    requires Asked(st, r)
    ensures Exec(host, Checks(), [], st)
      == if RejectedAtOnce(r) then Returning([I32V(0)], st) else Normal([], st)
  {
    hide Exec, RejectIf;
    var a, b, c, d, e := RejectIf(IsZero(Local(SIZE_PTR))), RejectIf(Local(ADDR)), RejectIf(Local(CUR_SIZE)),
      RejectIf(Local(FLAGS)), RejectIf(IsZero(Local(ALIGN)));
    RejectExec(host, IsZero(Local(SIZE_PTR)), st);
    RejectExec(host, Local(ADDR), st);
    RejectExec(host, Local(CUR_SIZE), st);
    RejectExec(host, Local(FLAGS), st);
    RejectExec(host, IsZero(Local(ALIGN)), st);
    Then(host, a, b + (c + (d + e)), st, r.sizePtr == 0);
    Then(host, b, c + (d + e), st, r.addr != 0);
    Then(host, c, d + e, st, r.curSize != 0);
    Then(host, d, e, st, r.flags != 0);
  }

  function SizeRead(st: State, r: Request): State
    requires Asked(st, r)
  {
    st.(locals := st.locals[SIZE := I32V(Wrap32(r.size))])
  }

  lemma LoadExec(host: Host, st: State, r: Request)
    requires Asked(st, r)
    ensures Exec(host, LOAD_SIZE, [], st)
      == if r.sizePtr + 4 > |st.store.memory| then Trap(st) else Normal([], SizeRead(st, r))
  {
    hide Exec, WordAt;
    var v := I32V(Wrap32(r.size));
    assert LOAD_SIZE == Code(Local(SIZE_PTR)) + [MemLoad(TI32)] + [LocalSet(SIZE)];
    OnValue(host, Local(SIZE_PTR), MemLoad(TI32), st);
    ExecConcat(host, Code(Local(SIZE_PTR)) + [MemLoad(TI32)], [LocalSet(SIZE)], [], st);
    assert [st.locals[SIZE_PTR]][..0] == [] && [] + [v] == [v] && [v][..0] == [];
    ExecOne(host, LocalSet(SIZE), [v], st);
  }

  function Aligned(st: State, r: Request): State
    requires |st.locals| == LOCALS
  {
    st.(locals := st.locals[ALIGNMENT := I32V(Wrap32(Alignment(r)))])
  }

  lemma AlignExec(host: Host, st: State, r: Request)
    requires Asked(st, r)
    ensures Exec(host, Align(), [], st) == Normal([], Aligned(st, r))
  {
    hide Exec;
    var a := st.locals[ALIGN].i32;
    var st1 := st.(locals := st.locals[ALIGNMENT := I32V(a)]);
    var test := Apply(0x49, Local(ALIGNMENT), Const(4));
    UnsignedIs(a);
    SetLocal(host, Local(ALIGN), ALIGNMENT, st);
    OnValue(host, test, CLAMP[0], st1);
    assert CLAMP == [CLAMP[0]] && [I32V(Eval(test, st1).value)][..0] == [];
    ExecThen(host, Code(Local(ALIGN)) + [LocalSet(ALIGNMENT)], Code(test) + CLAMP, [], st, [], st1);
    if Unsigned(a) < 4 {
      ExecTwo(host, I32Const(4), LocalSet(ALIGNMENT), [], st1);
      assert ([] + [I32V(4)])[..0] == [];
      assert st1.locals[ALIGNMENT := I32V(4)] == Aligned(st, r).locals;
      assert Wrap32(4) == 4;
    } else {
      assert st1.locals == Aligned(st, r).locals;
    }
  }

  /** The block's address and end, in 32 bits. */
  function BlockStart(heap: Word, r: Request): int
    requires r.align > 0
  {
    Base(heap, Alignment(r))
  }

  function BlockEnd(heap: Word, r: Request): int
    requires r.align > 0
  {
    (BlockStart(heap, r) + r.size) % TWO32
  }

  function Reserved(st: State, heap: nat, r: Request): State
    requires |st.locals| == LOCALS && heap < |st.store.globals| && r.align > 0
  {
    var h := Unsigned(st.store.globals[heap]);
    var base := I32V(Wrap32(BlockStart(h, r)));
    st.(locals := st.locals[BASE := base][CURSOR := base],
      store := st.store.(globals := st.store.globals[heap := Wrap32(BlockEnd(h, r))]))
  }

  lemma ReserveExec(host: Host, heap: nat, st: State, r: Request)
    requires |st.locals| == LOCALS && heap < |st.store.globals| && r.align > 0
    requires st.locals[SIZE] == I32V(Wrap32(r.size)) && st.locals[ALIGNMENT] == I32V(Wrap32(Alignment(r)))
    ensures Exec(host, Reserve(heap), [], st) == Normal([], Reserved(st, heap, r))
  {
    hide Exec, AndBits, Base, I32Binop, Wrap32, Unsigned;
    var g, a := st.store.globals[heap], Wrap32(Alignment(r));
    SmallWords(g);
    AlignmentWord(r);
    BaseComputed(g, a);
    RoundedEval(heap, st, g, a);
    UnsignedWrap(BlockStart(Unsigned(g), r));
    var base := Wrap32(BlockStart(Unsigned(g), r));
    var end := Wrap32(BlockEnd(Unsigned(g), r));
    assert Unsigned(base) == BlockStart(Unsigned(g), r);
    var st1 := st.(locals := st.locals[BASE := I32V(base)]);
    var st2 := st1.(store := st1.store.(globals := st1.store.globals[heap := end]));
    EndComputed(st1, base, r);
    SetLocal(host, RoundedUp(heap), BASE, st);
    SetGlobal(host, END, heap, st1);
    SetLocal(host, Local(BASE), CURSOR, st2);
    ExecThen(host, Code(RoundedUp(heap)) + [LocalSet(BASE)],
      (Code(END) + [GlobalSet(heap)]) + (Code(Local(BASE)) + [LocalSet(CURSOR)]), [], st, [], st1);
    ExecThen(host, Code(END) + [GlobalSet(heap)], Code(Local(BASE)) + [LocalSet(CURSOR)], [], st1, [], st2);
  }

  lemma AlignmentWord(r: Request)
    requires r.align > 0
    ensures Unsigned(Wrap32(Alignment(r))) == Alignment(r) > 0
  {
  }

  lemma RoundedEval(heap: nat, st: State, g: I32, a: I32)
    requires |st.locals| == LOCALS && heap < |st.store.globals| && st.store.globals[heap] == g
      && st.locals[ALIGNMENT] == I32V(a) && Unsigned(a) > 0
    ensures Eval(RoundedUp(heap), st) == Some(Wrap32(Base(Unsigned(g), Unsigned(a))))
  {
    hide Wrap32, Unsigned, AndBits, Base;
    BaseComputed(g, a);
    var down := Apply(0x6b, Local(ALIGNMENT), Const(1));
    var top := Apply(0x6a, Global(heap), down);
    var mask := Apply(0x6b, Const(0), Local(ALIGNMENT));
    assert Eval(down, st) == Some(Wrap32(a - 1));
    assert Eval(top, st) == Some(Wrap32(g + Wrap32(a - 1)));
    assert Eval(mask, st) == Some(Wrap32(0 - a));
  }

  lemma EndComputed(st: State, base: I32, r: Request)
    requires |st.locals| == LOCALS && st.locals[BASE] == I32V(base) && st.locals[SIZE] == I32V(Wrap32(r.size))
    ensures Eval(END, st) == Some(Wrap32((Unsigned(base) + r.size) % TWO32))
  {
    hide Wrap32, Unsigned;
    var size := Wrap32(r.size);
    assert Eval(END, st) == Some(Wrap32(base as int + size as int));
    SumWraps(base, size);
    UnsignedWrap(r.size);
    UnsignedIs(Wrap32(base as int + size as int));
  }

  // ---- the loop ----------------------------------------------------------------------------------------------------

  function Cleared(memory: seq<Byte>, from: nat, to: nat): (r: seq<Byte>)
    ensures |r| == |memory|
  {
    seq(|memory|, i requires 0 <= i < |memory| => if from <= i < to then 0 else memory[i])
  }

  predicate Clearing(st: State, end: nat) {
    |st.locals| == LOCALS && st.locals[CURSOR].I32V? && end < TWO32 && Eval(END, st) == Some(Wrap32(end))
  }

  function At(st: State): nat
    requires |st.locals| == LOCALS && st.locals[CURSOR].I32V?
  {
    Unsigned(st.locals[CURSOR].i32)
  }

  /** The state with the cursor at `c`, and everything from where it was cleared. */
  function Moved(st: State, c: nat): State
    requires |st.locals| == LOCALS && st.locals[CURSOR].I32V?
  {
    st.(locals := st.locals[CURSOR := I32V(Wrap32(c))],
      store := st.store.(memory := Cleared(st.store.memory, At(st), c)))
  }

  lemma StoreZeroExec(host: Host, st: State)
    requires |st.locals| == LOCALS && st.locals[CURSOR].I32V?
    ensures Exec(host, STORE_ZERO, [], st)
      == if At(st) >= |st.store.memory| then Trap(st)
         else Normal([], st.(store := st.store.(memory := st.store.memory[At(st) := 0])))
  {
    hide Exec;
    var v := st.locals[CURSOR];
    var two := [] + [v] + [I32V(0)];
    assert STORE_ZERO == [LocalGet(CURSOR), I32Const(0)] + [MemStore8];
    ExecTwo(host, LocalGet(CURSOR), I32Const(0), [], st);
    ExecThen(host, [LocalGet(CURSOR), I32Const(0)], [MemStore8], [], st, two, st);
    ExecOne(host, MemStore8, two, st);
    assert two[0] == v && two[1] == I32V(0) && two[..0] == [];
  }

  lemma TestExec(host: Host, st: State, end: nat)
    requires Clearing(st, end)
    ensures Exec(host, Code(Apply(0x4f, Local(CURSOR), END)) + [BrIf(1)], [], st)
      == if At(st) >= end then Branch(1, [], st) else Normal([], st)
  {
    hide Exec, Wrap32, Code;
    UnsignedWrap(end);
    var test := Apply(0x4f, Local(CURSOR), END);
    assert Eval(test, st) == Some(if At(st) >= end then 1 else 0);
    OnValue(host, test, BrIf(1), st);
    assert [I32V(Eval(test, st).value)][..0] == [];
  }

  lemma StepExec(host: Host, st: State, end: nat)
    requires |st.locals| == LOCALS && st.locals[CURSOR].I32V? && At(st) < end < TWO32
    ensures Exec(host, (Code(Apply(0x6a, Local(CURSOR), Const(1))) + [LocalSet(CURSOR)]) + [Br(0)], [], st)
      == Branch(0, [], st.(locals := st.locals[CURSOR := I32V(Wrap32(At(st) + 1))]))
  {
    hide Exec, Code;
    var next := Apply(0x6a, Local(CURSOR), Const(1));
    var c := st.locals[CURSOR].i32;
    UnsignedIs(c);
    assert Wrap32(c as int + 1) == Wrap32(At(st) + 1);
    var st1 := st.(locals := st.locals[CURSOR := I32V(Wrap32(At(st) + 1))]);
    SetLocal(host, next, CURSOR, st);
    ExecThen(host, Code(next) + [LocalSet(CURSOR)], [Br(0)], [], st, [], st1);
    ExecOne(host, Br(0), [], st1);
  }

  /** One turn of the loop. */
  lemma TurnExec(host: Host, st: State, end: nat)
    requires Clearing(st, end)
    ensures Exec(host, Turn(), [], st)
      == if At(st) >= end then Branch(1, [], st)
         else if At(st) >= |st.store.memory| then Trap(st)
         else Branch(0, [], Moved(st, At(st) + 1))
  {
    hide Exec, Eval, Code, Wrap32;
    var test := Code(Apply(0x4f, Local(CURSOR), END)) + [BrIf(1)];
    var step := (Code(Apply(0x6a, Local(CURSOR), Const(1))) + [LocalSet(CURSOR)]) + [Br(0)];
    TestExec(host, st, end);
    ExecConcat(host, test, STORE_ZERO + step, [], st);
    if At(st) < end {
      StoreZeroExec(host, st);
      ExecConcat(host, STORE_ZERO, step, [], st);
      if At(st) < |st.store.memory| {
        var memory := st.store.memory[At(st) := 0];
        StepExec(host, st.(store := st.store.(memory := memory)), end);
        assert memory == Cleared(st.store.memory, At(st), At(st) + 1);
      }
    }
  }

  lemma StillClearing(st: State, end: nat, fuel: nat)
    requires Clearing(st, end) && At(st) < end && At(st) < |st.store.memory|
    ensures var st1 := Moved(st, At(st) + 1).(fuel := fuel); Clearing(st1, end) && At(st1) == At(st) + 1
  {
    hide Eval;
    UnsignedWrap(At(st) + 1);
    EndStays(st, st.locals[CURSOR := I32V(Wrap32(At(st) + 1))], Cleared(st.store.memory, At(st), At(st) + 1), fuel);
  }

  /** The end of the block does not depend on the cursor. */
  lemma EndStays(st: State, locals: seq<Value>, memory: seq<Byte>, fuel: nat)
    requires |locals| == |st.locals| == LOCALS && locals[BASE] == st.locals[BASE] && locals[SIZE] == st.locals[SIZE]
    ensures Eval(END, st.(locals := locals, store := st.store.(memory := memory), fuel := fuel)) == Eval(END, st)
  {
    hide I32Binop;
  }

  /** How often the loop goes around: to the end of the block, or to the end of memory. */
  function Turns(c: nat, end: nat, size: nat): nat {
    if c >= end then 0 else if end <= size then end - c else if c <= size then size - c else 0
  }

  lemma {:induction false} LoopExec(host: Host, st: State, end: nat)
    requires Clearing(st, end)
    ensures var o := ExecInstr(host, Loop(Turn()), [], st); var n := Turns(At(st), end, |st.store.memory|);
      if At(st) >= end then o == Branch(0, [], st)
      else if st.fuel < n then o.Exhausted?
      else if end <= |st.store.memory| then o == Branch(0, [], Moved(st, end).(fuel := st.fuel - n))
      else o.Trap?
    decreases st.fuel
  {
    hide Exec, Turn, Eval, Wrap32;
    TurnExec(host, st, end);
    var none: seq<Value> := [];
    assert none + none == [];
    if At(st) < end && At(st) < |st.store.memory| && st.fuel > 0 {
      var next := Moved(st, At(st) + 1);
      var st1 := next.(fuel := st.fuel - 1);
      StillClearing(st, end, st.fuel - 1);
      LoopExec(host, st1, end);
      assert Cleared(next.store.memory, At(st) + 1, end) == Cleared(st.store.memory, At(st), end);
      assert next.locals[CURSOR := I32V(Wrap32(end))] == st.locals[CURSOR := I32V(Wrap32(end))];
    }
  }

  lemma ClearExec(host: Host, st: State, end: nat)
    requires Clearing(st, end)
    ensures var o := Exec(host, Clear(), [], st); var n := Turns(At(st), end, |st.store.memory|);
      if At(st) >= end then o == Normal([], st)
      else if st.fuel < n then o.Exhausted?
      else if end <= |st.store.memory| then o == Normal([], Moved(st, end).(fuel := st.fuel - n))
      else o.Trap?
  {
    hide Exec, Turn, Eval, Wrap32;
    LoopExec(host, st, end);
    ExecOne(host, Instr.Block([Loop(Turn())]), [], st);
    ExecOne(host, Loop(Turn()), [], st);
    var none: seq<Value> := [];
    assert none + none == [];
  }

  // ---- the thunk ----------------------------------------------------------------------------------------------

  /** The address is answered, the heap pointer moved, and the block cleared; nothing else is changed. */
  predicate Served(heap: nat, st: State, b: nat, e: nat, o: Outcome)
    requires heap < |st.store.globals|
  {
    && o.Normal? && o.stack == [I32V(Wrap32(b))]
    && o.st.store == st.store.(globals := st.store.globals[heap := Wrap32(e)],
         memory := Cleared(st.store.memory, b, e))
  }

  /** Reserving the block, clearing it, and answering its address. */
  lemma ServeExec(host: Host, heap: nat, st: State, r: Request)
    requires |st.locals| == LOCALS && heap < |st.store.globals| && r.align > 0
    requires st.locals[SIZE] == I32V(Wrap32(r.size)) && st.locals[ALIGNMENT] == I32V(Wrap32(Alignment(r)))
    ensures var h := Unsigned(st.store.globals[heap]); var b, e := BlockStart(h, r), BlockEnd(h, r);
      && 0 <= b < TWO32
      && var n := Turns(b, e, |st.store.memory|); var o := Exec(host, Reserve(heap) + (Clear() + [LocalGet(BASE)]), [],
        st);
         if st.fuel < n then o.Exhausted?
         else if b < e && e > |st.store.memory| then o.Trap?
         else Served(heap, st, b, e, o)
  {
    hide Exec, Base, Wrap32, Eval, Reserve, Clear;
    var h := Unsigned(st.store.globals[heap]);
    var st1 := Reserved(st, heap, r);
    StartBounds(h, r);
    var b, e := BlockStart(h, r), BlockEnd(h, r);
    ReserveExec(host, heap, st, r);
    UnsignedWrap(b);
    EndComputed(st1, Wrap32(b), r);
    ClearExec(host, st1, e);
    ExecThen(host, Reserve(heap), Clear() + [LocalGet(BASE)], [], st, [], st1);
    ExecConcat(host, Clear(), [LocalGet(BASE)], [], st1);
    var o := Exec(host, Clear(), [], st1);
    if o.Normal? {
      ExecOne(host, LocalGet(BASE), [], o.st);
      assert [] + [I32V(Wrap32(b))] == [I32V(Wrap32(b))];
      assert b >= e ==> Cleared(st.store.memory, b, e) == st.store.memory;
    }
  }

  lemma StartBounds(h: Word, r: Request)
    requires r.align > 0
    ensures 0 <= BlockStart(h, r) < TWO32
  {
    hide AndBits;
    AndBelow((h + (Alignment(r) - 1)) % TWO32, (0 - Alignment(r)) % TWO32);
  }

  /**
   * Every request, in every state of memory and of the heap pointer. A request that is rejected gets 0
   * and leaves everything as it was. Otherwise the heap pointer moves to the end of the block, in
   * 32 bits, the block is cleared, and its address is the answer; if it reaches past the end of memory,
   * the thunk traps.
   */
  lemma ThunkServes(host: Host, heap: nat, st: State, r: Request)
    requires Asked(st, r) && heap < |st.store.globals|
    ensures var o := Exec(host, Thunk(heap), [], st);
      if RejectedAtOnce(r) then o == Returning([I32V(0)], st)
      else if r.sizePtr + 4 > |st.store.memory| then o == Trap(st)
      else if r.size == 0 then o.Returning? && o.stack == [I32V(0)] && o.st.store == st.store
      else
        var h := Unsigned(st.store.globals[heap]);
        var b, e := BlockStart(h, r), BlockEnd(h, r);
        && 0 <= b < TWO32 && !Rejected(r) && Serve(h, r) == Step(b, e)
        && if st.fuel < Turns(b, e, |st.store.memory|) then o.Exhausted?
           else if b < e && e > |st.store.memory| then o.Trap?
           else Served(heap, st, b, e, o)
  {
    hide Exec, Base, Wrap32, Eval, Reserve, Clear, Checks, Align, RejectIf, Turns, Cleared;
    var afterSize := Align() + (Reserve(heap) + (Clear() + [LocalGet(BASE)]));
    var tail := RejectIf(IsZero(Local(SIZE))) + afterSize;
    ChecksExec(host, st, r);
    Then(host, Checks(), LOAD_SIZE + tail, st, RejectedAtOnce(r));
    if !RejectedAtOnce(r) {
      LoadExec(host, st, r);
      ExecConcat(host, LOAD_SIZE, tail, [], st);
      if r.sizePtr + 4 <= |st.store.memory| {
        var st1 := SizeRead(st, r);
        SizeSeen(st, r);
        RejectExec(host, IsZero(Local(SIZE)), st1);
        Then(host, RejectIf(IsZero(Local(SIZE))), afterSize, st1, r.size == 0);
        if r.size != 0 {
          AlignExec(host, st1, r);
          ExecThen(host, Align(), Reserve(heap) + (Clear() + [LocalGet(BASE)]), [], st1, [], Aligned(st1, r));
          ServeExec(host, heap, Aligned(st1, r), r);
        }
      }
    }
  }

  lemma SizeSeen(st: State, r: Request)
    requires Asked(st, r)
    ensures Asked(SizeRead(st, r), r)
    ensures Eval(IsZero(Local(SIZE)), SizeRead(st, r)) == Some(if r.size == 0 then 1 else 0)
  {
    hide WordAt;
    UnsignedWrap(r.size);
  }

  // ---- requests that wrap ----------------------------------------------------------------------------------------

  lemma EndWraps(h: Word, r: Request)
    requires r.align > 0
    ensures var b, e := BlockStart(h, r), BlockEnd(h, r);
      && 0 <= b < TWO32 && 0 <= e < TWO32
      && (e == b + r.size <==> b + r.size < TWO32) && (r.size > 0 ==> (b < e <==> b + r.size < TWO32))
  {
    hide Base;
    StartBounds(h, r);
  }

  /** An answered block lies in memory, is cleared, and ends at the heap pointer, if and only if its end
      does not wrap. If it does, nothing is cleared, and the heap pointer falls back below the block. */
  lemma AnsweredExactly(host: Host, heap: nat, st: State, r: Request)
    requires Asked(st, r) && heap < |st.store.globals| && |st.store.memory| < TWO32
    requires !Rejected(r) && r.sizePtr + 4 <= |st.store.memory|
    requires Exec(host, Thunk(heap), [], st).Normal?
    ensures var b, o := BlockStart(Unsigned(st.store.globals[heap]), r), Exec(host, Thunk(heap), [], st);
      && b >= 0 && o.stack == [I32V(Wrap32(b))] && |o.st.store.memory| == |st.store.memory|
      && heap < |o.st.store.globals|
      && (b + r.size <= |st.store.memory| <==> b + r.size < TWO32)
      && (Unsigned(o.st.store.globals[heap]) == b + r.size <==> b + r.size < TWO32)
      && (b + r.size < TWO32 ==> forall i :: b <= i < b + r.size ==> o.st.store.memory[i] == 0)
      && (b + r.size >= TWO32 ==> Unsigned(o.st.store.globals[heap]) < b && o.st.store.memory == st.store.memory)
  {
    hide Exec, Thunk, BlockStart, BlockEnd, Wrap32, Unsigned, Eval;
    var h := st.store.globals[heap];
    SmallWords(h);
    ThunkServes(host, heap, st, r);
    EndWraps(Unsigned(h), r);
    UnsignedWrap(BlockEnd(Unsigned(h), r));
    assert BlockEnd(Unsigned(h), r) <= BlockStart(Unsigned(h), r) ==>
      Cleared(st.store.memory, BlockStart(Unsigned(h), r), BlockEnd(Unsigned(h), r)) == st.store.memory;
  }

  /** With the heap pointer at 1024, a request for all but 512 bytes of 4 GiB is answered with 1024, in
      whatever memory, and puts the heap pointer back to 512. */
  lemma WrappingRequestServed(r: Request)
    requires r.align == 4 && r.size == TWO32 - 512
    ensures BlockStart(1024, r) == 1024 && BlockEnd(1024, r) == 512
  {
    hide AndBits, Pow2;
    var small := r.(size := 1);
    Four();
    BaseBounds(1024, small);
    AndLowBits(2, 1027);
    Remainder1027();
    assert Base(1024, 4) == 1024;
  }

  lemma Four()
    ensures Pow2(2) == 4
  {
  }

  lemma Remainder1027()
    ensures RemNat(1027, 4) == 3
  {
    DivNatIsQuotient(1027, 4);
  }
}
