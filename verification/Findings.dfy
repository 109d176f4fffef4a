/**
 * Whole functions on which the emitted code and the const evaluator part, with the exact arguments
 * on which they do not: wide constants, casts to `bool`, order comparisons of 64-bit integers and of
 * unsigned ones.
 */
module Findings {
  import opened Words
  import opened Memory
  import M = Mir
  import opened Wasm
  import opened StackMap
  import opened Emitter
  import opened StraightCode
  import opened Straightline
  import opened Validation
  import opened Evaluation
  import E = Executor

  /** Straight code of a function without a frame. */
  lemma StraightBody(fn: M.Function)
    requires fn.frame.None? && NoJumps(fn, 0, |fn.insts|)
    ensures EmitBody(fn) == EmitLeaves(fn, NO_TARGETS, 0, |fn.insts|, [])
  {
    hide EmitRange, EmitLeaf;
    StraightIsLeaves(fn, NO_TARGETS, 0, |fn.insts|, []);
  }

  /** Straight code that ends in `return`. */
  lemma ThenReturn(host: Host, code: seq<Instr>, stack: seq<Value>, st: State, stack': seq<Value>)
    requires Exec(host, code, stack, st) == Normal(stack', st)
    ensures Exec(host, code + [Return], stack, st) == Returning(stack', st)
  {
    hide ExecInstr;
    ExecThen(host, code, [Return], stack, st, stack', st);
    ReturnExec(host, stack', st);
  }

  lemma ReturnExec(host: Host, stack: seq<Value>, st: State)
    ensures Exec(host, [Return], stack, st) == Returning(stack, st)
  {
    ExecOne(host, Return, stack, st);
  }

  // ---- wide constants ------------------------------------------------------------------------------------

  /** `return bits as i64`. */
  function ConstantFunction(bits: int): M.Function {
    M.Function([M.PushInt(bits), M.Cast(M.KI64), M.Return], [], [], Some(M.KI64), None)
  }

  lemma ConstantLeaves(bits: int, t: Targets)
    ensures EmitLeaf(ConstantFunction(bits), t, M.PushInt(bits), []) == Ok([I32Const(Wrap32(bits))], [M.KI32])
    ensures EmitLeaf(ConstantFunction(bits), t, M.Cast(M.KI64), [M.KI32]) == Ok([Numeric(0xac)], [M.KI64])
    ensures EmitLeaf(ConstantFunction(bits), t, M.Return, [M.KI64]) == Ok([Return], [])
  {
    hide Wrap32, EmitCall, EmitUnary, EmitBinary;
    assert [] + [M.KI32] == [M.KI32] && [M.KI32][..0] == [] && [] + [M.KI64] == [M.KI64] && [M.KI64][..0] == [];
  }

  lemma ConstantEmitted(bits: int)
    ensures EmitBody(ConstantFunction(bits)) == Ok([I32Const(Wrap32(bits)), Numeric(0xac), Return], [])
  {
    hide EmitLeaf, EmitBody;
    var fn := ConstantFunction(bits);
    StraightBody(fn);
    ConstantLeaves(bits, NO_TARGETS);
    var one, wide: Kinds := [M.KI32], [M.KI64];
    assert EmitLeaves(fn, NO_TARGETS, 3, 3, []) == Ok([], []);
    assert EmitLeaves(fn, NO_TARGETS, 2, 3, wide) == Ok([Return], []);
    assert EmitLeaves(fn, NO_TARGETS, 1, 3, one) == Ok([Numeric(0xac), Return], []);
  }

  lemma ConstantRuns(bits: int, host: Host, st: State)
    ensures Exec(host, [I32Const(Wrap32(bits)), Numeric(0xac), Return], [], st) == Returning([I64V(Wrap32(bits))], st)
  {
    hide ExecNumeric, Wrap32;
    var c: I32 := Wrap32(bits);
    assert [I32Const(c), Numeric(0xac), Return] == [I32Const(c)] + [Numeric(0xac)] + [Return];
    ExecOne(host, I32Const(c), [], st);
    UnopCorrect(host, 0xac, I32V(c), [], st);
    assert [] + [I32V(c)] == [I32V(c)] && [] + [I64V(c)] == [I64V(c)];
    ExecThen(host, [I32Const(c)], [Numeric(0xac)], [], st, [I32V(c)], st);
    ThenReturn(host, [I32Const(c)] + [Numeric(0xac)], [], st, [I64V(c)]);
  }

  lemma ConstantSteps(bits: int, env: E.Env, st: E.State)
    requires IsI64(bits) && env.goals(1) == E.ToInt && env.capacity >= 1
    ensures var fn, e := ConstantFunction(bits), [E.Int(bits)];
      && E.Step(fn, env, 0, [], st) == E.Next(1, e, st)
      && E.Step(fn, env, 1, e, st) == E.Next(2, e, st)
      && E.Step(fn, env, 2, e, st) == E.Done(Some(E.Int(bits)), st)
  {
    hide E.Unary, E.Binary;
    var e := [E.Int(bits)];
    assert [] + e == e && e[..0] == [];
  }

  lemma ConstantEvaluated(bits: int, env: E.Env, st: E.State)
    requires IsI64(bits) && env.goals(1) == E.ToInt && env.capacity >= 1
    ensures E.Run(ConstantFunction(bits), env, 2, 0, [], st) == E.Evaluated(Some(E.Int(bits)), st)
  {
    hide E.Step;
    var fn := ConstantFunction(bits);
    var e := [E.Int(bits)];
    ConstantSteps(bits, env, st);
    assert E.Run(fn, env, 0, 2, e, st) == E.Evaluated(Some(E.Int(bits)), st);
    assert E.Run(fn, env, 1, 1, e, st) == E.Evaluated(Some(E.Int(bits)), st);
  }

  /** The evaluator returns the constant, the emitted code its low 32 bits, sign-extended: they agree
      exactly on 32-bit constants, and exactly those functions are well-formed. */
  lemma ConstantsExact(bits: int, env: E.Env, est: E.State, host: Host, st: State)
    requires IsI64(bits) && env.goals(1) == E.ToInt && env.capacity >= 1
    ensures E.Run(ConstantFunction(bits), env, 2, 0, [], est) == E.Evaluated(Some(E.Int(bits)), est)
    ensures EmitBody(ConstantFunction(bits)).Ok?
    ensures Exec(host, EmitBody(ConstantFunction(bits)).code, [], st) == Returning([I64V(bits)], st) <==> IsI32(bits)
    ensures (exists k :: WellFormed(ConstantFunction(bits), k)) <==> IsI32(bits)
  {
    hide Exec, E.Run, WellFormed, EmitBody;
    ConstantEmitted(bits);
    ConstantRuns(bits, host, st);
    ConstantEvaluated(bits, env, est);
    assert [I64V(Wrap32(bits))] == [I64V(bits)] <==> Wrap32(bits) == bits;
    if IsI32(bits) {
      ConstantMap(bits);
    }
    forall k | WellFormed(ConstantFunction(bits), k)
      ensures IsI32(bits)
    {
      InstAt(ConstantFunction(bits), k, 0);
    }
  }

  lemma ConstantMap(bits: int)
    requires IsI32(bits)
    ensures WellFormed(ConstantFunction(bits), [[], [M.KI32], [M.KI64], []])
  {
    var fn := ConstantFunction(bits);
    var k: seq<Kinds> := [[], [M.KI32], [M.KI64], []];
    assert [] + [M.KI32] == [M.KI32] && [M.KI32][..0] == [] && [] + [M.KI64] == [M.KI64];
    assert InstOk(fn, k, 0) && InstOk(fn, k, 1) && InstOk(fn, k, 2);
  }

  /** 2 to the 32nd becomes 0. */
  lemma WideConstantLost(env: E.Env, est: E.State, host: Host, st: State)
    requires env.goals(1) == E.ToInt && env.capacity >= 1
    ensures E.Run(ConstantFunction(TWO32), env, 2, 0, [], est) == E.Evaluated(Some(E.Int(4294967296)), est)
    ensures EmitBody(ConstantFunction(TWO32)).Ok?
    ensures Exec(host, EmitBody(ConstantFunction(TWO32)).code, [], st) == Returning([I64V(0)], st)
  {
    hide Exec, E.Run, EmitBody;
    ConstantEmitted(TWO32);
    ConstantRuns(TWO32, host, st);
    ConstantEvaluated(TWO32, env, est);
  }

  // ---- casts to bool -----------------------------------------------------------------------------------------

  /** `return (x as bool) == true`. */
  const TRUTH := M.Function(
    [M.LocalLoad(0), M.Cast(M.KI32), M.PushBool(true), M.Binary(M.Eq), M.Return], [M.KI32], [], Some(M.KI32), None)

  lemma TruthLoad(t: Targets)
    ensures EmitLeaf(TRUTH, t, M.LocalLoad(0), []) == Ok([LocalGet(0)], [M.KI32])
  {
    hide EmitUnary, EmitBinary, EmitCall;
    assert LocalIndex(TRUTH, 0) == 0;
    assert [] + [M.KI32] == [M.KI32];
  }

  lemma TruthReturns(t: Targets)
    ensures EmitLeaf(TRUTH, t, M.Return, [M.KI32]) == Ok([Return], [])
  {
    hide EmitSimple;
    assert [M.KI32][..0] == [];
  }

  lemma TruthCompared()
    ensures EmitBinary(M.Eq, M.KI32, M.KI32, []) == Ok([Numeric(0x46)], [M.KI32])
  {
    assert [] + [M.KI32] == [M.KI32];
  }

  lemma TruthLeaves(t: Targets)
    ensures EmitLeaf(TRUTH, t, M.LocalLoad(0), []) == Ok([LocalGet(0)], [M.KI32])
    ensures EmitLeaf(TRUTH, t, M.Cast(M.KI32), [M.KI32]) == Ok([], [M.KI32])
    ensures EmitLeaf(TRUTH, t, M.PushBool(true), [M.KI32]) == Ok([I32Const(1)], [M.KI32, M.KI32])
    ensures EmitLeaf(TRUTH, t, M.Binary(M.Eq), [M.KI32, M.KI32]) == Ok([Numeric(0x46)], [M.KI32])
    ensures EmitLeaf(TRUTH, t, M.Return, [M.KI32]) == Ok([Return], [])
  {
    hide EmitUnary, EmitBinary, EmitCall, LocalIndex, EmitReturnVoid;
    TruthLoad(t);
    TruthReturns(t);
    TruthCompared();
    assert [] + [M.KI32] == [M.KI32] && [M.KI32][..0] == [] && [M.KI32] + [M.KI32] == [M.KI32, M.KI32]
      && [M.KI32, M.KI32][..0] == [];
  }

  lemma TruthEmitted()
    ensures EmitBody(TRUTH) == Ok([LocalGet(0), I32Const(1), Numeric(0x46), Return], [])
  {
    hide EmitLeaf, EmitBody;
    StraightBody(TRUTH);
    TruthLeaves(NO_TARGETS);
    var one, two: Kinds := [M.KI32], [M.KI32, M.KI32];
    assert EmitLeaves(TRUTH, NO_TARGETS, 5, 5, []) == Ok([], []);
    assert EmitLeaves(TRUTH, NO_TARGETS, 4, 5, one) == Ok([Return], []);
    assert EmitLeaves(TRUTH, NO_TARGETS, 3, 5, two) == Ok([Numeric(0x46), Return], []);
    assert EmitLeaves(TRUTH, NO_TARGETS, 2, 5, one) == Ok([I32Const(1), Numeric(0x46), Return], []);
    assert EmitLeaves(TRUTH, NO_TARGETS, 1, 5, one) == Ok([I32Const(1), Numeric(0x46), Return], []);
  }

  lemma TruthRuns(x: I32, host: Host, st: State)
    requires |st.locals| > 0 && st.locals[0] == I32V(x)
    ensures Exec(host, [LocalGet(0), I32Const(1), Numeric(0x46), Return], [], st)
      == Returning([I32V(if x == 1 then 1 else 0)], st)
  {
    hide ExecNumeric;
    var a, b := I32V(x), I32V(1);
    var r := I32V(if x == 1 then 1 else 0);
    assert [LocalGet(0), I32Const(1), Numeric(0x46), Return] == [LocalGet(0), I32Const(1)] + [Numeric(0x46)] + [Return];
    ExecTwo(host, LocalGet(0), I32Const(1), [], st);
    NumericCorrect(host, 0x46, a, b, [], st);
    assert [] + [a] + [b] == [a, b] && [] + [r] == [r];
    ExecThen(host, [LocalGet(0), I32Const(1)], [Numeric(0x46)], [], st, [a, b], st);
    ThenReturn(host, [LocalGet(0), I32Const(1)] + [Numeric(0x46)], [], st, [r]);
  }

  lemma TruthStarts(x: I32, env: E.Env, st: E.State)
    requires env.goals(1) == E.ToBool && env.capacity >= 2 && |st.locals| > 0 && st.locals[0] == E.Int(x)
    ensures E.Step(TRUTH, env, 0, [], st) == E.Next(1, [E.Int(x)], st)
    ensures E.Step(TRUTH, env, 1, [E.Int(x)], st) == E.Next(2, [E.Bool(x != 0)], st)
  {
    hide E.Unary, E.Binary;
    assert [] + [E.Int(x)] == [E.Int(x)] && [E.Int(x)][..0] == [] && [] + [E.Bool(x != 0)] == [E.Bool(x != 0)];
  }

  lemma TruthCompares(t: E.Value, env: E.Env, st: E.State)
    requires t.Bool? && env.capacity >= 2
    ensures E.Step(TRUTH, env, 2, [t], st) == E.Next(3, [t, E.Bool(true)], st)
    ensures E.Step(TRUTH, env, 3, [t, E.Bool(true)], st) == E.Next(4, [t], st)
    ensures E.Step(TRUTH, env, 4, [t], st) == E.Done(Some(t), st)
  {
    hide E.Unary, E.IntOp, E.Cast;
    var both := [t, E.Bool(true)];
    assert [t] + [E.Bool(true)] == both && both[..0] == [] && [] + [t] == [t];
    assert E.Binary(M.Eq, t, E.Bool(true)) == E.Gives(t);
  }

  lemma TruthEvaluated(x: I32, env: E.Env, st: E.State)
    requires env.goals(1) == E.ToBool && env.capacity >= 2 && |st.locals| > 0 && st.locals[0] == E.Int(x)
    ensures E.Run(TRUTH, env, 4, 0, [], st) == E.Evaluated(Some(E.Bool(x != 0)), st)
  {
    hide E.Step;
    var t := E.Bool(x != 0);
    var done := E.Evaluated(Some(t), st);
    TruthStarts(x, env, st);
    TruthCompares(t, env, st);
    assert E.Run(TRUTH, env, 0, 4, [t], st) == done;
    assert E.Run(TRUTH, env, 1, 3, [t, E.Bool(true)], st) == done;
    assert E.Run(TRUTH, env, 2, 2, [t], st) == done;
    assert E.Run(TRUTH, env, 3, 1, [E.Int(x)], st) == done;
  }

  /** A cast to `bool` is no code: what it leaves is a truth value exactly for 0 and 1. */
  lemma TruthExact(x: I32, env: E.Env, est: E.State, host: Host, st: State)
    requires env.goals(1) == E.ToBool && env.capacity >= 2 && |est.locals| > 0 && est.locals[0] == E.Int(x)
    requires |st.locals| > 0 && st.locals[0] == I32V(x)
    ensures E.Run(TRUTH, env, 4, 0, [], est) == E.Evaluated(Some(E.Bool(x != 0)), est)
    ensures EmitBody(TRUTH).Ok?
    ensures Exec(host, EmitBody(TRUTH).code, [], st) == Returning([I32V(Bit(x != 0))], st) <==> x == 0 || x == 1
  {
    hide Exec, E.Run, EmitBody;
    TruthEmitted();
    TruthRuns(x, host, st);
    TruthEvaluated(x, env, est);
    var got, right := I32V(if x == 1 then 1 else 0), I32V(Bit(x != 0));
    assert [got][0] == got && [right][0] == right;
  }

  /** `(2 as bool) == true` is true in the evaluator, and 0 in emitted code. */
  lemma TwoNotTrue(env: E.Env, est: E.State, host: Host, st: State)
    requires env.goals(1) == E.ToBool && env.capacity >= 2 && |est.locals| > 0 && est.locals[0] == E.Int(2)
    requires |st.locals| > 0 && st.locals[0] == I32V(2)
    ensures E.Run(TRUTH, env, 4, 0, [], est) == E.Evaluated(Some(E.Bool(true)), est)
    ensures EmitBody(TRUTH).Ok? && Exec(host, EmitBody(TRUTH).code, [], st) == Returning([I32V(0)], st)
  {
    hide Exec, E.Run, EmitBody;
    TruthEmitted();
    TruthRuns(2, host, st);
    TruthEvaluated(2, env, est);
  }

  // ---- 64-bit order comparisons ---------------------------------------------------------------------------------

  /** `return x < y`, and the like, on 64-bit parameters. */
  function OrderFunction(tok: M.Token): M.Function {
    M.Function([M.LocalLoad(0), M.LocalLoad(1), M.Binary(tok), M.Return], [M.KI64, M.KI64], [], Some(M.KI32), None)
  }

  predicate IsOrder(tok: M.Token) { tok in {M.Lt, M.Gt, M.Lte, M.Gte} }

  function OrderCode(tok: M.Token): seq<Instr>
    requires IsOrder(tok)
  {
    [LocalGet(0), LocalGet(1), Numeric(Opcode64(tok).value), Return]
  }

  lemma OrderLocals(tok: M.Token, t: Targets)
    ensures EmitLeaf(OrderFunction(tok), t, M.LocalLoad(0), []) == Ok([LocalGet(0)], [M.KI64])
    ensures EmitLeaf(OrderFunction(tok), t, M.LocalLoad(1), [M.KI64]) == Ok([LocalGet(1)], [M.KI64, M.KI64])
  {
    hide EmitUnary, EmitBinary, EmitCall;
    var fn := OrderFunction(tok);
    assert fn.localKinds[..0] == [] && fn.localKinds[..1] == [M.KI64] && [M.KI64][..0] == [];
    assert LocalIndex(fn, 0) == 0 && LocalIndex(fn, 1) == 1;
    assert [] + [M.KI64] == [M.KI64] && [M.KI64] + [M.KI64] == [M.KI64, M.KI64];
  }

  lemma OrderCompared(tok: M.Token)
    requires IsOrder(tok)
    ensures EmitBinary(tok, M.KI64, M.KI64, []) == Ok([Numeric(Opcode64(tok).value)], [M.KI32])
  {
    assert [] + [M.KI32] == [M.KI32];
  }

  lemma OrderOperator(tok: M.Token, t: Targets)
    requires IsOrder(tok)
    ensures EmitLeaf(OrderFunction(tok), t, M.Binary(tok), [M.KI64, M.KI64])
      == Ok([Numeric(Opcode64(tok).value)], [M.KI32])
    ensures EmitLeaf(OrderFunction(tok), t, M.Return, [M.KI32]) == Ok([Return], [])
  {
    hide EmitUnary, EmitBinary, EmitCall, LocalIndex;
    OrderCompared(tok);
    assert [M.KI64, M.KI64][..0] == [] && [M.KI32][..0] == [];
  }

  lemma OrderEmitted(tok: M.Token)
    requires IsOrder(tok)
    ensures EmitBody(OrderFunction(tok)) == Ok(OrderCode(tok), [])
  {
    hide EmitLeaf, EmitBody;
    var fn := OrderFunction(tok);
    StraightBody(fn);
    OrderLocals(tok, NO_TARGETS);
    OrderOperator(tok, NO_TARGETS);
    var two: Kinds := [M.KI64, M.KI64];
    assert EmitLeaves(fn, NO_TARGETS, 4, 4, []) == Ok([], []);
    assert EmitLeaves(fn, NO_TARGETS, 3, 4, [M.KI32]) == Ok([Return], []);
    assert EmitLeaves(fn, NO_TARGETS, 2, 4, two) == Ok([Numeric(Opcode64(tok).value), Return], []);
    assert EmitLeaves(fn, NO_TARGETS, 1, 4, [M.KI64]) == Ok([LocalGet(1), Numeric(Opcode64(tok).value), Return], []);
  }

  lemma OrderRuns(tok: M.Token, x: I64, y: I64, host: Host, st: State)
    requires IsOrder(tok) && st.locals == [I64V(x), I64V(y)]
    ensures Exec(host, OrderCode(tok), [], st)
      == (match I64Binop(Opcode64(tok).value, x, y)
          case Value(v) => Returning([v], st)
          case NumTrap => Trap(st)
          case NumStuck => Stuck)
  {
    hide ExecNumeric, I64Binop;
    var a, b, op := I64V(x), I64V(y), Opcode64(tok).value;
    assert OrderCode(tok) == [LocalGet(0), LocalGet(1)] + ([Numeric(op)] + [Return]);
    ExecTwo(host, LocalGet(0), LocalGet(1), [], st);
    assert [] + [a] + [b] == [a, b];
    ExecThen(host, [LocalGet(0), LocalGet(1)], [Numeric(op)] + [Return], [], st, [a, b], st);
    NumericCorrect(host, op, a, b, [], st);
    ExecConcat(host, [Numeric(op)], [Return], [a, b], st);
    var r := I64Binop(op, x, y);
    if r.Value? {
      assert [] + [r.v] == [r.v];
      ReturnExec(host, [r.v], st);
    }
  }

  lemma OrderEvaluated(tok: M.Token, x: I64, y: I64, env: E.Env, st: E.State)
    requires IsOrder(tok) && env.capacity >= 2 && st.locals == [E.Int(x), E.Int(y)]
    ensures E.Run(OrderFunction(tok), env, 3, 0, [], st) == E.Evaluated(Some(E.Bool(M.Compare(tok, x, y))), st)
  {
    var fn := OrderFunction(tok);
    var a, b, r := E.Int(x), E.Int(y), E.Bool(M.Compare(tok, x, y));
    var done := E.Evaluated(Some(r), st);
    assert [] + [a] == [a] && [a] + [b] == [a, b] && [a, b][..0] == [] && [] + [r] == [r];
    assert E.Step(fn, env, 0, [], st) == E.Next(1, [a], st);
    assert E.Step(fn, env, 1, [a], st) == E.Next(2, [a, b], st);
    assert E.Step(fn, env, 2, [a, b], st) == E.Next(3, [r], st);
    assert E.Step(fn, env, 3, [r], st) == E.Done(Some(r), st);
    assert E.Run(fn, env, 0, 3, [r], st) == done;
    assert E.Run(fn, env, 1, 2, [a, b], st) == done;
    assert E.Run(fn, env, 2, 1, [a], st) == done;
  }

  /** The whole function compares right exactly for equal arguments of `<` and `<=`: 1 < 2 returns 0. */
  lemma OrderExact(tok: M.Token, x: I64, y: I64, env: E.Env, est: E.State, host: Host, st: State)
    requires IsOrder(tok) && env.capacity >= 2 && est.locals == [E.Int(x), E.Int(y)] && st.locals == [I64V(x), I64V(y)]
    ensures E.Run(OrderFunction(tok), env, 3, 0, [], est) == E.Evaluated(Some(E.Bool(M.Compare(tok, x, y))), est)
    ensures EmitBody(OrderFunction(tok)).Ok?
    ensures Exec(host, EmitBody(OrderFunction(tok)).code, [], st) == Returning([I32V(Bit(M.Compare(tok, x, y)))], st)
       <==> x == y && (tok == M.Lt || tok == M.Lte)
  {
    hide Exec, E.Run, EmitBody;
    OrderEmitted(tok);
    OrderRuns(tok, x, y, host, st);
    OrderEvaluated(tok, x, y, env, est);
    Ordering64(tok, x, y);
    var r := I64Binop(Opcode64(tok).value, x, y);
    if r.Value? {
      assert [r.v][0] == r.v && [I32V(Bit(M.Compare(tok, x, y)))][0] == I32V(Bit(M.Compare(tok, x, y)));
    }
  }

  /** `1 < 2` is true, and 0 in emitted code. */
  lemma OneNotBelowTwo(env: E.Env, est: E.State, host: Host, st: State)
    requires env.capacity >= 2 && est.locals == [E.Int(1), E.Int(2)] && st.locals == [I64V(1), I64V(2)]
    ensures E.Run(OrderFunction(M.Lt), env, 3, 0, [], est) == E.Evaluated(Some(E.Bool(true)), est)
    ensures EmitBody(OrderFunction(M.Lt)).Ok?
    ensures Exec(host, EmitBody(OrderFunction(M.Lt)).code, [], st) == Returning([I32V(0)], st)
  {
    hide Exec, E.Run, EmitBody;
    OrderEmitted(M.Lt);
    OrderRuns(M.Lt, 1, 2, host, st);
    OrderEvaluated(M.Lt, 1, 2, env, est);
  }

  /** Straight code with an instruction that integers cannot be given to is not valid. */
  lemma {:induction false} ForeignOpcode(c: Context, code: seq<Instr>, op: Byte, v: Operands)
    requires Numeric(op) in code && NumericType(op).None?
    ensures Check(c, code, v).None?
    decreases |code|
  {
    if code[0] != Numeric(op) {
      var w := CheckInstr(c, code[0], v);
      if w.Some? {
        assert Numeric(op) in code[1..];
        ForeignOpcode(c, code[1..], op, w.value);
      }
    }
  }

  /** `>=` is emitted as 0x5b, which compares floating-point numbers: the function does not validate. */
  lemma GreaterEqualInvalid(c: Context, result: Types)
    ensures EmitBody(OrderFunction(M.Gte)).Ok?
    ensures !BodyOk(c, EmitBody(OrderFunction(M.Gte)).code, result)
  {
    hide EmitBody, Check;
    OrderEmitted(M.Gte);
    assert OrderCode(M.Gte)[2] == Numeric(0x5b);
    ForeignOpcode(c, OrderCode(M.Gte), 0x5b, Operands([], false));
  }

  // ---- unsigned order --------------------------------------------------------------------------------------------

  /** 32-bit operands are compared as signed numbers whatever their type: unsigned ones are compared
      right exactly when both or neither are 2 to the 31st or more. */
  lemma UnsignedOrderExact(tok: M.Token, x: nat, y: nat)
    requires IsOrder(tok) && x < TWO32 && y < TWO32
    ensures Opcode32(tok).Some?
    ensures I32Binop(Opcode32(tok).value, Wrap32(x), Wrap32(y)) == Flag(M.Compare(tok, x, y))
       <==> (x < TWO31 <==> y < TWO31)
  {
  }

  /** 1 is below 2 to the 31st, and not below it when both are read as signed numbers. */
  lemma UnsignedOrderWrong()
    ensures M.Compare(M.Lt, 1, TWO31)
    ensures I32Binop(Opcode32(M.Lt).value, Wrap32(1), Wrap32(TWO31)) == Flag(false)
  {
  }

  // ---- overflow ------------------------------------------------------------------------------------------------

  /** The largest 32-bit number plus one: a number in the evaluator, the smallest one in emitted code;
      and one more than the largest 64-bit number: refused, and wrapped. */
  lemma OverflowParts()
    ensures E.Binary(M.Add, E.Int(TWO31 - 1), E.Int(1)) == E.Gives(E.Int(TWO31))
      && I32Binop(Opcode32(M.Add).value, TWO31 - 1, 1) == Value(I32V(-TWO31))
    ensures !E.Binary(M.Add, E.Int(TWO63 - 1), E.Int(1)).Gives?
      && I64Binop(Opcode64(M.Add).value, TWO63 - 1, 1) == Value(I64V(-TWO63))
  {
  }
}
