/**
 * When the const evaluator and the emitted code agree. Operator by operator the condition is exact;
 * for whole runs it is asked of every step: then what the evaluator computes is what the emitted
 * code computes, calls, traps and results alike.
 */
module Evaluation {
  import opened Words
  import opened Bits
  import M = Mir
  import W = Wasm
  import opened StackMap
  import opened Emitter
  import opened Adequacy
  import opened FrameEntry
  import Compiler
  import E = Executor

  // ---- what values stand for ------------------------------------------------------------------------

  function Bit(b: bool): I32 { if b then 1 else 0 }

  /** The word `w` stands for `e`. */
  predicate StandsFor(e: E.Value, w: int) {
    match e
    case Int(n) => w == n
    case Bool(b) => w == Bit(b)
    case Null => w == 0
    case Str(_) => false
    case Invalid => true
  }

  /** The typed value `v` stands for `e`; anything stands for what is not there. */
  predicate Rep(env: E.Env, e: E.Value, v: M.Value) {
    match v
    case MI32(x) => StandsFor(e, x)
    case MI64(x) => StandsFor(e, x)
    case MStr(p, l) => e.Invalid? || e == E.Str(env.text(p, l))
  }

  predicate RepAll(env: E.Env, es: seq<E.Value>, vs: seq<M.Value>) {
    |es| == |vs| && forall i :: 0 <= i < |es| ==> Rep(env, es[i], vs[i])
  }

  predicate RepTrace(env: E.Env, et: E.Trace, t: M.Trace) {
    |et| == |t| && forall i :: 0 <= i < |et| ==> et[i].0 == t[i].0 && RepAll(env, et[i].1, t[i].1)
  }

  /** The evaluator's operands, above what void calls have left there. */
  predicate RepStack(env: E.Env, es: seq<E.Value>, vs: seq<M.Value>) {
    && |es| >= |vs|
    && (forall i :: 0 <= i < |es| - |vs| ==> es[i].Invalid?)
    && forall i :: 0 <= i < |vs| ==> Rep(env, es[|es| - |vs| + i], vs[i])
  }

  // ---- operators, exactly -------------------------------------------------------------------------------

  /** The evaluator's result can be had in the width of the kind. */
  predicate FitsKind(e: E.Value, k: M.Kind) {
    e.Int? && k == M.KI32 ==> IsI32(e.n)
  }

  /** `null` compared with something else is unequal to it, whatever word it is. */
  predicate NullsApart(tok: M.Token, a: E.Value, b: E.Value) {
    E.IsEquality(tok) && a.Null? != b.Null? ==> !StandsFor(if a.Null? then b else a, 0)
  }

  predicate SameArith(env: E.Env, a: E.Arith, b: M.Arith) {
    a.Gives? && b.Result? && Rep(env, a.value, b.value)
  }

  /** The kind a binary operator's operands give its result. */
  function NumericKind(a: M.Value): M.Kind {
    if a.MI64? then M.KI64 else M.KI32
  }

  predicate Numbers(a: M.Value, b: M.Value) {
    (a.MI32? && b.MI32?) || (a.MI64? && !b.MStr?)
  }

  /** A 32-bit operation gives what the evaluator gives if and only if that fits in 32 bits; no 64-bit
      operation that the evaluator accepts differs. */
  lemma IntOpExact(tok: M.Token, x: I32, y: I32)
    requires IsArithmetic(tok) && !M.IsComparison(tok) && E.IntOp(tok, x, y).Gives?
    ensures var r := E.IntOp(tok, x, y).value;
      r.Int? && (M.Binary32(tok, x, y) == M.Result(M.MI32(Wrap32(r.n))) || !IsI32(r.n))
      && (M.Binary32(tok, x, y).Result? ==> M.Binary32(tok, x, y).value == M.MI32(Wrap32(r.n)))
  {
    hide Times, TruncDiv, TruncRem, AndBits;
    if tok == M.And {
      AndExtends(x, y);
      WrapFits(Wrap32(AndBits(x % TWO32, y % TWO32)));
    } else if tok == M.Div {
      DivideOne(x);
    }
  }

  lemma WrapFits(x: I32)
    ensures Wrap32(x) == x
  {
  }

  lemma {:induction false} DivideByOne(a: nat)
    ensures DivNat(a, 1) == a
  {
    if a > 0 {
      DivideByOne(a - 1);
    }
  }

  lemma DivideOne(x: I32)
    ensures TruncDiv(x, -1) == 0 - x
  {
    DivideByOne(Abs(x));
  }

  lemma BinaryExact(env: E.Env, tok: M.Token, ea: E.Value, eb: E.Value, a: M.Value, b: M.Value)
    requires IsArithmetic(tok) && Numbers(a, b) && Rep(env, ea, a) && Rep(env, eb, b) && !ea.Invalid? && !eb.Invalid?
    requires E.Binary(tok, ea, eb).Gives?
    ensures SameArith(env, E.Binary(tok, ea, eb), M.BinaryOp(tok, a, b))
       <==> FitsKind(E.Binary(tok, ea, eb).value, NumericKind(a)) && NullsApart(tok, ea, eb)
  {
    hide Times, TruncDiv, TruncRem, AndBits, Wrap32, Wrap64;
    if ea.Int? && eb.Int? && !M.IsComparison(tok) {
      if a.MI32? {
        IntOpExact(tok, a.i32, b.i32);
        var r := E.IntOp(tok, a.i32, b.i32).value;
        if IsI32(r.n) {
          WrapFits(r.n);
        }
      } else {
        WideOp(tok, ea.n, eb.n);
      }
    }
  }

  lemma WideOp(tok: M.Token, x: I64, y: I64)
    requires IsArithmetic(tok) && !M.IsComparison(tok) && E.IntOp(tok, x, y).Gives?
    ensures E.IntOp(tok, x, y).value.Int? && M.Binary64(tok, x, y) == M.Result(M.MI64(E.IntOp(tok, x, y).value.n))
  {
    hide Times, TruncDiv, TruncRem, AndBits, Wrap64;
    WrapFits64(E.IntOp(tok, x, y).value.n);
  }

  lemma UnaryExact(env: E.Env, tok: M.Token, e: E.Value, v: M.Value)
    requires Rep(env, e, v) && !v.MStr? && !e.Invalid? && E.Unary(tok, e).Gives?
    ensures SameArith(env, E.Unary(tok, e), M.UnaryOp(tok, v)) <==> FitsKind(E.Unary(tok, e).value, NumericKind(v))
  {
    hide Wrap32, Wrap64;
    if tok == M.Sub && e.Int? && IsI64(0 - e.n) {
      WrapFits64(0 - e.n);
      if IsI32(0 - e.n) {
        WrapFits(0 - e.n);
      }
    }
  }

  lemma WrapFits64(x: I64)
    ensures Wrap64(x) == x
  {
  }

  /** A cast to `bool` makes a truth value in the evaluator and no code in the backend. */
  predicate PlainCast(goal: E.Goal, e: E.Value, k: M.Kind) {
    goal == E.ToBool && e.Int? ==> e.n == 0 || (if k == M.KI32 then Wrap32(e.n) else e.n) == 1
  }

  lemma CastExact(env: E.Env, goal: E.Goal, e: E.Value, v: M.Value, k: M.Kind)
    requires Rep(env, e, v) && !v.MStr? && k != M.KStr && !e.Invalid? && E.Cast(goal, e).Some?
    ensures M.CastTo(v, k).Some?
    ensures Rep(env, E.Cast(goal, e).value, M.CastTo(v, k).value)
       <==> FitsKind(E.Cast(goal, e).value, k) && PlainCast(goal, e, k)
  {
    hide Wrap64;
    if v.MI64? && k == M.KI32 && IsI32(v.i64) {
      WrapFits(v.i64);
    }
  }

  /** A constant is emitted as its low 32 bits: that is the constant exactly when it fits in them. */
  lemma ConstantExact(env: E.Env, bits: int, fn: M.Function, host: W.Host, ks: Kinds, stack: seq<W.Value>, st: W.State)
    requires IsI64(bits) && |ks| < MAX_STACK
    ensures var r := EmitSimple(fn, M.PushInt(bits), ks);
      && r.Ok? && r.stack == ks + [M.KI32]
      && W.Exec(host, r.code, stack, st) == W.Normal(stack + [W.I32V(Wrap32(bits))], st)
    ensures Rep(env, E.Int(bits), M.MI32(Wrap32(bits))) <==> IsI32(bits)
    ensures IsI32(bits) <==> KindsAfter(fn, M.PushInt(bits), ks) == Some(ks + [M.KI32])
  {
    assert [W.I32Const(Wrap32(bits))][1..] == [];
    if IsI32(bits) {
      WrapFits(bits);
    }
  }

  // ---- related states -------------------------------------------------------------------------------------

  ghost predicate Related(fn: M.Function, k: seq<Kinds>, env: E.Env, pc: nat, es: seq<E.Value>, est: E.State,
      vs: seq<M.Value>, st: M.State)
    requires |k| == |fn.insts| + 1
  {
    && pc <= |fn.insts| && M.KindsOf(vs) == k[pc] && RepStack(env, es, vs)
    && M.KindsOf(st.locals) == fn.localKinds && RepAll(env, est.locals, st.locals) && RepTrace(env, est.trace, st.trace)
  }

  /** A call without a result is a statement: there are no operands below it. */
  ghost predicate StatementCalls(fn: M.Function, k: seq<Kinds>)
    requires |k| == |fn.insts| + 1
  {
    forall pc: nat :: pc < |fn.insts| ==> StatementCall(fn, fn.insts[pc], k[pc + 1])
  }

  predicate StatementCall(fn: M.Function, inst: M.Inst, after: Kinds) {
    inst.CallFn? && inst.callee < |fn.sigs| && fn.sigs[inst.callee].result.None? ==> after == []
  }

  /** Called functions answer alike. */
  ghost predicate CalleesAgree(fn: M.Function, env: E.Env, oracle: M.Oracle) {
    forall et: E.Trace, t: M.Trace, f: nat, ea: seq<E.Value>,
      a: seq<M.Value> {:trigger env.calls(et, f, ea), oracle.reply(t, f, a)} ::
      f < |fn.sigs| && RepTrace(env, et, t) && RepAll(env, ea, a) && M.KindsOf(a) == fn.sigs[f].params
        && env.calls(et, f, ea).Some? ==>
        AnswersAgree(env, fn.sigs[f].result, env.calls(et, f, ea).value, oracle.reply(t, f, a))
  }

  predicate AnswersAgree(env: E.Env, k: Option<M.Kind>, e: E.Value, payload: Option<(int, int)>) {
    payload.Some? && if k.None? then e.Invalid? else Rep(env, e, M.ValueOf(k.value, payload.value))
  }

  ghost predicate ZerosAgree(fn: M.Function, env: E.Env) {
    forall i :: 0 <= i < |fn.localKinds| && env.zeros(i).Some? ==>
      Rep(env, env.zeros(i).value, M.ZeroOf(fn.localKinds[i]))
  }

  ghost predicate Alike(fn: M.Function, k: seq<Kinds>, env: E.Env, oracle: M.Oracle) {
    WellFormed(fn, k) && StatementCalls(fn, k) && CalleesAgree(fn, env, oracle) && ZerosAgree(fn, env)
  }

  function Last(ks: Kinds): M.Kind { if ks == [] then M.KI32 else ks[|ks| - 1] }

  /** The step's result is one that the width of its kind can hold; see the exact lemmas above. */
  predicate Faithful(env: E.Env, inst: M.Inst, pc: nat, es: seq<E.Value>, after: Kinds) {
    var n := |es|;
    match inst
    case Unary(tok) => n >= 1 && E.Unary(tok, es[n - 1]).Gives? ==> FitsKind(E.Unary(tok, es[n - 1]).value, Last(after))
    case Binary(tok) =>
      n >= 2 && E.Binary(tok, es[n - 2], es[n - 1]).Gives? ==>
        FitsKind(E.Binary(tok, es[n - 2], es[n - 1]).value, Last(after)) && NullsApart(tok, es[n - 2], es[n - 1])
    case Cast(_) =>
      var goal := env.goals(pc);
      n >= 1 && E.Cast(goal, es[n - 1]).Some? ==>
        FitsKind(E.Cast(goal, es[n - 1]).value, Last(after)) && PlainCast(goal, es[n - 1], Last(after))
    case _ => true
  }

  // ---- one step -------------------------------------------------------------------------------------------

  /** What the flat machine does stands for what the evaluator does, unless that refuses. */
  ghost predicate StepAlike(fn: M.Function, k: seq<Kinds>, env: E.Env, e: E.StepResult, m: M.StepResult)
    requires |k| == |fn.insts| + 1
  {
    match e
    case Next(pc, es, est) => m.Goto? && m.pc == pc && Related(fn, k, env, pc, es, est, m.stack, m.st)
    case Done(r, est) =>
      && m.Returned? && RepTrace(env, est.trace, m.st.trace) && (r.Some? <==> m.result.Some?)
      && (r.Some? ==>
        fn.result.Some? && M.KindOf(m.result.value) == fn.result.value && Rep(env, r.value, m.result.value))
    case Failed(est) => m.Trapped? && RepTrace(env, est.trace, m.st.trace)
    case Refused => true
  }

  /** Operands are replaced by one, and control goes to `q`. */
  lemma Replaced(fn: M.Function, k: seq<Kinds>, env: E.Env, pc: nat, q: nat, es: seq<E.Value>, est: E.State,
      vs: seq<M.Value>, st: M.State, pops: nat, e: E.Value, v: M.Value)
    requires |k| == |fn.insts| + 1 && Related(fn, k, env, pc, es, est, vs, st) && q <= |fn.insts| && pops <= |vs|
    requires Rep(env, e, v) && k[q] == k[pc][..|vs| - pops] + [M.KindOf(v)]
    ensures Related(fn, k, env, q, es[..|es| - pops] + [e], est, vs[..|vs| - pops] + [v], st)
  {
    hide Rep, RepTrace, RepAll;
    var es1, vs1 := es[..|es| - pops], vs[..|vs| - pops];
    assert M.KindsOf(vs1) == k[pc][..|vs1|];
    forall i | 0 <= i < |vs1| + 1
      ensures Rep(env, (es1 + [e])[|es1| - |vs1| + i], (vs1 + [v])[i])
    {
      if i < |vs1| {
        assert es1[|es1| - |vs1| + i] == es[|es| - |vs| + i];
      }
    }
  }

  /** Operands are popped, and control goes to `q`. */
  lemma Popped(fn: M.Function, k: seq<Kinds>, env: E.Env, pc: nat, q: nat, es: seq<E.Value>, est: E.State,
      vs: seq<M.Value>, st: M.State, pops: nat)
    requires |k| == |fn.insts| + 1 && Related(fn, k, env, pc, es, est, vs, st) && q <= |fn.insts| && pops <= |vs|
    requires k[q] == k[pc][..|vs| - pops]
    ensures Related(fn, k, env, q, es[..|es| - pops], est, vs[..|vs| - pops], st)
  {
    hide Rep, RepTrace, RepAll;
    var es1, vs1 := es[..|es| - pops], vs[..|vs| - pops];
    forall i | 0 <= i < |vs1|
      ensures Rep(env, es1[|es1| - |vs1| + i], vs1[i])
    {
      assert es1[|es1| - |vs1| + i] == es[|es| - |vs| + i];
    }
  }

  /** Operands that the stack map promises are there, and stand for each other. */
  lemma Operand(fn: M.Function, k: seq<Kinds>, env: E.Env, pc: nat, es: seq<E.Value>, est: E.State, vs: seq<M.Value>,
      st: M.State, d: nat)
    requires |k| == |fn.insts| + 1 && Related(fn, k, env, pc, es, est, vs, st) && 0 < d <= |k[pc]|
    ensures d <= |vs| <= |es| && Rep(env, es[|es| - d], vs[|vs| - d]) && M.KindOf(vs[|vs| - d]) == k[pc][|k[pc]| - d]
  {
    hide Rep, RepTrace, RepAll;
    assert es[|es| - |vs| + (|vs| - d)] == es[|es| - d];
  }

  lemma PushAlike(fn: M.Function, k: seq<Kinds>, env: E.Env, oracle: M.Oracle, pc: nat, es: seq<E.Value>, est: E.State,
      vs: seq<M.Value>, st: M.State)
    requires Alike(fn, k, env, oracle) && pc < |fn.insts| && Related(fn, k, env, pc, es, est, vs, st)
    requires var i := fn.insts[pc]; i.PushInt? || i.PushBool? || i.PushNull? || i.PushString? || i.LocalLoad?
    ensures StepAlike(fn, k, env, E.Step(fn, env, pc, es, est), M.Step(fn, oracle, pc, vs, st))
  {
    hide Related, CalleesAgree, StatementCalls, ZerosAgree;
    InstAt(fn, k, pc);
    LocalsThere(fn, k, env, pc, es, est, vs, st);
    assert es[..|es| - 0] == es && vs[..|vs| - 0] == vs && k[pc][..|vs|] == k[pc];
    var i := fn.insts[pc];
    var e, v;
    if i.PushInt? {
      e, v := E.Int(i.bits), M.MI32(i.bits);
    } else if i.PushBool? {
      e, v := E.Bool(i.flag), M.BoolValue(i.flag);
    } else if i.PushNull? {
      e, v := E.Null, M.MI32(0);
    } else if i.PushString? {
      e, v := E.Str(env.text(i.ptr, i.len)), M.MStr(i.ptr, i.len);
    } else {
      e, v := est.locals[i.slot], st.locals[i.slot];
    }
    Replaced(fn, k, env, pc, pc + 1, es, est, vs, st, 0, e, v);
    assert es[..|es| - 0] + [e] == es + [e] && vs[..|vs| - 0] + [v] == vs + [v];
  }

  lemma LocalsThere(fn: M.Function, k: seq<Kinds>, env: E.Env, pc: nat, es: seq<E.Value>, est: E.State,
      vs: seq<M.Value>, st: M.State)
    requires |k| == |fn.insts| + 1 && Related(fn, k, env, pc, es, est, vs, st)
    ensures |vs| == |k[pc]| && |est.locals| == |st.locals| == |fn.localKinds|
    ensures forall i :: 0 <= i < |fn.localKinds| ==>
      Rep(env, est.locals[i], st.locals[i]) && M.KindOf(st.locals[i]) == fn.localKinds[i]
  {
    hide Rep, RepTrace, RepStack;
  }

  lemma UnaryAlike(fn: M.Function, k: seq<Kinds>, env: E.Env, oracle: M.Oracle, pc: nat, es: seq<E.Value>,
      est: E.State, vs: seq<M.Value>, st: M.State)
    requires Alike(fn, k, env, oracle) && pc < |fn.insts| && Related(fn, k, env, pc, es, est, vs, st)
    requires (fn.insts[pc].Unary? || fn.insts[pc].Cast?) && Faithful(env, fn.insts[pc], pc, es, k[pc + 1])
    ensures StepAlike(fn, k, env, E.Step(fn, env, pc, es, est), M.Step(fn, oracle, pc, vs, st))
  {
    hide Related, CalleesAgree, StatementCalls, ZerosAgree, Rep, FitsKind, PlainCast, E.Unary, E.Cast, M.UnaryOp,
      M.CastTo;
    InstAt(fn, k, pc);
    LocalsThere(fn, k, env, pc, es, est, vs, st);
    Operand(fn, k, env, pc, es, est, vs, st, 1);
    var e, v := es[|es| - 1], vs[|vs| - 1];
    if fn.insts[pc].Unary? {
      var tok := fn.insts[pc].tok;
      if E.Unary(tok, e).Gives? {
        UnaryGives(env, tok, e, v);
        Replaced(fn, k, env, pc, pc + 1, es, est, vs, st, 1, E.Unary(tok, e).value, M.UnaryOp(tok, v).value);
      } else {
        UnaryNeverFaults(tok, e);
      }
    } else {
      var goal, kind := env.goals(pc), fn.insts[pc].target;
      if E.Cast(goal, e).Some? {
        CastGives(env, goal, e, v, kind);
        Replaced(fn, k, env, pc, pc + 1, es, est, vs, st, 1, E.Cast(goal, e).value, M.CastTo(v, kind).value);
      }
    }
  }

  lemma UnaryNeverFaults(tok: M.Token, e: E.Value)
    ensures !E.Unary(tok, e).Fault?
  {
  }

  lemma UnaryGives(env: E.Env, tok: M.Token, e: E.Value, v: M.Value)
    requires Rep(env, e, v) && UnaryKind(tok, M.KindOf(v)).Some? && E.Unary(tok, e).Gives?
    requires FitsKind(E.Unary(tok, e).value, UnaryKind(tok, M.KindOf(v)).value)
    ensures SameArith(env, E.Unary(tok, e), M.UnaryOp(tok, v))
      && UnaryKind(tok, M.KindOf(v)) == Some(M.KindOf(M.UnaryOp(tok, v).value))
  {
    UnaryExact(env, tok, e, v);
  }

  lemma CastGives(env: E.Env, goal: E.Goal, e: E.Value, v: M.Value, k: M.Kind)
    requires Rep(env, e, v) && CanCast(M.KindOf(v), k) && E.Cast(goal, e).Some?
    requires FitsKind(E.Cast(goal, e).value, k) && PlainCast(goal, e, k)
    ensures M.CastTo(v, k).Some? && M.KindOf(M.CastTo(v, k).value) == k
      && Rep(env, E.Cast(goal, e).value, M.CastTo(v, k).value)
  {
    hide Wrap32, Wrap64;
    if !e.Invalid? {
      CastExact(env, goal, e, v, k);
    }
  }

  lemma BinaryGives(env: E.Env, tok: M.Token, ea: E.Value, eb: E.Value, a: M.Value, b: M.Value)
    requires Rep(env, ea, a) && Rep(env, eb, b) && BinaryKind(tok, M.KindOf(a), M.KindOf(b)).Some?
    requires E.Binary(tok, ea, eb).Gives? && NullsApart(tok, ea, eb)
    requires FitsKind(E.Binary(tok, ea, eb).value, BinaryKind(tok, M.KindOf(a), M.KindOf(b)).value)
    ensures SameArith(env, E.Binary(tok, ea, eb), M.BinaryOp(tok, a, b))
    ensures BinaryKind(tok, M.KindOf(a), M.KindOf(b)) == Some(M.KindOf(M.BinaryOp(tok, a, b).value))
  {
    hide Times, TruncDiv, TruncRem, AndBits, Wrap32, Wrap64;
    BinaryExact(env, tok, ea, eb, a, b);
  }

  /** Where the evaluator meets a division that does not exist, so does the machine. */
  lemma BinaryFaults(env: E.Env, tok: M.Token, ea: E.Value, eb: E.Value, a: M.Value, b: M.Value)
    requires Rep(env, ea, a) && Rep(env, eb, b) && BinaryKind(tok, M.KindOf(a), M.KindOf(b)).Some?
      && E.Binary(tok, ea, eb).Fault?
    ensures M.BinaryOp(tok, a, b).Undefined?
  {
    hide Times, TruncDiv, TruncRem, AndBits, Wrap32, Wrap64;
  }

  lemma BinaryAlike(fn: M.Function, k: seq<Kinds>, env: E.Env, oracle: M.Oracle, pc: nat, es: seq<E.Value>,
      est: E.State, vs: seq<M.Value>, st: M.State)
    requires Alike(fn, k, env, oracle) && pc < |fn.insts| && Related(fn, k, env, pc, es, est, vs, st)
    requires fn.insts[pc].Binary? && Faithful(env, fn.insts[pc], pc, es, k[pc + 1])
    ensures StepAlike(fn, k, env, E.Step(fn, env, pc, es, est), M.Step(fn, oracle, pc, vs, st))
  {
    hide CalleesAgree, StatementCalls, ZerosAgree, Rep, RepStack, FitsKind, NullsApart, E.Binary, M.BinaryOp,
      BinaryKind;
    InstAt(fn, k, pc);
    LocalsThere(fn, k, env, pc, es, est, vs, st);
    Operand(fn, k, env, pc, es, est, vs, st, 1);
    Operand(fn, k, env, pc, es, est, vs, st, 2);
    var tok := fn.insts[pc].tok;
    var ea, eb, a, b := es[|es| - 2], es[|es| - 1], vs[|vs| - 2], vs[|vs| - 1];
    if E.Binary(tok, ea, eb).Gives? {
      BinaryGives(env, tok, ea, eb, a, b);
      Replaced(fn, k, env, pc, pc + 1, es, est, vs, st, 2, E.Binary(tok, ea, eb).value, M.BinaryOp(tok, a, b).value);
    } else if E.Binary(tok, ea, eb).Fault? {
      BinaryFaults(env, tok, ea, eb, a, b);
    }
  }

  lemma CoerceRep(env: E.Env, e: E.Value, v: M.Value, to: M.Kind)
    requires Rep(env, e, v) && M.Coercible(M.KindOf(v), to)
    ensures Rep(env, e, M.Coerce(v, to)) && M.KindOf(M.Coerce(v, to)) == to
  {
  }

  /** A local is replaced. */
  lemma Stored(fn: M.Function, k: seq<Kinds>, env: E.Env, pc: nat, es: seq<E.Value>, est: E.State, vs: seq<M.Value>,
      st: M.State, i: nat, e: E.Value, v: M.Value)
    requires |k| == |fn.insts| + 1 && Related(fn, k, env, pc, es, est, vs, st)
    requires i < |fn.localKinds| && M.KindOf(v) == fn.localKinds[i] && Rep(env, e, v)
    ensures |est.locals| == |st.locals| == |fn.localKinds|
    ensures Related(fn, k, env, pc, es, est.(locals := est.locals[i := e]), vs, st.(locals := st.locals[i := v]))
  {
    hide Rep, RepTrace, RepStack;
    assert M.KindsOf(st.locals[i := v]) == fn.localKinds;
  }

  lemma LocalAlike(fn: M.Function, k: seq<Kinds>, env: E.Env, oracle: M.Oracle, pc: nat, es: seq<E.Value>,
      est: E.State, vs: seq<M.Value>, st: M.State)
    requires Alike(fn, k, env, oracle) && pc < |fn.insts| && Related(fn, k, env, pc, es, est, vs, st)
    requires fn.insts[pc].LocalStore? || fn.insts[pc].LocalZero?
    ensures StepAlike(fn, k, env, E.Step(fn, env, pc, es, est), M.Step(fn, oracle, pc, vs, st))
  {
    hide Related, CalleesAgree, StatementCalls, Rep, M.Coerce;
    InstAt(fn, k, pc);
    LocalsThere(fn, k, env, pc, es, est, vs, st);
    var i := fn.insts[pc].slot;
    if fn.insts[pc].LocalStore? {
      Operand(fn, k, env, pc, es, est, vs, st, 1);
      var e, v := es[|es| - 1], vs[|vs| - 1];
      CoerceRep(env, e, v, fn.localKinds[i]);
      Popped(fn, k, env, pc, pc + 1, es, est, vs, st, 1);
      Stored(fn, k, env, pc + 1, es[..|es| - 1], est, vs[..|vs| - 1], st, i, e, M.Coerce(v, fn.localKinds[i]));
    } else if env.zeros(i).Some? {
      assert es[..|es| - 0] == es && vs[..|vs| - 0] == vs && k[pc][..|vs|] == k[pc];
      Popped(fn, k, env, pc, pc + 1, es, est, vs, st, 0);
      Stored(fn, k, env, pc + 1, es, est, vs, st, i, env.zeros(i).value, M.ZeroOf(fn.localKinds[i]));
    }
  }

  /** What a `null` test or a condition says of the word. */
  lemma TruthIs(env: E.Env, e: E.Value, v: M.Value)
    requires Rep(env, e, v) && v.MI32? && E.Truth(e).Some?
    ensures E.Truth(e).value <==> v.i32 != 0
  {
  }

  /** The leftover of a void call is dropped where the flat machine has nothing to drop. */
  lemma LeftoverDropped(fn: M.Function, k: seq<Kinds>, env: E.Env, pc: nat, es: seq<E.Value>, est: E.State, st: M.State)
    requires |k| == |fn.insts| + 1 && Related(fn, k, env, pc, es, est, [], st) && pc < |fn.insts| && k[pc + 1] == []
      && |es| > 0
    ensures Related(fn, k, env, pc + 1, es[..|es| - 1], est, [], st)
  {
    hide Rep, RepTrace, RepAll;
    var vs: seq<M.Value> := [];
    assert M.KindsOf(vs) == [];
  }

  lemma DropAlike(fn: M.Function, k: seq<Kinds>, env: E.Env, oracle: M.Oracle, pc: nat, es: seq<E.Value>, est: E.State,
      vs: seq<M.Value>, st: M.State)
    requires Alike(fn, k, env, oracle) && pc < |fn.insts| && Related(fn, k, env, pc, es, est, vs, st)
    requires fn.insts[pc].Drop? || fn.insts[pc].Assert?
    ensures StepAlike(fn, k, env, E.Step(fn, env, pc, es, est), M.Step(fn, oracle, pc, vs, st))
  {
    hide CalleesAgree, StatementCalls, ZerosAgree, Rep, RepStack, RepAll, E.Truth;
    InstAt(fn, k, pc);
    LocalsThere(fn, k, env, pc, es, est, vs, st);
    if vs == [] {
      if |es| > 0 {
        LeftoverDropped(fn, k, env, pc, es, est, st);
      }
    } else {
      Operand(fn, k, env, pc, es, est, vs, st, 1);
      Popped(fn, k, env, pc, pc + 1, es, est, vs, st, 1);
      if fn.insts[pc].Assert? && E.Truth(es[|es| - 1]).Some? {
        TruthIs(env, es[|es| - 1], vs[|vs| - 1]);
      }
    }
  }

  lemma JumpAlike(fn: M.Function, k: seq<Kinds>, env: E.Env, oracle: M.Oracle, pc: nat, es: seq<E.Value>, est: E.State,
      vs: seq<M.Value>, st: M.State)
    requires Alike(fn, k, env, oracle) && pc < |fn.insts| && Related(fn, k, env, pc, es, est, vs, st)
    requires fn.insts[pc].Jump? || fn.insts[pc].JumpIfFalse?
    ensures StepAlike(fn, k, env, E.Step(fn, env, pc, es, est), M.Step(fn, oracle, pc, vs, st))
  {
    hide CalleesAgree, StatementCalls, ZerosAgree, Rep, RepStack, RepAll, E.Truth, StaysAbove;
    InstAt(fn, k, pc);
    LocalsThere(fn, k, env, pc, es, est, vs, st);
    var t := fn.insts[pc].dest;
    if fn.insts[pc].Jump? {
      assert es[..|es| - 0] == es && vs[..|vs| - 0] == vs && k[pc][..|vs|] == k[pc];
      Popped(fn, k, env, pc, t, es, est, vs, st, 0);
    } else {
      Operand(fn, k, env, pc, es, est, vs, st, 1);
      Popped(fn, k, env, pc, pc + 1, es, est, vs, st, 1);
      Popped(fn, k, env, pc, t, es, est, vs, st, 1);
      if E.Truth(es[|es| - 1]).Some? {
        TruthIs(env, es[|es| - 1], vs[|vs| - 1]);
      }
    }
  }

  lemma ReturnAlike(fn: M.Function, k: seq<Kinds>, env: E.Env, oracle: M.Oracle, pc: nat, es: seq<E.Value>,
      est: E.State, vs: seq<M.Value>, st: M.State)
    requires Alike(fn, k, env, oracle) && pc < |fn.insts| && Related(fn, k, env, pc, es, est, vs, st)
    requires fn.insts[pc].Return? || fn.insts[pc].ReturnVoid?
    ensures StepAlike(fn, k, env, E.Step(fn, env, pc, es, est), M.Step(fn, oracle, pc, vs, st))
  {
    hide CalleesAgree, StatementCalls, ZerosAgree, Rep, RepStack, RepAll, M.Coerce;
    InstAt(fn, k, pc);
    LocalsThere(fn, k, env, pc, es, est, vs, st);
    if fn.insts[pc].Return? {
      Operand(fn, k, env, pc, es, est, vs, st, 1);
      CoerceRep(env, es[|es| - 1], vs[0], fn.result.value);
    }
  }

  // ---- calls ------------------------------------------------------------------------------------------------

  lemma ArgsAlike(fn: M.Function, k: seq<Kinds>, env: E.Env, pc: nat, es: seq<E.Value>, est: E.State, vs: seq<M.Value>,
      st: M.State, argc: nat, params: Kinds)
    requires |k| == |fn.insts| + 1 && Related(fn, k, env, pc, es, est, vs, st) && argc <= |k[pc]|
    requires ArgKindsOk(k[pc][|k[pc]| - argc..], params)
    ensures argc <= |vs| <= |es| && M.ArgsCoercible(vs[|vs| - argc..], params)
    ensures M.KindsOf(M.CoerceAll(vs[|vs| - argc..], params)) == params
    ensures RepAll(env, es[|es| - argc..], M.CoerceAll(vs[|vs| - argc..], params))
  {
    hide Rep, RepTrace, M.Coerce;
    var args := vs[|vs| - argc..];
    forall i | 0 <= i < argc
      ensures M.KindOf(args[i]) == k[pc][|k[pc]| - argc..][i] && Rep(env, es[|es| - argc..][i], args[i])
    {
      assert args[i] == vs[|vs| - (argc - i)];
      Operand(fn, k, env, pc, es, est, vs, st, argc - i);
    }
    forall i | 0 <= i < argc
      ensures Rep(env, es[|es| - argc..][i], M.Coerce(args[i], params[i]))
        && M.KindOf(M.Coerce(args[i], params[i])) == params[i]
    {
      CoerceRep(env, es[|es| - argc..][i], args[i], params[i]);
    }
  }

  /** A call without a result leaves an invalid value that the flat machine does not have. */
  lemma Leftover(fn: M.Function, k: seq<Kinds>, env: E.Env, pc: nat, es: seq<E.Value>, est: E.State, vs: seq<M.Value>,
      st: M.State, pops: nat)
    requires |k| == |fn.insts| + 1 && Related(fn, k, env, pc, es, est, vs, st) && pc < |fn.insts| && pops == |vs|
      && k[pc + 1] == []
    ensures Related(fn, k, env, pc + 1, es[..|es| - pops] + [E.Invalid], est, [], st)
  {
    hide Rep, RepTrace, RepAll;
    var vs1: seq<M.Value> := [];
    assert M.KindsOf(vs1) == [];
  }

  lemma Recorded(fn: M.Function, k: seq<Kinds>, env: E.Env, pc: nat, es: seq<E.Value>, est: E.State, vs: seq<M.Value>,
      st: M.State, f: nat, ea: seq<E.Value>, a: seq<M.Value>)
    requires |k| == |fn.insts| + 1 && Related(fn, k, env, pc, es, est, vs, st) && RepAll(env, ea, a)
    ensures Related(fn, k, env, pc, es, est.(trace := est.trace + [(f, ea)]), vs, st.(trace := st.trace + [(f, a)]))
  {
    hide Rep, RepStack;
  }

  lemma Answered(fn: M.Function, env: E.Env, oracle: M.Oracle, et: E.Trace, t: M.Trace, f: nat, ea: seq<E.Value>,
      a: seq<M.Value>)
    requires CalleesAgree(fn, env, oracle) && f < |fn.sigs| && RepTrace(env, et, t) && RepAll(env, ea, a)
      && M.KindsOf(a) == fn.sigs[f].params
    requires env.calls(et, f, ea).Some?
    ensures AnswersAgree(env, fn.sigs[f].result, env.calls(et, f, ea).value, oracle.reply(t, f, a))
  {
    hide AnswersAgree, RepTrace, RepAll;
    assert env.calls(et, f, ea).Some?;
    var r := oracle.reply(t, f, a);
  }

  lemma CallAlike(fn: M.Function, k: seq<Kinds>, env: E.Env, oracle: M.Oracle, pc: nat, es: seq<E.Value>, est: E.State,
      vs: seq<M.Value>, st: M.State)
    requires Alike(fn, k, env, oracle) && pc < |fn.insts| && Related(fn, k, env, pc, es, est, vs, st)
    requires fn.insts[pc].CallFn?
    ensures StepAlike(fn, k, env, E.Step(fn, env, pc, es, est), M.Step(fn, oracle, pc, vs, st))
  {
    hide CalleesAgree, ZerosAgree, Rep, RepStack, RepAll, M.CoerceAll, M.ArgsCoercible, M.ValueOf;
    InstAt(fn, k, pc);
    LocalsThere(fn, k, env, pc, es, est, vs, st);
    var f, argc := fn.insts[pc].callee, fn.insts[pc].argc;
    ArgsAlike(fn, k, env, pc, es, est, vs, st, argc, fn.sigs[f].params);
    var ea := es[|es| - argc..];
    var a := M.CoerceAll(vs[|vs| - argc..], fn.sigs[f].params);
    var answer := env.calls(est.trace, f, ea);
    if answer.Some? {
      Answered(fn, env, oracle, est.trace, st.trace, f, ea, a);
      Recorded(fn, k, env, pc, es, est, vs, st, f, ea, a);
      var est1, st1 := est.(trace := est.trace + [(f, ea)]), st.(trace := st.trace + [(f, a)]);
      if fn.sigs[f].result.None? {
        assert StatementCall(fn, fn.insts[pc], k[pc + 1]);
        Leftover(fn, k, env, pc, es, est1, vs, st1, argc);
      } else {
        var v := M.ValueOf(fn.sigs[f].result.value, oracle.reply(st.trace, f, a).value);
        ValueTyped(fn.sigs[f].result.value, oracle.reply(st.trace, f, a).value);
        Replaced(fn, k, env, pc, pc + 1, es, est1, vs, st1, argc, answer.value, v);
      }
    }
  }

  lemma ValueTyped(k: M.Kind, payload: (int, int))
    ensures M.KindOf(M.ValueOf(k, payload)) == k
  {
  }

  /** One step. */
  lemma StepsAlike(fn: M.Function, k: seq<Kinds>, env: E.Env, oracle: M.Oracle, pc: nat, es: seq<E.Value>,
      est: E.State, vs: seq<M.Value>, st: M.State)
    requires Alike(fn, k, env, oracle) && pc < |fn.insts| && Related(fn, k, env, pc, es, est, vs, st)
    requires Faithful(env, fn.insts[pc], pc, es, k[pc + 1])
    ensures StepAlike(fn, k, env, E.Step(fn, env, pc, es, est), M.Step(fn, oracle, pc, vs, st))
  {
    hide Alike, Related, Faithful, StepAlike, E.Step, M.Step;
    var i := fn.insts[pc];
    if i.Unary? || i.Cast? {
      UnaryAlike(fn, k, env, oracle, pc, es, est, vs, st);
    } else if i.Binary? {
      BinaryAlike(fn, k, env, oracle, pc, es, est, vs, st);
    } else if i.LocalStore? || i.LocalZero? {
      LocalAlike(fn, k, env, oracle, pc, es, est, vs, st);
    } else if i.Drop? || i.Assert? {
      DropAlike(fn, k, env, oracle, pc, es, est, vs, st);
    } else if i.CallFn? {
      CallAlike(fn, k, env, oracle, pc, es, est, vs, st);
    } else if i.Jump? || i.JumpIfFalse? {
      JumpAlike(fn, k, env, oracle, pc, es, est, vs, st);
    } else if i.Return? || i.ReturnVoid? {
      ReturnAlike(fn, k, env, oracle, pc, es, est, vs, st);
    } else {
      PushAlike(fn, k, env, oracle, pc, es, est, vs, st);
    }
  }

  /** The operands that the instruction computes with were all stored or pushed. */
  predicate OperandsThere(inst: M.Inst, es: seq<E.Value>) {
    match inst
    case Unary(_) => |es| >= 1 && !es[|es| - 1].Invalid?
    case Cast(_) => |es| >= 1 && !es[|es| - 1].Invalid?
    case Binary(_) => |es| >= 2 && !es[|es| - 1].Invalid? && !es[|es| - 2].Invalid?
    case _ => false
  }

  lemma TopRelated(fn: M.Function, k: seq<Kinds>, env: E.Env, pc: nat, es: seq<E.Value>, e: E.Value, est: E.State,
      vs: seq<M.Value>, v: M.Value, st: M.State)
    requires |k| == |fn.insts| + 1 && Related(fn, k, env, pc, es + [e], est, vs + [v], st)
    ensures Rep(env, e, v)
  {
    hide Rep, RepTrace, RepAll;
    var n := |es| + 1 - (|vs| + 1) + |vs|;
    assert (es + [e])[n] == e && (vs + [v])[|vs|] == v;
  }

  /** State by state: an operator or cast that the evaluator computes is followed by the flat machine if
      and only if it is faithful. */
  lemma FollowedExactly(fn: M.Function, k: seq<Kinds>, env: E.Env, oracle: M.Oracle, pc: nat, es: seq<E.Value>,
      est: E.State, vs: seq<M.Value>, st: M.State)
    requires Alike(fn, k, env, oracle) && pc < |fn.insts| && Related(fn, k, env, pc, es, est, vs, st)
    requires OperandsThere(fn.insts[pc], es) && E.Step(fn, env, pc, es, est).Next?
    ensures StepAlike(fn, k, env, E.Step(fn, env, pc, es, est), M.Step(fn, oracle, pc, vs, st))
       <==> Faithful(env, fn.insts[pc], pc, es, k[pc + 1])
  {
    hide Alike, Related, Rep, E.Unary, E.Binary, E.Cast, M.UnaryOp, M.BinaryOp, M.CastTo, FitsKind, NullsApart,
      PlainCast;
    Mapped(fn, k, env, oracle);
    if Faithful(env, fn.insts[pc], pc, es, k[pc + 1]) {
      StepsAlike(fn, k, env, oracle, pc, es, est, vs, st);
    } else if StepAlike(fn, k, env, E.Step(fn, env, pc, es, est), M.Step(fn, oracle, pc, vs, st)) {
      FollowedOnlyIf(fn, k, env, oracle, pc, es, est, vs, st);
    }
  }

  lemma FollowedOnlyIf(fn: M.Function, k: seq<Kinds>, env: E.Env, oracle: M.Oracle, pc: nat, es: seq<E.Value>,
      est: E.State, vs: seq<M.Value>, st: M.State)
    requires Alike(fn, k, env, oracle) && pc < |fn.insts| && Related(fn, k, env, pc, es, est, vs, st)
    requires OperandsThere(fn.insts[pc], es) && E.Step(fn, env, pc, es, est).Next?
    requires StepAlike(fn, k, env, E.Step(fn, env, pc, es, est), M.Step(fn, oracle, pc, vs, st))
    ensures Faithful(env, fn.insts[pc], pc, es, k[pc + 1])
  {
    hide Related, Rep, E.Unary, E.Binary, E.Cast, M.UnaryOp, M.BinaryOp, M.CastTo, FitsKind, NullsApart, PlainCast,
      BinaryKind, UnaryKind,
         CalleesAgree, ZerosAgree, StatementCalls;
    InstAt(fn, k, pc);
    LocalsThere(fn, k, env, pc, es, est, vs, st);
    Operand(fn, k, env, pc, es, est, vs, st, 1);
    var n, m, i := |es|, |vs|, fn.insts[pc];
    if i.Binary? {
      Operand(fn, k, env, pc, es, est, vs, st, 2);
      var r, w := E.Binary(i.tok, es[n - 2], es[n - 1]).value, M.BinaryOp(i.tok, vs[m - 2], vs[m - 1]).value;
      TopRelated(fn, k, env, pc + 1, es[..n - 2], r, est, vs[..m - 2], w, st);
      NumbersHere(i.tok, vs[m - 2], vs[m - 1]);
      BinaryExact(env, i.tok, es[n - 2], es[n - 1], vs[m - 2], vs[m - 1]);
      ResultKind(env, i.tok, es[n - 2], es[n - 1], vs[m - 2], vs[m - 1]);
    } else if i.Unary? {
      var r, w := E.Unary(i.tok, es[n - 1]).value, M.UnaryOp(i.tok, vs[m - 1]).value;
      TopRelated(fn, k, env, pc + 1, es[..n - 1], r, est, vs[..m - 1], w, st);
      NotText(i.tok, vs[m - 1]);
      UnaryExact(env, i.tok, es[n - 1], vs[m - 1]);
      UnaryResult(i.tok, es[n - 1], vs[m - 1]);
    } else {
      var r, w := E.Cast(env.goals(pc), es[n - 1]).value, M.CastTo(vs[m - 1], i.target).value;
      TopRelated(fn, k, env, pc + 1, es[..n - 1], r, est, vs[..m - 1], w, st);
      CastExact(env, env.goals(pc), es[n - 1], vs[m - 1], i.target);
    }
  }

  lemma NumbersHere(tok: M.Token, a: M.Value, b: M.Value)
    requires BinaryKind(tok, M.KindOf(a), M.KindOf(b)).Some?
    ensures IsArithmetic(tok) && Numbers(a, b)
  {
  }

  lemma NotText(tok: M.Token, v: M.Value)
    requires UnaryKind(tok, M.KindOf(v)).Some?
    ensures !v.MStr?
  {
  }

  /** The width asked of a result is the width of the left operand, unless it is a truth value. */
  lemma ResultKind(env: E.Env, tok: M.Token, ea: E.Value, eb: E.Value, a: M.Value, b: M.Value)
    requires BinaryKind(tok, M.KindOf(a), M.KindOf(b)).Some? && E.Binary(tok, ea, eb).Gives?
    requires FitsKind(E.Binary(tok, ea, eb).value, NumericKind(a))
    ensures FitsKind(E.Binary(tok, ea, eb).value, BinaryKind(tok, M.KindOf(a), M.KindOf(b)).value)
  {
    hide Times, TruncDiv, TruncRem, AndBits, Wrap32, Wrap64;
  }

  lemma UnaryResult(tok: M.Token, e: E.Value, v: M.Value)
    requires UnaryKind(tok, M.KindOf(v)).Some? && E.Unary(tok, e).Gives?
      && FitsKind(E.Unary(tok, e).value, NumericKind(v))
    ensures FitsKind(E.Unary(tok, e).value, UnaryKind(tok, M.KindOf(v)).value)
  {
  }

  // ---- runs -------------------------------------------------------------------------------------------------

  /** Every step of the run is faithful. */
  predicate FaithfulRun(fn: M.Function, k: seq<Kinds>, env: E.Env, n: nat, pc: nat, es: seq<E.Value>, est: E.State)
    requires |k| == |fn.insts| + 1
  {
    pc < |fn.insts| ==>
      && Faithful(env, fn.insts[pc], pc, es, k[pc + 1])
      && var r := E.Step(fn, env, pc, es, est);
         r.Next? && n > 0 ==> FaithfulRun(fn, k, env, n - 1, r.pc, r.stack, r.st)
  }

  /** The flat outcome stands for what the evaluator found out, if it found out anything. */
  ghost predicate OutcomeAlike(fn: M.Function, env: E.Env, e: E.Outcome, m: M.Outcome) {
    match e
    case Evaluated(r, est) =>
      && m.Finished? && RepTrace(env, est.trace, m.st.trace) && (r.Some? <==> m.result.Some?)
      && (r.Some? ==>
        fn.result.Some? && M.KindOf(m.result.value) == fn.result.value && Rep(env, r.value, m.result.value))
    case Faulty(est) => m.Crashed? && RepTrace(env, est.trace, m.st.trace)
    case _ => true
  }

  lemma {:induction false} RunsAlike(fn: M.Function, k: seq<Kinds>, env: E.Env, oracle: M.Oracle, n: nat, pc: nat,
      es: seq<E.Value>, est: E.State, vs: seq<M.Value>, st: M.State)
    requires Alike(fn, k, env, oracle) && Related(fn, k, env, pc, es, est, vs, st)
      && FaithfulRun(fn, k, env, n, pc, es, est)
    ensures OutcomeAlike(fn, env, E.Run(fn, env, n, pc, es, est), Iterate(fn, oracle, n, pc, vs, st))
    decreases n
  {
    hide Alike, Related, Faithful, E.Step, M.Step, Rep, RepTrace;
    Mapped(fn, k, env, oracle);
    if pc < |fn.insts| {
      StepsAlike(fn, k, env, oracle, pc, es, est, vs, st);
      var r, m := E.Step(fn, env, pc, es, est), M.Step(fn, oracle, pc, vs, st);
      if r.Next? && r.pc < |fn.insts| && n > 0 {
        RunsAlike(fn, k, env, oracle, n - 1, r.pc, r.stack, r.st, m.stack, m.st);
      }
    }
  }

  lemma Mapped(fn: M.Function, k: seq<Kinds>, env: E.Env, oracle: M.Oracle)
    requires Alike(fn, k, env, oracle)
    ensures |k| == |fn.insts| + 1
  {
  }

  /** The emitted code ends as the evaluator did: the same result in its words, or a trap; a missing
      result is a trap in a function that declares one. */
  ghost predicate EmittedAlike(fn: M.Function, env: E.Env, e: E.Outcome, w: W.Outcome) {
    match e
    case Evaluated(Some(r), est) =>
      w.Returning? && RepTrace(env, est.trace, w.st.trace) && exists v: M.Value ::
        Rep(env, r, v) && w.stack == W.Slots(v)
    case Evaluated(None, est) => (if fn.result.Some? then w.Trap? else w.Returning?)
      && RepTrace(env, est.trace, w.st.trace)
    case Faulty(est) => w.Trap? && RepTrace(env, est.trace, w.st.trace)
    case _ => true
  }

  /**
   * Evaluating a function at compile time and running the code emitted for it give the same, for all
   * arguments and callees, if every step is faithful: constants included, which a well-formed function
   * has only where they fit.
   */
  lemma EvaluationIsPreserved(fn: M.Function, k: seq<Kinds>, env: E.Env, oracle: M.Oracle, est: E.State,
      locals: seq<M.Value>, start: W.State, n: nat, fuel: nat)
    requires Alike(fn, k, env, oracle) && EmitBody(fn).Ok? && Starts(fn, locals, start)
    requires M.KindsOf(locals) == fn.localKinds && RepAll(env, est.locals, locals)
      && RepTrace(env, est.trace, start.trace)
    requires FaithfulRun(fn, k, env, n, 0, [], est) && !E.Run(fn, env, n, 0, [], est).Unfinished? && fuel >= n
    ensures EmittedAlike(fn, env, E.Run(fn, env, n, 0, [], est), Compiler.WasmRun(fn, oracle, start.(fuel := fuel)))
  {
    hide Rep, RepTrace, EmitBody, Compiler.WasmRun, Starts, E.Step, M.Step, FaithfulRun, W.Slots, RepAll;
    var st := M.State(locals, start.trace, 0);
    StartRelated(fn, k, env, est, st);
    RunsAlike(fn, k, env, oracle, n, 0, [], est, [], st);
    var e := E.Run(fn, env, n, 0, [], est);
    if e.Evaluated? || e.Faulty? {
      Compiler.RunsArePreserved(fn, k, oracle, locals, start, n);
      var w := Compiler.WasmRun(fn, oracle, start.(fuel := fuel));
      assert Compiler.EndAlike(fn, Iterate(fn, oracle, n, 0, [], st), w);
    }
  }

  lemma StartRelated(fn: M.Function, k: seq<Kinds>, env: E.Env, est: E.State, st: M.State)
    requires WellFormed(fn, k) && M.KindsOf(st.locals) == fn.localKinds && RepAll(env, est.locals, st.locals)
      && RepTrace(env, est.trace, st.trace)
    ensures Related(fn, k, env, 0, [], est, [], st)
  {
    hide Rep, RepTrace, RepAll, InstOk, DiamondsClosed;
    var none: seq<M.Value> := [];
    assert M.KindsOf(none) == [];
  }
}
