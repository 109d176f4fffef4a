/** The code of every fall-through instruction validates, with the tracked operand kinds as its type. */
module ValidLeaves {
  import opened Words
  import Mir
  import opened StackMap
  import opened Wasm
  import opened Emitter
  import opened Slots
  import opened Validation

  /** The locals of the emitted function have the types the code expects. */
  ghost predicate Suits(fn: Mir.Function, c: Context) {
    && c.sigs == fn.sigs && c.result == KindTypes(fn.result) && ExpandTypes(fn.localKinds[..ParamCount(fn)]) <= c.locals
    && (fn.frame.Some? ==> SuitsFrame(fn, c))
    && (NeedsCallScratch(fn) ==>
          && ScratchI64(fn) + CALL_SCRATCH_I64 <= |c.locals|
          && (forall x :: ScratchI32(fn) <= x < ScratchI64(fn) ==> c.locals[x] == TI32)
          && (forall x :: ScratchI64(fn) <= x < ScratchI64(fn) + CALL_SCRATCH_I64 ==> c.locals[x] == TI64))
  }

  /** The frame pointer is a global, and the hidden locals are there. */
  ghost predicate SuitsFrame(fn: Mir.Function, c: Context)
    requires fn.frame.Some?
  {
    && fn.frame.value.pointer < c.globals && ParamCount(fn) <= |fn.frame.value.offsets|
    && FrameBase(fn) + HIDDEN_LOCALS <= |c.locals|
    && (forall x :: FrameBase(fn) <= x < FrameBase(fn) + 8 ==> c.locals[x] == TI32) && c.locals[ScratchWide(fn)] == TI64
  }

  lemma SuitsInside(fn: Mir.Function, c: Context, results: Types)
    requires Suits(fn, c)
    ensures Suits(fn, c.Inside(results))
  {
  }

  /** The WebAssembly operands above the lowest `h` MIR operands. */
  function Above(ks: Kinds, h: nat): Types {
    if h <= |ks| then ExpandTypes(ks[h..]) else []
  }

  lemma AboveSplit(rest: Kinds, top: Kinds, h: nat)
    requires h <= |rest|
    ensures Above(rest + top, h) == Above(rest, h) + ExpandTypes(top)
  {
    assert (rest + top)[h..] == rest[h..] + top;
    ExpandTypesConcat(rest[h..], top);
  }

  lemma OneKind(k: Mir.Kind)
    ensures ExpandTypes([k]) == SlotTypes(k)
  {
    var none: Kinds := [];
    assert none + [k] == [k];
    ExpandTypesPush(none, k);
    assert [] + SlotTypes(k) == SlotTypes(k);
  }

  lemma TwoKinds(a: Mir.Kind, b: Mir.Kind)
    ensures ExpandTypes([a, b]) == SlotTypes(a) + SlotTypes(b)
  {
    OneKind(a);
    assert [a] + [b] == [a, b];
    ExpandTypesPush([a], b);
  }

  /** A second value pushed above the first. */
  lemma PushTwo(c: Context, i: Instr, j: Instr, s: ValType, t: ValType)
    requires Turns(c, [i], [], [s]) && Turns(c, [j], [], [t])
    ensures Turns(c, [i, j], [], [s, t])
  {
    hide Turns;
    TurnsAbove(c, [j], [s], [], [t]);
    assert [s] + [] == [s] && [s] + [t] == [s, t] && [i] + [j] == [i, j];
    TurnsThen(c, [i], [j], [], [s], [s, t]);
  }

  lemma PopTwo(c: Context, i: Instr, j: Instr, s: ValType, t: ValType)
    requires Turns(c, [i], [t], []) && Turns(c, [j], [s], [])
    ensures Turns(c, [i, j], [s, t], [])
  {
    hide Turns;
    TurnsAbove(c, [i], [s], [t], []);
    assert [s] + [] == [s] && [s] + [t] == [s, t] && [i] + [j] == [i, j];
    TurnsThen(c, [i], [j], [s, t], [s], []);
  }

  /** The context has the types of a value of kind `k` at `x`. */
  ghost predicate HasKindAt(c: Context, k: Mir.Kind, x: nat) {
    x + |SlotTypes(k)| <= |c.locals| && c.locals[x] == SlotTypes(k)[0] && (k == Mir.KStr ==> c.locals[x + 1] == TI32)
  }

  lemma LocalHasKind(fn: Mir.Function, c: Context, i: nat)
    requires Suits(fn, c) && i < ParamCount(fn)
    ensures HasKindAt(c, fn.localKinds[i], LocalIndex(fn, i))
  {
    hide Suits, SlotTypes, ExpandTypes;
    var ks := fn.localKinds[..ParamCount(fn)];
    assert ks[..i] == fn.localKinds[..i];
    ParamsTyped(fn, c);
    KindInside(ks, i, c);
  }

  lemma ParamsTyped(fn: Mir.Function, c: Context)
    requires Suits(fn, c)
    ensures ExpandTypes(fn.localKinds[..ParamCount(fn)]) <= c.locals
  {
  }

  lemma KindInside(ks: Kinds, i: nat, c: Context)
    requires i < |ks| && ExpandTypes(ks) <= c.locals
    ensures HasKindAt(c, ks[i], |ExpandTypes(ks[..i])|)
  {
    hide ExpandTypes;
    var pre, mid, post := ExpandTypes(ks[..i]), SlotTypes(ks[i]), ExpandTypes(ks[i + 1..]);
    assert ks == ks[..i] + [ks[i]] + ks[i + 1..];
    ExpandTypesPush(ks[..i], ks[i]);
    ExpandTypesConcat(ks[..i] + [ks[i]], ks[i + 1..]);
    assert ExpandTypes(ks) == pre + mid + post;
    assert c.locals[|pre|] == mid[0];
    assert ks[i] == Mir.KStr ==> c.locals[|pre| + 1] == mid[1];
  }

  lemma ReadTurns(c: Context, k: Mir.Kind, x: nat)
    requires HasKindAt(c, k, x)
    ensures Turns(c, ReadLocal(k, x), [], SlotTypes(k))
  {
    hide Turns;
    GetTurns(c, x);
    if k == Mir.KStr {
      GetTurns(c, x + 1);
      PushTwo(c, LocalGet(x), LocalGet(x + 1), TI32, TI32);
    }
  }

  lemma WriteTurns(c: Context, k: Mir.Kind, x: nat)
    requires HasKindAt(c, k, x)
    ensures Turns(c, WriteLocal(k, x), SlotTypes(k), [])
  {
    hide Turns;
    SetTurns(c, x);
    if k == Mir.KStr {
      SetTurns(c, x + 1);
      PopTwo(c, LocalSet(x + 1), LocalSet(x), TI32, TI32);
    }
  }

  lemma AdaptTurns(c: Context, from: Mir.Kind, to: Mir.Kind)
    requires Mir.Coercible(from, to)
    ensures Turns(c, Adapt(from, to), SlotTypes(from), SlotTypes(to))
  {
    hide Turns;
    NumericTurns(c, 0xac);
    TurnsNothing(c, SlotTypes(from));
  }

  lemma ZeroTurns(c: Context, k: Mir.Kind, x: nat)
    requires HasKindAt(c, k, x)
    ensures Turns(c, ZeroLocal(k, x), [], [])
  {
    hide Turns;
    ConstTurns(c, 0, 0);
    SetTurns(c, x);
    match k
    case KI32 => TurnsThen(c, [I32Const(0)], [LocalSet(x)], [], [TI32],
      []); assert [I32Const(0)] + [LocalSet(x)] == ZeroLocal(k, x);
    case KI64 => TurnsThen(c, [I64Const(0)], [LocalSet(x)], [], [TI64],
      []); assert [I64Const(0)] + [LocalSet(x)] == ZeroLocal(k, x);
    case KStr =>
      SetTurns(c, x + 1);
      TurnsThen(c, [I32Const(0)], [LocalSet(x + 1)], [], [TI32], []);
      TurnsThen(c, [I32Const(0)], [LocalSet(x)], [], [TI32], []);
      TurnsThen(c, [I32Const(0)] + [LocalSet(x + 1)], [I32Const(0)] + [LocalSet(x)], [], [], []);
      assert [I32Const(0)] + [LocalSet(x + 1)] + ([I32Const(0)] + [LocalSet(x)]) == ZeroLocal(k, x);
  }

  lemma UnaryTurns(c: Context, tok: Mir.Token, k: Mir.Kind, rest: Kinds)
    requires EmitUnary(tok, k, rest).Ok? && UnaryKind(tok, k).Some?
    ensures Turns(c, EmitUnary(tok, k, rest).code, SlotTypes(k), SlotTypes(UnaryKind(tok, k).value))
  {
    hide Turns;
    match tok
    case Add => TurnsNothing(c, SlotTypes(k));
    case Not => NumericTurns(c, if k == Mir.KI32 then 0x45 else 0x50);
    case Sub =>
      var t := SlotTypes(k)[0];
      var i := if k == Mir.KI32 then I32Const(-1) else I64Const(-1);
      var op: Byte := if k == Mir.KI32 then 0x6c else 0x7e;
      ConstTurns(c, -1, -1);
      NumericTurns(c, op);
      TurnsAbove(c, [i], [t], [], [t]);
      assert [t] + [] == [t] && [t] + [t] == [t, t] && [i] + [Numeric(op)] == [i, Numeric(op)];
      TurnsThen(c, [i], [Numeric(op)], [t], [t, t], [t]);
  }

  lemma BinaryTurns(c: Context, tok: Mir.Token, a: Mir.Kind, b: Mir.Kind, rest: Kinds)
    requires EmitBinary(tok, a, b, rest).Ok? && BinaryKind(tok, a, b).Some?
    ensures Turns(c, EmitBinary(tok, a, b, rest).code, SlotTypes(a) + SlotTypes(b),
      SlotTypes(BinaryKind(tok, a, b).value))
  {
    hide Turns;
    var t, r := SlotTypes(a)[0], SlotTypes(BinaryKind(tok, a, b).value)[0];
    var op: Byte := if a == Mir.KI32 then Opcode32(tok).value else Opcode64(tok).value;
    NumericTurns(c, op);
    assert [t] + [t] == [t, t];
    if a != b {
      NumericTurns(c, 0xac);
      TurnsAbove(c, [Numeric(0xac)], [TI64], [TI32], [TI64]);
      assert [Numeric(0xac)] + [Numeric(op)] == [Numeric(0xac), Numeric(op)];
      TurnsThen(c, [Numeric(0xac)], [Numeric(op)], [TI64] + [TI32], [TI64, TI64], [r]);
    }
  }

  lemma CastTurns(c: Context, from: Mir.Kind, to: Mir.Kind)
    requires CanCast(from, to)
    ensures Turns(c, if from == to then [] else if to == Mir.KI64 then [Numeric(0xac)]
      else [Numeric(0xa7)], SlotTypes(from), SlotTypes(to))
  {
    hide Turns;
    TurnsNothing(c, SlotTypes(from));
    NumericTurns(c, 0xac);
    NumericTurns(c, 0xa7);
  }

  lemma AssertTurns(c: Context)
    ensures Turns(c, [Numeric(0x45), If([Unreachable])], [TI32], [])
  {
    hide Turns;
    NumericTurns(c, 0x45);
    UnreachableTurns(c.Inside([]), [], []);
    IfTurns(c, [Unreachable]);
    assert [Numeric(0x45)] + [If([Unreachable])] == [Numeric(0x45), If([Unreachable])];
    TurnsThen(c, [Numeric(0x45)], [If([Unreachable])], [TI32], [TI32], []);
  }

  // ---- calls --------------------------------------------------------------------------------

  lemma HomeHasKind(fn: Mir.Function, c: Context, k: Mir.Kind, next32: nat, next64: nat)
    requires Suits(fn, c) && NeedsCallScratch(fn) && HomeFor(fn, k, next32, next64).Some?
    ensures HasKindAt(c, k, HomeFor(fn, k, next32, next64).value)
  {
  }

  ghost predicate HomesTyped(c: Context, params: Kinds, homes: seq<nat>) {
    |homes| == |params| && forall j :: 0 <= j < |params| ==> HasKindAt(c, params[j], homes[j])
  }

  lemma HomesPush(c: Context, params: Kinds, homes: seq<nat>, k: Mir.Kind, home: nat)
    requires params != [] && k == params[|params| - 1]
    requires HomesTyped(c, params[..|params| - 1], homes) && HasKindAt(c, k, home)
    ensures HomesTyped(c, params, homes + [home])
  {
    hide HasKindAt;
  }

  lemma {:induction false} PlanTurns(fn: Mir.Function, c: Context, params: Kinds, actual: Kinds, next32: nat,
      next64: nat)
    requires Suits(fn, c) && (params != [] ==> NeedsCallScratch(fn)) && |params| == |actual|
      && PlanArgs(fn, params, actual, next32, next64).Plan?
    ensures var p := PlanArgs(fn, params, actual, next32, next64);
      Turns(c, p.code, ExpandTypes(actual), []) && HomesTyped(c, params, p.homes)
    decreases |params|
  {
    hide Turns, HasKindAt, HomeFor, Adapt, WriteLocal, ExpandTypes, Suits, HomesTyped, Mir.Coercible;
    var n := |params|;
    if n == 0 {
      NoKinds();
      assert actual == [];
      TurnsNothing(c, []);
      NoHomes(c);
    } else {
      var k, a, front := params[n - 1], actual[n - 1], actual[..n - 1];
      var home := HomeFor(fn, k, next32, next64).value;
      var rest := PlanArgs(fn, params[..n - 1], front, next32 + Cells32(k), next64 + Cells64(k));
      PlanTurns(fn, c, params[..n - 1], front, next32 + Cells32(k), next64 + Cells64(k));
      HomeHasKind(fn, c, k, next32, next64);
      HomesPush(c, params, rest.homes, k, home);
      AdaptTurns(c, a, k);
      WriteTurns(c, k, home);
      TurnsThen(c, Adapt(a, k), WriteLocal(k, home), SlotTypes(a), SlotTypes(k), []);
      TurnsAbove(c, Adapt(a, k) + WriteLocal(k, home), ExpandTypes(front), SlotTypes(a), []);
      assert ExpandTypes(front) + [] == ExpandTypes(front) && actual == front + [a];
      ExpandTypesPush(front, a);
      TurnsThen(c, Adapt(a, k) + WriteLocal(k, home), rest.code, ExpandTypes(actual), ExpandTypes(front), []);
    }
  }

  lemma NoHomes(c: Context)
    ensures HomesTyped(c, [], [])
  {
  }

  lemma NoKinds()
    ensures ExpandTypes([]) == []
  {
  }

  lemma {:induction false} ReloadTurns(c: Context, params: Kinds, homes: seq<nat>)
    requires HomesTyped(c, params, homes)
    ensures Turns(c, ReloadArgs(params, homes), [], ExpandTypes(params))
    decreases |params|
  {
    hide Turns, HasKindAt, ReadLocal, ExpandTypes;
    var n := |params|;
    if n == 0 {
      NoKinds();
      assert params == [];
      TurnsNothing(c, []);
    } else {
      var front := params[..n - 1];
      ReloadTurns(c, front, homes[..n - 1]);
      ReadTurns(c, params[n - 1], homes[n - 1]);
      TurnsAbove(c, ReadLocal(params[n - 1], homes[n - 1]), ExpandTypes(front), [], SlotTypes(params[n - 1]));
      assert ExpandTypes(front) + [] == ExpandTypes(front) && params == front + [params[n - 1]];
      ExpandTypesPush(front, params[n - 1]);
      TurnsThen(c, ReloadArgs(front, homes[..n - 1]), ReadLocal(params[n - 1], homes[n - 1]), [], ExpandTypes(front),
        ExpandTypes(params));
    }
  }

  lemma CallCodeTurns(fn: Mir.Function, c: Context, f: nat, argc: nat, ks: Kinds)
    requires Suits(fn, c) && EmitCall(fn, f, argc, ks).Ok? && (argc > 0 ==> NeedsCallScratch(fn))
    ensures f < |fn.sigs| && argc <= |ks|
    ensures Turns(c, EmitCall(fn, f, argc, ks).code, ExpandTypes(ks[|ks| - argc..]), KindTypes(fn.sigs[f].result))
  {
    hide Turns, PlanArgs, ReloadArgs, ExpandTypes;
    var params, actual := fn.sigs[f].params, ks[|ks| - argc..];
    var plan := PlanArgs(fn, params, actual, 0, 0);
    PlanTurns(fn, c, params, actual, 0, 0);
    ReloadTurns(c, params, plan.homes);
    CallTurns(c, f);
    TurnsThen(c, plan.code, ReloadArgs(params, plan.homes), ExpandTypes(actual), [], ExpandTypes(params));
    TurnsThen(c, plan.code + ReloadArgs(params, plan.homes), [Call(f)], ExpandTypes(actual), ExpandTypes(params),
      KindTypes(fn.sigs[f].result));
  }
}
