/** Everything the structuring pass emits can be written in the binary format. */
module EmittedFits {
  import opened Words
  import Mir
  import opened StackMap
  import opened Wasm
  import opened Emitter
  import opened Binary
  import opened EmitterMethods
  import opened RangeMethods
  import Slots

  lemma Together(a: seq<Instr>, b: seq<Instr>)
    requires AllEncodable(a) && AllEncodable(b)
    ensures AllEncodable(a + b)
  {
    hide Encodable;
  }

  lemma {:induction false} LocalsBounded(fn: Mir.Function, i: nat)
    requires i <= |fn.localKinds|
    ensures LocalIndex(fn, i) <= 2 * i
    decreases i
  {
    if i > 0 {
      LocalsBounded(fn, i - 1);
      assert fn.localKinds[..i] == fn.localKinds[..i - 1] + [fn.localKinds[i - 1]];
      Slots.ExpandTypesPush(fn.localKinds[..i - 1], fn.localKinds[i - 1]);
    } else {
      assert fn.localKinds[..0] == [];
    }
  }

  lemma {:induction false} PlanFits(fn: Mir.Function, params: Kinds, actual: Kinds, next32: nat, next64: nat)
    requires SizesFit(fn) && |params| == |actual| && next32 <= CALL_SCRATCH_I32 && next64 <= CALL_SCRATCH_I64
    ensures var p := PlanArgs(fn, params, actual, next32, next64);
      p.Plan? ==> AllEncodable(p.code) && forall j :: 0 <= j < |p.homes| ==> p.homes[j] + 1 < TWO32
    decreases |params|
  {
    hide Encodable, Adapt, WriteLocal, HomeFor, LocalIndex;
    var n := |params|;
    if PlanArgs(fn, params, actual, next32, next64).Plan? && n > 0 {
      var k := params[n - 1];
      var home := HomeFor(fn, k, next32, next64).value;
      ParkFits(fn, actual[n - 1], k, next32, next64);
      PlanFits(fn, params[..n - 1], actual[..n - 1], next32 + Cells32(k), next64 + Cells64(k));
      var rest := PlanArgs(fn, params[..n - 1], actual[..n - 1], next32 + Cells32(k), next64 + Cells64(k));
      Together(Adapt(actual[n - 1], k) + WriteLocal(k, home), rest.code);
    }
  }

  lemma ParkFits(fn: Mir.Function, actual: Mir.Kind, k: Mir.Kind, next32: nat, next64: nat)
    requires SizesFit(fn) && HomeFor(fn, k, next32, next64).Some? && next32 <= CALL_SCRATCH_I32
      && next64 <= CALL_SCRATCH_I64
    ensures HomeFor(fn, k, next32, next64).value + 1 < TWO32
    ensures next32 + Cells32(k) <= CALL_SCRATCH_I32 && next64 + Cells64(k) <= CALL_SCRATCH_I64
    ensures AllEncodable(Adapt(actual, k) + WriteLocal(k, HomeFor(fn, k, next32, next64).value))
  {
    LocalsBounded(fn, ParamCount(fn));
    LocalsBounded(fn, |fn.localKinds|);
  }

  lemma {:induction false} ReloadFits(params: Kinds, homes: seq<nat>)
    requires |params| == |homes| && forall j :: 0 <= j < |homes| ==> homes[j] + 1 < TWO32
    ensures AllEncodable(ReloadArgs(params, homes))
    decreases |params|
  {
    var n := |params|;
    if n > 0 {
      ReloadFits(params[..n - 1], homes[..n - 1]);
      Together(ReloadArgs(params[..n - 1], homes[..n - 1]), ReadLocal(params[n - 1], homes[n - 1]));
    }
  }

  lemma CallFits(fn: Mir.Function, f: nat, argc: nat, ks: Kinds)
    requires SizesFit(fn) && EmitCall(fn, f, argc, ks).Ok?
    ensures AllEncodable(EmitCall(fn, f, argc, ks).code)
  {
    hide PlanArgs, ReloadArgs;
    var params := fn.sigs[f].params;
    var plan := PlanArgs(fn, params, ks[|ks| - argc..], 0, 0);
    PlanFits(fn, params, ks[|ks| - argc..], 0, 0);
    ReloadFits(params, plan.homes);
    Together(plan.code, ReloadArgs(params, plan.homes));
    Together(plan.code + ReloadArgs(params, plan.homes), [Call(f)]);
  }

  lemma LeafFits(fn: Mir.Function, t: Targets, inst: Mir.Inst, ks: Kinds)
    requires SizesFit(fn) && DepthsFit(t, 0) && EmitLeaf(fn, t, inst, ks).Ok?
    ensures AllEncodable(EmitLeaf(fn, t, inst, ks).code)
  {
    hide EmitSimple, EmitFramed, Leave, Plain;
    BaseBounded(fn);
    if inst.Return? {
      LeaveFits(fn, fn.result);
      WidenFits(ks[|ks| - 1], fn.result.value, Leave(fn, fn.result));
    } else if inst.ReturnVoid? {
      LeaveFits(fn, None);
    } else if !inst.Jump? {
      if fn.frame.None? {
        SimpleFits(fn, inst, ks);
      } else {
        FramedFits(fn, inst, ks);
      }
    }
  }

  lemma BaseBounded(fn: Mir.Function)
    requires SizesFit(fn)
    ensures FrameBase(fn) <= 2 * MAX_LOCALS
  {
    LocalsBounded(fn, ParamCount(fn));
  }

  lemma FramedFits(fn: Mir.Function, inst: Mir.Inst, ks: Kinds)
    requires SizesFit(fn) && fn.frame.Some? && EmitFramed(fn, inst, ks).Ok?
    ensures AllEncodable(EmitFramed(fn, inst, ks).code)
  {
    hide EmitSimple, LoadFrame, StoreFrame, ZeroFrame, AllEncodable, Plain, EmitBinary, CompareStrings, FrameBase;
    BaseBounded(fn);
    match inst
    case LocalLoad(i) => FrameCodeFits(fn, fn.localKinds[i], fn.frame.value.offsets[i], 0);
    case LocalStore(i) => StoreCodeFits(fn, ks[|ks| - 1], fn.localKinds[i], fn.frame.value.offsets[i]);
    case LocalZero(i) => FrameCodeFits(fn, fn.localKinds[i], fn.frame.value.offsets[i], 0);
    case Binary(tok) => FramedBinaryFits(fn, tok, ks[|ks| - 2], ks[|ks| - 1], ks[..|ks| - 2]);
    case _ => SimpleFits(fn, inst, ks);
  }

  lemma FramedBinaryFits(fn: Mir.Function, tok: Mir.Token, a: Mir.Kind, b: Mir.Kind, rest: Kinds)
    requires SizesFit(fn) && EmitFramedBinary(fn, tok, a, b, rest).Ok?
    ensures AllEncodable(EmitFramedBinary(fn, tok, a, b, rest).code)
  {
    hide EmitBinary, CompareStrings, FrameBase;
    BaseBounded(fn);
    if a == Mir.KStr && b == Mir.KStr && (tok == Mir.Eq || tok == Mir.Neq) {
      CompareFits(FrameBase(fn) + 1, tok == Mir.Neq);
    } else if !(a == Mir.KI32 && b == Mir.KI64) {
      BinaryFits(tok, a, b, rest);
    }
  }

  lemma SimpleFits(fn: Mir.Function, inst: Mir.Inst, ks: Kinds)
    requires SizesFit(fn) && EmitSimple(fn, inst, ks).Ok?
      && (fn.frame.None? || !(inst.LocalLoad? || inst.LocalStore? || inst.LocalZero?))
    ensures AllEncodable(EmitSimple(fn, inst, ks).code)
  {
    hide EmitCall, LocalIndex, EmitUnary, EmitBinary;
    match inst
    case Unary(tok) => UnaryFits(tok, ks[|ks| - 1], ks[..|ks| - 1]);
    case Binary(tok) => BinaryFits(tok, ks[|ks| - 2], ks[|ks| - 1], ks[..|ks| - 2]);
    case CallFn(f, argc) => CallFits(fn, f, argc, ks);
    case LocalLoad(i) => LocalCodeFits(fn, i, fn.localKinds[i]);
    case LocalStore(i) => LocalCodeFits(fn, i, ks[|ks| - 1]);
    case LocalZero(i) => LocalCodeFits(fn, i, fn.localKinds[i]);
    case _ =>
  }

  // ---- the prologue -------------------------------------------------------------------------

  lemma {:induction false} SpillFits(fn: Mir.Function, n: nat)
    requires SizesFit(fn) && fn.frame.Some? && n <= ParamCount(fn)
    ensures AllEncodable(SpillParams(fn, n))
    decreases n
  {
    hide AllEncodable, StoreLocal, LocalIndex, Plain;
    if n == 0 {
      NothingFits();
    } else {
      SpillFits(fn, n - 1);
      BaseBounded(fn);
      LocalsBounded(fn, n - 1);
      var store := StoreLocal(fn, fn.localKinds[n - 1], fn.frame.value.offsets[n - 1], LocalIndex(fn, n - 1));
      FrameCodeFits(fn, fn.localKinds[n - 1], fn.frame.value.offsets[n - 1], LocalIndex(fn, n - 1));
      Together(SpillParams(fn, n - 1), store);
    }
  }

  lemma PrologueFits(fn: Mir.Function)
    requires SizesFit(fn)
    ensures AllEncodable(Prologue(fn))
  {
    hide SpillParams, FrameBase;
    if fn.frame.Some? {
      BaseBounded(fn);
      SpillFits(fn, ParamCount(fn));
      Together(TakeFrame(fn), SpillParams(fn, ParamCount(fn)));
    }
  }

  /** Whole function bodies. */
  lemma BodyFits(fn: Mir.Function)
    requires SizesFit(fn) && EmitBody(fn).Ok?
    ensures AllEncodable(EmitBody(fn).code)
  {
    hide AllEncodable, EmitRange, Prologue;
    RangeFits(fn, NO_TARGETS, 0, |fn.insts|, []);
    PrologueFits(fn);
    Together(Prologue(fn), EmitRange(fn, NO_TARGETS, 0, |fn.insts|, []).code);
  }

  // ---- instructions ---------------------------------------------------------------------------

  lemma UnaryFits(tok: Mir.Token, k: Mir.Kind, rest: Kinds)
    requires EmitUnary(tok, k, rest).Ok?
    ensures AllEncodable(EmitUnary(tok, k, rest).code)
  {
  }

  lemma BinaryFits(tok: Mir.Token, a: Mir.Kind, b: Mir.Kind, rest: Kinds)
    requires EmitBinary(tok, a, b, rest).Ok?
    ensures AllEncodable(EmitBinary(tok, a, b, rest).code)
  {
    hide StringEquality;
    StringEqualityFits(tok == Mir.Neq);
  }

  lemma StringEqualityFits(negate: bool)
    ensures AllEncodable(StringEquality(negate))
  {
  }

  lemma LocalCodeFits(fn: Mir.Function, i: nat, actual: Mir.Kind)
    requires SizesFit(fn) && fn.frame.None? && i < |fn.localKinds|
    ensures var k, x := fn.localKinds[i], LocalIndex(fn, i);
      AllEncodable(ReadLocal(k, x)) && AllEncodable(Adapt(actual, k) + WriteLocal(k, x))
        && AllEncodable(ZeroLocal(k, x))
  {
    hide LocalIndex;
    LocalFits(fn, i);
    LocalsBounded(fn, |fn.localKinds|);
    LocalsBounded(fn, i);
  }

  lemma {:induction false} RangeFits(fn: Mir.Function, t: Targets, s: nat, e: nat, ks: Kinds)
    requires SizesFit(fn) && e <= |fn.insts| && DepthsFit(t, Size(s, e)) && EmitRange(fn, t, s, e, ks).Ok?
    ensures AllEncodable(EmitRange(fn, t, s, e, ks).code)
    decreases Size(s, e), 4
  {
    hide EmitConstruct, AllEncodable;
    if s < e {
      var c := EmitConstruct(fn, t, s, e, ks);
      ConstructFits(fn, t, s, e, ks);
      RangeFits(fn, t, c.pc, e, c.stack);
      Together(c.code, EmitRange(fn, t, c.pc, e, c.stack).code);
    } else {
      NothingFits();
    }
  }

  lemma NothingFits()
    ensures AllEncodable([])
  {
  }

  lemma {:induction false} ConstructFits(fn: Mir.Function, t: Targets, s: nat, e: nat, ks: Kinds)
    requires SizesFit(fn) && s < e <= |fn.insts| && DepthsFit(t, e - s) && EmitConstruct(fn, t, s, e, ks).Next?
    ensures AllEncodable(EmitConstruct(fn, t, s, e, ks).code)
    decreases e - s, 3
  {
    hide EmitRange, EmitWhile, EmitForever, EmitBranch, EmitLeaf, AllEncodable;
    match KindAt(fn, t, s, e)
    case AWhile(r) => WhileFits(fn, r, e, ks);
    case AForever(b) => ForeverFits(fn, s, b, e, ks);
    case ABranch => BranchFits(fn, t, s, e, ks);
    case ALeaf => LeafFits(fn, t, fn.insts[s], ks);
  }

  lemma {:induction false} WhileFits(fn: Mir.Function, r: Region, e: nat, ks: Kinds)
    requires SizesFit(fn) && e <= |fn.insts| && IsRegion(fn, r.header, e, r) && EmitWhile(fn, r, e, ks).Ok?
    ensures AllEncodable(EmitWhile(fn, r, e, ks).code)
    decreases e - r.header, 2
  {
    hide EmitRange, EmitWhile;
    WhileParts(fn, r, e, ks);
    var c := EmitRange(fn, NO_TARGETS, r.header, r.cond, ks);
    var b := EmitRange(fn, BodyTargets(r), r.cond + 1, r.tail, c.stack[..|ks|]);
    var tl := EmitRange(fn, LoopTargets(r.header, r.exit), r.tail, r.backedge, b.stack);
    RangeFits(fn, NO_TARGETS, r.header, r.cond, ks);
    RangeFits(fn, BodyTargets(r), r.cond + 1, r.tail, c.stack[..|ks|]);
    RangeFits(fn, LoopTargets(r.header, r.exit), r.tail, r.backedge, b.stack);
    LoopFits(c.code, b.code, tl.code);
  }

  lemma Framed(pass: seq<Instr>)
    ensures AllEncodable([Block([Loop(pass)])]) == AllEncodable(pass)
  {
    assert Encodable([Loop(pass)][0]) == Encodable(Loop(pass));
    assert Encodable([Block([Loop(pass)])][0]) == Encodable(Block([Loop(pass)]));
  }

  lemma Single(body: seq<Instr>)
    requires AllEncodable(body)
    ensures AllEncodable([Block(body)]) && AllEncodable([Numeric(0x45), BrIf(1)]) && AllEncodable([Br(0)])
  {
  }

  lemma LoopFits(cond: seq<Instr>, body: seq<Instr>, tail: seq<Instr>)
    requires AllEncodable(cond) && AllEncodable(body) && AllEncodable(tail)
    ensures AllEncodable(WhileCode(cond, body, tail)) && AllEncodable(ForeverCode(body))
  {
    hide Encodable, AllEncodable;
    Framed(cond + [Numeric(0x45), BrIf(1)] + [Block(body)] + tail + [Br(0)]);
    Framed(body + [Br(0)]);
    Single(body);
    Together(cond, [Numeric(0x45), BrIf(1)]);
    Together(cond + [Numeric(0x45), BrIf(1)], [Block(body)]);
    Together(cond + [Numeric(0x45), BrIf(1)] + [Block(body)], tail);
    Together(cond + [Numeric(0x45), BrIf(1)] + [Block(body)] + tail, [Br(0)]);
    Together(body, [Br(0)]);
  }

  lemma {:induction false} ForeverFits(fn: Mir.Function, s: nat, b: nat, e: nat, ks: Kinds)
    requires SizesFit(fn) && s < b < e <= |fn.insts| && EmitForever(fn, s, b, ks).Ok?
    ensures AllEncodable(EmitForever(fn, s, b, ks).code)
    decreases e - s, 2
  {
    hide EmitRange, AllEncodable, ForeverCode;
    RangeFits(fn, LoopTargets(s, b + 1), s, b, ks);
    NothingFits();
    LoopFits([], EmitRange(fn, LoopTargets(s, b + 1), s, b, ks).code, []);
  }

  lemma ArmsFit(thn: seq<Instr>, els: seq<Instr>, t: Option<ValType>)
    requires AllEncodable(thn) && AllEncodable(els)
    ensures AllEncodable([If(thn)]) && AllEncodable([IfElse(t, thn, els)])
  {
  }

  lemma {:induction false} BranchFits(fn: Mir.Function, t: Targets, s: nat, e: nat, ks: Kinds)
    requires SizesFit(fn) && s < e <= |fn.insts| && DepthsFit(t, e - s) && fn.insts[s].JumpIfFalse?
      && EmitBranch(fn, t, s, e, ks).Next?
    ensures AllEncodable(EmitBranch(fn, t, s, e, ks).code)
    decreases e - s, 2
  {
    hide EmitRange, EmitBranch, EmitAnd, EmitOr, AllEncodable;
    BranchParts(fn, t, s, e, ks);
    NothingFits();
    var ft, ks' := fn.insts[s].dest, ks[..|ks| - 1];
    if OrShape(fn, s, e).Some? {
      OrFits(fn, t, s + 3, OrShape(fn, s, e).value.mergeTarget, ks');
    } else if AndShape(fn, s, e).Some? {
      AndFits(fn, t, s + 1, ft, ks');
    } else {
      match ShapeOfBranch(fn, t, ft, e)
      case OnlyThen =>
        RangeFits(fn, Nest(t), s + 1, ft, ks');
        ArmsFit(EmitRange(fn, Nest(t), s + 1, ft, ks').code, [], None);
      case ThenElse(merge) =>
        var thn := EmitRange(fn, Nest(t), s + 1, ft - 1, ks');
        RangeFits(fn, Nest(t), s + 1, ft - 1, ks');
        RangeFits(fn, Nest(t), ft, merge, thn.stack);
        ArmsFit(thn.code, EmitRange(fn, Nest(t), ft, merge, thn.stack).code, None);
    }
  }

  lemma {:induction false} AndFits(fn: Mir.Function, t: Targets, start: nat, ft: nat, ks: Kinds)
    requires SizesFit(fn) && ft <= |fn.insts| && DepthsFit(t, Size(start, ft)) && EmitAnd(fn, t, start, ft, ks).Ok?
    ensures AllEncodable(EmitAnd(fn, t, start, ft, ks).code)
    decreases Size(start, ft), 6
  {
    hide EmitRange, EmitAnd, EmitAndTail;
    AndParts(fn, t, start, ft, ks);
    AndTailFits(fn, t, start, ft, ks);
    ArmsFit(EmitAndTail(fn, t, start, ft, ks).code, [I32Const(0)], Some(TI32));
  }

  lemma {:induction false} AndTailFits(fn: Mir.Function, t: Targets, start: nat, ft: nat, ks: Kinds)
    requires SizesFit(fn) && ft <= |fn.insts| && DepthsFit(t, Size(start, ft)) && EmitAndTail(fn, t, start, ft, ks).Ok?
    ensures AllEncodable(EmitAndTail(fn, t, start, ft, ks).code)
    decreases Size(start, ft), 5
  {
    hide EmitRange, EmitAnd, EmitAndTail;
    AndTailParts(fn, t, start, ft, ks);
    if !IsAndEnd(fn, start, ft) {
      var b := FindAndOperand(fn, start, ft).value;
      var c := EmitRange(fn, t, start, b, ks);
      RangeFits(fn, t, start, b, ks);
      AndFits(fn, t, b + 1, ft, c.stack[..|c.stack| - 1]);
      Together(c.code, EmitAnd(fn, t, b + 1, ft, c.stack[..|c.stack| - 1]).code);
    }
  }

  lemma {:induction false} OrFits(fn: Mir.Function, t: Targets, start: nat, merge: nat, ks: Kinds)
    requires SizesFit(fn) && merge <= |fn.insts| && DepthsFit(t, Size(start, merge))
      && EmitOr(fn, t, start, merge, ks).Ok?
    ensures AllEncodable(EmitOr(fn, t, start, merge, ks).code)
    decreases Size(start, merge), 6
  {
    hide EmitRange, EmitOr, EmitOrRange;
    OrParts(fn, t, start, merge, ks);
    OrRangeFits(fn, t, start, merge, ks);
    ArmsFit([I32Const(1)], EmitOrRange(fn, t, start, merge, ks).code, Some(TI32));
  }

  lemma {:induction false} OrRangeFits(fn: Mir.Function, t: Targets, start: nat, merge: nat, ks: Kinds)
    requires SizesFit(fn) && merge <= |fn.insts| && DepthsFit(t, Size(start, merge))
      && EmitOrRange(fn, t, start, merge, ks).Ok?
    ensures AllEncodable(EmitOrRange(fn, t, start, merge, ks).code)
    decreases Size(start, merge), 5
  {
    hide EmitRange, EmitOr;
    if !IsOrEnd(fn, start, merge) {
      OrRangeParts(fn, t, start, merge, ks);
      var b := FindOrOperand(fn, start, merge).value;
      var c := EmitRange(fn, t, start, b, ks);
      RangeFits(fn, t, start, b, ks);
      OrFits(fn, t, b + 3, merge, c.stack[..|c.stack| - 1]);
      Together(c.code, EmitOr(fn, t, b + 3, merge, c.stack[..|c.stack| - 1]).code);
    }
  }
}
