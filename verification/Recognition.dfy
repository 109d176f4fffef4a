/**
 * When the pieces of emission succeed: an instruction that has operand kinds after it is emitted exactly if
 * it keeps the emitter's limits, and a loop is recognised exactly if the jumps around its header say so.
 */
module Recognition {
  import Mir
  import opened Words
  import opened StackMap
  import opened Emitter
  import opened Tracking

  // ---- limits ---------------------------------------------------------------------------------

  predicate Pushes(fn: Mir.Function, inst: Mir.Inst) {
    match inst
    case LocalStore(_) => false
    case LocalZero(_) => false
    case Drop => false
    case Assert => false
    case CallFn(f, _) => f < |fn.sigs| && fn.sigs[f].result.Some?
    case _ => !Mir.IsControl(inst)
  }

  /** How many 32-bit scratch locals the arguments of a call take: one for an integer, two for a string. */
  function Words32(params: Kinds): nat {
    if params == [] then 0
    else
      var k := params[|params| - 1];
      Words32(params[..|params| - 1]) + (match k case KI32 => 1 case KI64 => 0 case KStr => 2)
  }

  function Words64(params: Kinds): nat {
    if params == [] then 0
    else Words64(params[..|params| - 1]) + (if params[|params| - 1] == Mir.KI64 then 1 else 0)
  }

  /** At most 256 operands, 32 arguments of a call, 64 and 32 words of scratch for them; a slot for every
      local that is used, if locals live in a frame. */
  predicate Within(fn: Mir.Function, inst: Mir.Inst, ks: Kinds) {
    && (Pushes(fn, inst) ==> |ks| - Pops(inst, |ks|) < 256)
    && (inst.LocalLoad? || inst.LocalStore? || inst.LocalZero? ==>
          fn.frame.None? || inst.slot < |fn.frame.value.offsets|)
    && (inst.CallFn? && inst.callee < |fn.sigs| ==>
          inst.argc <= 32 && Words32(fn.sigs[inst.callee].params) <= 64 && Words64(fn.sigs[inst.callee].params) <= 32)
  }

  lemma {:induction false} ArgsPlanned(fn: Mir.Function, params: Kinds, actual: Kinds, n32: nat, n64: nat)
    requires ArgKindsOk(actual, params) && n32 <= 64 && n64 <= 32
    ensures PlanArgs(fn, params, actual, n32, n64).Plan? <==> n32 + Words32(params) <= 64 && n64 + Words64(params) <= 32
    decreases |params|
  {
    hide Adapt, WriteLocal;
    if params != [] {
      var n := |params|;
      var k := params[n - 1];
      assert Mir.Coercible(actual[n - 1], k);
      if HomeFor(fn, k, n32, n64).Some? {
        assert ArgKindsOk(actual[..n - 1], params[..n - 1]);
        ArgsPlanned(fn, params[..n - 1], actual[..n - 1], n32 + Cells32(k), n64 + Cells64(k));
      }
    }
  }

  lemma CallEmitted(fn: Mir.Function, f: nat, argc: nat, ks: Kinds)
    requires KindsAfter(fn, Mir.CallFn(f, argc), ks).Some?
    ensures EmitCall(fn, f, argc, ks).Ok? <==> Within(fn, Mir.CallFn(f, argc), ks)
  {
    hide PlanArgs, Words32, Words64, ReloadArgs;
    ArgsPlanned(fn, fn.sigs[f].params, ks[|ks| - argc..], 0, 0);
  }

  lemma UnaryEmitted(tok: Mir.Token, k: Mir.Kind, rest: Kinds)
    requires UnaryKind(tok, k).Some?
    ensures EmitUnary(tok, k, rest).Ok? <==> |rest| < 256
  {
  }

  lemma BinaryEmitted(fn: Mir.Function, tok: Mir.Token, a: Mir.Kind, b: Mir.Kind, rest: Kinds)
    requires BinaryKind(tok, a, b).Some?
    ensures EmitBinary(tok, a, b, rest).Ok? <==> |rest| < 256
    ensures EmitFramedBinary(fn, tok, a, b, rest) == EmitBinary(tok, a, b, rest)
  {
  }

  lemma SimpleEmitted(fn: Mir.Function, inst: Mir.Inst, ks: Kinds)
    requires KindsAfter(fn, inst, ks).Some? && fn.frame.None?
    ensures EmitSimple(fn, inst, ks).Ok? <==> Within(fn, inst, ks)
  {
    hide EmitCall, EmitUnary, EmitBinary, UnaryKind, BinaryKind, Words32, Words64, LocalIndex, ArgKindsOk;
    var n := |ks|;
    match inst
    case CallFn(f, argc) => CallEmitted(fn, f, argc, ks);
    case Unary(tok) => UnaryEmitted(tok, ks[n - 1], ks[..n - 1]);
    case Binary(tok) => BinaryEmitted(fn, tok, ks[n - 2], ks[n - 1], ks[..n - 2]);
    case _ =>
  }

  lemma FramedEmitted(fn: Mir.Function, inst: Mir.Inst, ks: Kinds)
    requires KindsAfter(fn, inst, ks).Some? && fn.frame.Some?
    ensures EmitFramed(fn, inst, ks).Ok? <==> Within(fn, inst, ks)
  {
    hide EmitCall, EmitUnary, EmitBinary, EmitFramedBinary, UnaryKind, BinaryKind, Words32, Words64, LocalIndex,
      ArgKindsOk, LoadFrame, StoreFrame, ZeroFrame, Adapt;
    var n := |ks|;
    match inst
    case CallFn(f, argc) => CallEmitted(fn, f, argc, ks);
    case Unary(tok) => UnaryEmitted(tok, ks[n - 1], ks[..n - 1]);
    case Binary(tok) => BinaryEmitted(fn, tok, ks[n - 2], ks[n - 1], ks[..n - 2]);
    case _ =>
  }

  /** An instruction that has operand kinds after it is emitted if and only if it keeps the limits. */
  lemma FallEmitted(fn: Mir.Function, inst: Mir.Inst, ks: Kinds)
    requires KindsAfter(fn, inst, ks).Some?
    ensures EmitFall(fn, inst, ks).Ok? <==> Within(fn, inst, ks)
    ensures Within(fn, inst, ks) ==> EmitFall(fn, inst, ks).stack == KindsAfter(fn, inst, ks).value
  {
    hide EmitSimple, EmitFramed, KindsAfter, Within;
    if fn.frame.None? {
      SimpleEmitted(fn, inst, ks);
    } else {
      FramedEmitted(fn, inst, ks);
    }
    if Within(fn, inst, ks) {
      FallTracks(fn, inst, ks);
    }
  }

  // ---- loops ----------------------------------------------------------------------------------

  predicate ContinuesAt(t: Targets, pc: nat) {
    t.continue_.Some? && t.continue_.value.pc == pc
  }

  /** A conditional jump over at least two instructions, the last of which jumps to `h`. */
  predicate LeavesLoop(fn: Mir.Function, h: nat, e: nat, pc: nat) {
    && pc < e <= |fn.insts| && fn.insts[pc].JumpIfFalse?
    && pc + 2 < fn.insts[pc].dest <= e && fn.insts[fn.insts[pc].dest - 1] == Mir.Jump(h)
  }

  /** No jump leaves [h, b] but to b + 1, and none goes back but to h. */
  predicate StaysInLoop(fn: Mir.Function, h: nat, b: nat, pc: nat)
    requires pc < |fn.insts|
  {
    match fn.insts[pc]
    case Jump(x) => x == h || pc < x <= b + 1
    case JumpIfFalse(x) => pc < x <= b + 1
    case _ => true
  }

  predicate ClosedLoop(fn: Mir.Function, h: nat, b: nat) {
    && h < b < |fn.insts| && fn.insts[b] == Mir.Jump(h)
    && forall pc :: h <= pc < b ==> StaysInLoop(fn, h, b, pc)
  }

  lemma {:induction false} FirstExit(fn: Mir.Function, h: nat, e: nat, pc: nat)
    requires e <= |fn.insts|
    ensures var r := FindLoopFrom(fn, h, e, pc);
      && (r.None? ==> forall j :: pc <= j < e ==> !LeavesLoop(fn, h, e, j))
      && (r.Some? ==> pc <= r.value.cond && LeavesLoop(fn, h, e, r.value.cond)
                      && forall j :: pc <= j < r.value.cond ==> !LeavesLoop(fn, h, e, j))
    decreases e - pc
  {
    if pc < e && !IsLoopBranch(fn, h, e, pc) {
      FirstExit(fn, h, e, pc + 1);
    }
  }

  lemma {:induction false} BodyJumps(fn: Mir.Function, h: nat, b: nat, pc: nat)
    requires b <= |fn.insts|
    ensures BodyJumpsOk(fn, h, b, pc) <==> forall j :: pc <= j < b ==> StaysInLoop(fn, h, b, j)
    decreases b - pc
  {
    if pc < b {
      assert BodyJumpOk(fn, h, b, pc) == StaysInLoop(fn, h, b, pc);
      BodyJumps(fn, h, b, pc + 1);
    }
  }

  lemma {:induction false} LastBackedge(fn: Mir.Function, h: nat, e: nat)
    requires e <= |fn.insts|
    ensures var r := FindBackedge(fn, h, e);
      && (r.None? ==> forall b :: h < b < e ==> !ClosedLoop(fn, h, b))
      && (r.Some? ==> ClosedLoop(fn, h, r.value) && r.value < e
                      && forall b :: r.value < b < e ==> !ClosedLoop(fn, h, b))
    decreases e
  {
    hide BodyJumpsOk, StaysInLoop;
    if e > h + 1 {
      BodyJumps(fn, h, e - 1, h);
      if !(fn.insts[e - 1] == Mir.Jump(h) && BodyJumpsOk(fn, h, e - 1, h)) {
        LastBackedge(fn, h, e - 1);
      }
    }
  }

  /** What is recognised at `h`: a loop with a condition if some conditional jump leaves it, at the first such
      jump; otherwise an endless loop if some jump back closes one, at the last such jump. Nothing is
      recognised where `continue` goes, since the loop there has been entered already. */
  lemma KindExactly(fn: Mir.Function, t: Targets, h: nat, e: nat)
    requires h < e <= |fn.insts|
    ensures KindAt(fn, t, h, e).AWhile? <==> !ContinuesAt(t, h) && exists pc :: h <= pc < e && LeavesLoop(fn, h, e, pc)
    ensures KindAt(fn, t, h, e).AWhile? ==>
      var r := KindAt(fn, t, h, e).region;
      && h <= r.cond && LeavesLoop(fn, h, e, r.cond) && r.exit == fn.insts[r.cond].dest
      && forall pc :: h <= pc < r.cond ==> !LeavesLoop(fn, h, e, pc)
    ensures KindAt(fn, t, h, e).AForever? <==>
      && !ContinuesAt(t, h) && (forall pc :: h <= pc < e ==> !LeavesLoop(fn, h, e, pc))
      && exists b :: h < b < e && ClosedLoop(fn, h, b)
    ensures KindAt(fn, t, h, e).AForever? ==>
      var b := KindAt(fn, t, h, e).backedge;
      h < b < e && ClosedLoop(fn, h, b) && forall c :: b < c < e ==> !ClosedLoop(fn, h, c)
  {
    hide FindLoopFrom, FindBackedge, LeavesLoop, ClosedLoop;
    FirstExit(fn, h, e, h);
    LastBackedge(fn, h, e);
    ExitOfFound(fn, h, e, h);
  }

  lemma {:induction false} ExitOfFound(fn: Mir.Function, h: nat, e: nat, pc: nat)
    requires e <= |fn.insts|
    ensures var r := FindLoopFrom(fn, h, e, pc);
      r.Some? ==> r.value.cond < |fn.insts| && fn.insts[r.value.cond].JumpIfFalse?
                  && r.value.exit == fn.insts[r.value.cond].dest
    decreases e - pc
  {
    if pc < e && !IsLoopBranch(fn, h, e, pc) {
      ExitOfFound(fn, h, e, pc + 1);
    }
  }

  /** An endless loop that is left by jumps to its exit is recognised, at the jump that closes it. */
  lemma EndlessRecognised(fn: Mir.Function, t: Targets, h: nat, b: nat, e: nat)
    requires h < b < e <= |fn.insts| && fn.insts[b] == Mir.Jump(h) && !ContinuesAt(t, h)
    requires forall pc :: h <= pc < e ==> !LeavesLoop(fn, h, e, pc)
    requires forall pc :: h <= pc < b ==> StaysInLoop(fn, h, b, pc)
    requires forall pc :: b < pc < e ==> fn.insts[pc] != Mir.Jump(h)
    ensures KindAt(fn, t, h, e) == AForever(b)
  {
    hide KindAt, LeavesLoop, StaysInLoop;
    KindExactly(fn, t, h, e);
    assert ClosedLoop(fn, h, b);
  }
}
