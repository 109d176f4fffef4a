/**
 * The structuring pass as the backend runs it: one loop over program counters per range, and
 * ranges within ranges for the bodies of loops, the arms of conditionals and boolean operands.
 */
module RangeMethods {
  import opened Words
  import Mir
  import opened StackMap
  import opened Wasm
  import opened Emitter
  import opened Binary
  import opened Buffers
  import opened Leb
  import opened EmitterMethods

  /** Branch depths stay in the 32-bit range for `n` more levels of nesting. */
  predicate DepthsFit(t: Targets, n: nat) {
    (t.continue_.Some? ==> t.continue_.value.depth + n < TWO32) && (t.break_.Some? ==> t.break_.value.depth + n < TWO32)
  }

  function Size(s: nat, e: nat): nat {
    if s < e then e - s else 0
  }

  // ---- leaves ---------------------------------------------------------------------------------

  method EmitSimpleInst(fn: Mir.Function, inst: Mir.Inst, body: Buffer, state: EmitState) returns (status: Status)
    requires body.Valid() && state.Valid() && state.For(fn)
    requires fn.frame.None? || !(inst.LocalLoad? || inst.LocalStore? || inst.LocalZero?)
    modifies body, body.data, state, state.kinds
    ensures body.Valid() && state.Valid() && (body.data == old(body.data) || fresh(body.data))
    ensures Wrote(old(body.Contents()), body.Limit(), body.Contents(), state.Stack(), status,
      EmitSimple(fn, inst, old(state.Stack())))
  {
    hide EncodeAll, EmitUnary, EmitBinary, EmitCall;
    match inst
    case PushInt(bits) => status := EmitAndPush(body, state, [I32Const(Wrap32(bits))], Mir.KI32);
    case PushBool(b) => status := EmitAndPush(body, state, [I32Const(if b then 1 else 0)], Mir.KI32);
    case PushNull => status := EmitAndPush(body, state, [I32Const(0)], Mir.KI32);
    case PushString(p, l) => status := EmitAndPush(body, state, [I32Const(p), I32Const(l)], Mir.KStr);
    case Unary(tok) => status := EmitUnaryInst(tok, body, state);
    case Binary(tok) => status := EmitBinaryInst(tok, body, state);
    case Cast(k) => status := EmitCastInst(k, body, state);
    case LocalLoad(_) => status := EmitLocalInst(fn, inst, body, state);
    case LocalStore(_) => status := EmitLocalInst(fn, inst, body, state);
    case LocalZero(_) => status := EmitLocalInst(fn, inst, body, state);
    case Drop => status := EmitDropInst(body, state);
    case Assert => status := EmitAssertInst(body, state);
    case CallFn(f, argc) => status := EmitCallInst(fn, f, argc, body, state);
    case _ => status := Refused(UnsupportedOperator);
  }

  method EmitFallInst(fn: Mir.Function, inst: Mir.Inst, body: Buffer, state: EmitState) returns (status: Status)
    requires body.Valid() && state.Valid() && state.For(fn)
    modifies body, body.data, state, state.kinds
    ensures body.Valid() && state.Valid() && (body.data == old(body.data) || fresh(body.data))
    ensures Wrote(old(body.Contents()), body.Limit(), body.Contents(), state.Stack(), status,
      EmitFall(fn, inst, old(state.Stack())))
  {
    hide EncodeAll, EmitSimple, LoadFrame, StoreFrame, ZeroFrame, EmitFramedBinary;
    if fn.frame.None? {
      status := EmitSimpleInst(fn, inst, body, state);
    } else if inst.LocalLoad? || inst.LocalStore? || inst.LocalZero? {
      status := EmitFrameLocalInst(fn, inst, body, state);
    } else if inst.Binary? {
      status := EmitFrameBinaryInst(fn, inst.tok, body, state);
    } else {
      status := EmitSimpleInst(fn, inst, body, state);
    }
  }

  lemma LeaveFits(fn: Mir.Function, k: Option<Mir.Kind>)
    requires SizesFit(fn) && FrameBase(fn) <= 2 * MAX_LOCALS
    ensures AllEncodable(Leave(fn, k)) && Plain(Leave(fn, k))
  {
    hide FrameBase;
  }

  method EmitReturnInst(fn: Mir.Function, body: Buffer, state: EmitState) returns (status: Status)
    requires body.Valid() && state.Valid() && state.For(fn)
    modifies body, body.data, state, state.kinds
    ensures body.Valid() && state.Valid() && (body.data == old(body.data) || fresh(body.data))
    ensures Wrote(old(body.Contents()), body.Limit(), body.Contents(), state.Stack(), status,
      EmitReturn(fn, old(state.Stack())))
  {
    hide EncodeAll, Leave, AllEncodable;
    if fn.result.None? {
      return Refused(ReturnMismatch);
    }
    var k := state.Pop();
    if k.None? {
      return Refused(OperandMismatch);
    }
    if !Mir.Coercible(k.value, fn.result.value) {
      return Refused(ReturnMismatch);
    }
    LeaveFits(fn, fn.result);
    WidenFits(k.value, fn.result.value, Leave(fn, fn.result));
    status := EmitOnly(body, state, Adapt(k.value, fn.result.value) + Leave(fn, fn.result));
  }

  method EmitLeafInst(fn: Mir.Function, t: Targets, inst: Mir.Inst, body: Buffer, state: EmitState)
      returns (status: Status)
    requires body.Valid() && state.Valid() && state.For(fn) && DepthsFit(t, 0)
    modifies body, body.data, state, state.kinds
    ensures body.Valid() && state.Valid() && (body.data == old(body.data) || fresh(body.data))
    ensures Wrote(old(body.Contents()), body.Limit(), body.Contents(), state.Stack(), status,
      EmitLeaf(fn, t, inst, old(state.Stack())))
  {
    hide EncodeAll, EmitFall, EmitReturn, Leave;
    LeaveFits(fn, None);
    match inst
    case Jump(dest) =>
      var depth := DepthForJump(t, dest);
      if depth.Some? {
        status := EmitOnly(body, state, [Br(depth.value)]);
      } else {
        status := Refused(UnstructuredJump);
      }
    case Return => status := EmitReturnInst(fn, body, state);
    case ReturnVoid => status := EmitOnly(body, state, if fn.result.Some? then [Unreachable] else Leave(fn, None));
    case _ => status := EmitFallInst(fn, inst, body, state);
  }

  // ---- ranges ---------------------------------------------------------------------------------

  function AsEmitted(c: Construct): Emitted {
    match c
    case Next(code, stack, _) => Ok(code, stack)
    case Fail(e) => Err(e)
  }

  /** The whole of a range, from the code emitted so far and the rest of it. */
  function Continue(code: seq<Instr>, rest: Emitted): Emitted {
    match rest
    case Ok(more, stack) => Ok(code + more, stack)
    case Err(e) => Err(e)
  }

  lemma ContinueStep(fn: Mir.Function, t: Targets, pc: nat, e: nat, ks: Kinds, code: seq<Instr>)
    requires pc < e <= |fn.insts|
    ensures var c := EmitConstruct(fn, t, pc, e, ks);
      Continue(code, EmitRange(fn, t, pc, e, ks))
      == match c
         case Fail(err) => Err(err)
         case Next(more, stack, next) => Continue(code + more, EmitRange(fn, t, next, e, stack))
  {
    hide EmitConstruct;
    var c := EmitConstruct(fn, t, pc, e, ks);
    if c.Next? {
      var rest := EmitRange(fn, t, c.pc, e, c.stack);
      if rest.Ok? {
        assert code + (c.code + rest.code) == (code + c.code) + rest.code;
      }
    }
  }

  lemma NothingEmitted(r: Emitted)
    ensures Continue([], r) == r && EncodeAll([]) == []
  {
    if r.Ok? {
      assert [] + r.code == r.code;
    }
  }

  lemma WholeTooLarge(before: seq<Byte>, limit: nat, code: seq<Instr>, more: seq<Instr>, rest: Emitted)
    requires |before + EncodeAll(code)| + |EncodeAll(more)| > limit
    ensures var r := Continue(code + more, rest); r.Ok? ==> |before| + |EncodeAll(r.code)| > limit
  {
    var r := Continue(code + more, rest);
    EncodeConcat(code, more);
    if r.Ok? {
      EncodeConcat(code + more, rest.code);
    }
  }

  method EmitFunctionRange(fn: Mir.Function, t: Targets, s: nat, e: nat, body: Buffer, state: EmitState)
      returns (status: Status)
    requires body.Valid() && state.Valid() && state.For(fn) && e <= |fn.insts| && DepthsFit(t, Size(s, e))
    modifies body, body.data, state, state.kinds
    ensures body.Valid() && state.Valid() && (body.data == old(body.data) || fresh(body.data))
    ensures Wrote(old(body.Contents()), body.Limit(), body.Contents(), state.Stack(), status,
      EmitRange(fn, t, s, e, old(state.Stack())))
    ensures var r := EmitRange(fn, t, s, e, old(state.Stack()));
      r.Ok? && |old(body.Contents())| + |EncodeAll(r.code)| > body.Ceiling() ==> status.TooLarge?
    decreases Size(s, e), 4
  {
    hide EncodeAll, EmitConstruct;
    ghost var before, ks := body.Contents(), state.Stack();
    ghost var code: seq<Instr> := [];
    var pc, stepCount := s, 0;
    var maxSteps := 8 * (if e > s then e - s else 1) + 32;
    NothingEmitted(EmitRange(fn, t, s, e, ks));
    while pc < e
      invariant s <= pc && (pc <= e || pc == s) && 0 <= stepCount <= pc - s
      invariant body.Valid() && state.Valid() && (body.data == old(body.data) || fresh(body.data))
      invariant body.Contents() == before + EncodeAll(code)
      invariant EmitRange(fn, t, s, e, ks) == Continue(code, EmitRange(fn, t, pc, e, state.Stack()))
      decreases e - pc
    {
      stepCount := stepCount + 1;
      if stepCount > maxSteps {
        // the progress limit is never reached
        assert false;
      }
      ghost var c := EmitConstruct(fn, t, pc, e, state.Stack());
      ContinueStep(fn, t, pc, e, state.Stack(), code);
      var next;
      status, next := EmitOne(fn, t, pc, e, body, state);
      match status
      case Refused(_) => return;
      case TooLarge =>
        if c.Next? {
          WholeTooLarge(before, body.Limit(), code, c.code, EmitRange(fn, t, c.pc, e, c.stack));
        }
        return;
      case Done =>
        EncodeStep(before, code, c.code);
        code := code + c.code;
        pc := next;
    }
    status := Done;
    assert EmitRange(fn, t, pc, e, state.Stack()) == Ok([], state.Stack());
    assert code + [] == code;
  }

  /** The construct that starts at `pc`, and where the next one starts. */
  method EmitOne(fn: Mir.Function, t: Targets, pc: nat, e: nat, body: Buffer, state: EmitState)
      returns (status: Status, next: nat)
    requires body.Valid() && state.Valid() && state.For(fn) && pc < e <= |fn.insts| && DepthsFit(t, e - pc)
    modifies body, body.data, state, state.kinds
    ensures body.Valid() && state.Valid() && (body.data == old(body.data) || fresh(body.data))
    ensures var c := EmitConstruct(fn, t, pc, e, old(state.Stack()));
      Wrote(old(body.Contents()), body.Limit(), body.Contents(), state.Stack(), status, AsEmitted(c))
        && (status.Done? ==> next == c.pc)
    decreases e - pc, 3
  {
    hide EncodeAll, EmitRange, EmitWhile, EmitForever, EmitBranch, EmitLeaf, KindAt, FindLoop;
    var kind := RecogniseConstruct(fn, t, pc, e);
    match kind
    case AWhile(region) =>
      status := EmitWhileLoop(fn, region, pc, e, body, state);
      next := region.exit;
    case AForever(backedge) =>
      status := EmitForeverLoop(fn, pc, backedge, e, body, state);
      next := backedge + 1;
    case ABranch =>
      status, next := EmitConditional(fn, t, pc, e, body, state);
    case ALeaf =>
      status := EmitLeafInst(fn, t, fn.insts[pc], body, state);
      next := pc + 1;
  }

  // ---- loops ----------------------------------------------------------------------------------

  const LOOP_OPEN: seq<Byte> := [0x02, EMPTY, 0x03, EMPTY]
  const LOOP_TEST: seq<Byte> := [0x45, 0x0d, 0x01, 0x02, EMPTY]
  const LOOP_CLOSE: seq<Byte> := [0x0c, 0x00, END, END]

  lemma LoopBytes(pass: seq<Instr>)
    ensures EncodeAll([Block([Loop(pass + [Br(0)])])]) == LOOP_OPEN + EncodeAll(pass) + LOOP_CLOSE
  {
    hide EncodeAll;
    EncodeOne(Block([Loop(pass + [Br(0)])]));
    EncodeOne(Loop(pass + [Br(0)]));
    EncodeConcat(pass, [Br(0)]);
    EncodeOne(Br(0));
  }

  lemma TestBytes(body: seq<Instr>)
    ensures EncodeAll([Numeric(0x45), BrIf(1)] + [Block(body)]) == LOOP_TEST + EncodeAll(body) + [END]
  {
    hide EncodeAll;
    assert [Numeric(0x45), BrIf(1)] == [Numeric(0x45)] + [BrIf(1)];
    EncodeConcat([Numeric(0x45), BrIf(1)], [Block(body)]);
    EncodeConcat([Numeric(0x45)], [BrIf(1)]);
    EncodeOne(Numeric(0x45)); EncodeOne(BrIf(1)); EncodeOne(Block(body));
  }

  lemma WhileBytes(cond: seq<Instr>, body: seq<Instr>, tail: seq<Instr>)
    ensures EncodeAll(WhileCode(cond, body, tail))
      == LOOP_OPEN + EncodeAll(cond) + LOOP_TEST + EncodeAll(body) + [END] + EncodeAll(tail) + LOOP_CLOSE
  {
    hide EncodeAll;
    var test := [Numeric(0x45), BrIf(1)] + [Block(body)];
    LoopBytes(cond + test + tail);
    assert cond + [Numeric(0x45), BrIf(1)] + [Block(body)] + tail + [Br(0)] == cond + test + tail + [Br(0)];
    EncodeConcat(cond + test, tail);
    EncodeConcat(cond, test);
    TestBytes(body);
    Regroup(LOOP_OPEN, EncodeAll(cond), LOOP_TEST, EncodeAll(body), [END], EncodeAll(tail), LOOP_CLOSE);
  }

  lemma Regroup<T>(a: seq<T>, b: seq<T>, c: seq<T>, d: seq<T>, e: seq<T>, f: seq<T>, g: seq<T>)
    ensures a + (b + (c + d + e) + f) + g == a + b + c + d + e + f + g
  {
  }

  /** Appends fixed bytes; `out` is what was written after `before` so far. */
  method Put(body: Buffer, bs: seq<Byte>, ghost before: seq<Byte>, ghost out: seq<Byte>) returns (ok: bool)
    requires body.Valid() && body.Contents() == before + out
    modifies body, body.data
    ensures body.Valid() && (body.data == old(body.data) || fresh(body.data))
    ensures ok ==> body.Contents() == before + (out + bs)
    ensures !ok ==> |before| + |out + bs| > body.Limit()
  {
    ok := body.AppendBytes(bs);
    assert before + out + bs == before + (out + bs);
  }

  /** A range inside a construct; `out` as for `Put`. */
  ghost predicate WroteAfter(before: seq<Byte>, out: seq<Byte>, limit: nat, contents: seq<Byte>, stack: Kinds,
      status: Status, r: Emitted) {
    match status
    case Done => r.Ok? && contents == before + (out + EncodeAll(r.code)) && stack == r.stack
    case Refused(e) => r == Err(e)
    case TooLarge => r.Ok? ==> |before| + |out + EncodeAll(r.code)| > limit
  }

  method EmitInner(fn: Mir.Function, t: Targets, s: nat, e: nat, body: Buffer, state: EmitState,
      ghost before: seq<Byte>, ghost out: seq<Byte>)
    returns (status: Status)
    requires body.Valid() && state.Valid() && state.For(fn) && e <= |fn.insts| && DepthsFit(t, Size(s, e))
      && body.Contents() == before + out
    modifies body, body.data, state, state.kinds
    ensures body.Valid() && state.Valid() && (body.data == old(body.data) || fresh(body.data))
    ensures WroteAfter(before, out, body.Limit(), body.Contents(), state.Stack(), status,
      EmitRange(fn, t, s, e, old(state.Stack())))
    decreases Size(s, e), 5
  {
    hide EncodeAll, EmitRange;
    ghost var r := EmitRange(fn, t, s, e, state.Stack());
    status := EmitFunctionRange(fn, t, s, e, body, state);
    assert r.Ok? ==> before + out + EncodeAll(r.code) == before + (out + EncodeAll(r.code));
  }

  function HeadBytes(cond: seq<Instr>): seq<Byte> {
    LOOP_OPEN + EncodeAll(cond) + LOOP_TEST
  }

  /** The condition of a loop was emitted and popped, or was not fit to be one. */
  ghost predicate WroteHead(before: seq<Byte>, limit: nat, contents: seq<Byte>, depth: nat, stack: Kinds,
      status: Status, c: Emitted) {
    match status
    case Done => c.Ok? && c.stack == stack + [Mir.KI32] && |stack| == depth && contents == before + HeadBytes(c.code)
    case Refused(err) =>
      if c.Err? then err == c.error
      else if |c.stack| == 0 || c.stack[|c.stack| - 1] != Mir.KI32 then err == ConditionMismatch
      else |c.stack| - 1 != depth && err == LoopStackMismatch
    case TooLarge => c.Ok? ==> |before| + |HeadBytes(c.code)| > limit
  }

  method EmitLoopHead(fn: Mir.Function, r: Region, e: nat, body: Buffer, state: EmitState) returns (status: Status)
    requires body.Valid() && state.Valid() && state.For(fn) && e <= |fn.insts| && IsRegion(fn, r.header, e, r)
    modifies body, body.data, state, state.kinds
    ensures body.Valid() && state.Valid() && (body.data == old(body.data) || fresh(body.data))
    ensures WroteHead(old(body.Contents()), body.Limit(), body.Contents(), |old(state.Stack())|, state.Stack(), status,
                      EmitRange(fn, NO_TARGETS, r.header, r.cond, old(state.Stack())))
    decreases e - r.header, 1
  {
    hide EncodeAll, EmitRange;
    ghost var before := body.Contents();
    ghost var c := EmitRange(fn, NO_TARGETS, r.header, r.cond, state.Stack());
    var depth := state.stackLen;
    assert before == before + [] && [] + LOOP_OPEN == LOOP_OPEN;
    var ok := Put(body, LOOP_OPEN, before, []);
    if !ok {
      return TooLarge;
    }
    status := EmitInner(fn, NO_TARGETS, r.header, r.cond, body, state, before, LOOP_OPEN);
    if !status.Done? {
      return;
    }
    var k := state.Pop();
    if k.None? || k.value != Mir.KI32 {
      return Refused(ConditionMismatch);
    }
    if state.stackLen != depth {
      return Refused(LoopStackMismatch);
    }
    ok := Put(body, LOOP_TEST, before, LOOP_OPEN + EncodeAll(c.code));
    status := if ok then Done else TooLarge;
  }

  lemma WhileIs(fn: Mir.Function, r: Region, e: nat, ks: Kinds)
    requires e <= |fn.insts| && IsRegion(fn, r.header, e, r)
    ensures var c := EmitRange(fn, NO_TARGETS, r.header, r.cond, ks);
      EmitWhile(fn, r, e, ks)
      == if c.Err? then c
         else if |c.stack| == 0 || c.stack[|c.stack| - 1] != Mir.KI32 then Err(ConditionMismatch)
         else if |c.stack| - 1 != |ks| then Err(LoopStackMismatch)
         else WhileAfter(fn, r, |ks|, c.code, c.stack[..|ks|])
  {
    hide EmitRange;
  }

  /** An emitted loop from its condition's code on. */
  function WhileAfter(fn: Mir.Function, r: Region, depth: nat, cond: seq<Instr>, ks: Kinds): Emitted
    requires r.exit <= |fn.insts| && r.tail <= |fn.insts| && r.backedge <= |fn.insts|
  {
    var b := EmitRange(fn, BodyTargets(r), r.cond + 1, r.tail, ks);
    if b.Err? then b
    else if |b.stack| != depth then Err(LoopStackMismatch)
    else
      var tl := EmitRange(fn, LoopTargets(r.header, r.exit), r.tail, r.backedge, b.stack);
      if tl.Err? then tl
      else if |tl.stack| != depth then Err(LoopStackMismatch)
      else Ok(WhileCode(cond, b.code, tl.code), tl.stack)
  }

  lemma WhileAfterBytes(fn: Mir.Function, r: Region, depth: nat, cond: seq<Instr>, ks: Kinds)
    requires r.exit <= |fn.insts| && r.tail <= |fn.insts| && r.backedge <= |fn.insts|
      && WhileAfter(fn, r, depth, cond, ks).Ok?
    ensures var b := EmitRange(fn, BodyTargets(r), r.cond + 1, r.tail, ks);
      && b.Ok?
      && var tl := EmitRange(fn, LoopTargets(r.header, r.exit), r.tail, r.backedge, b.stack);
         && tl.Ok?
         && EncodeAll(WhileAfter(fn, r, depth, cond, ks).code)
           == HeadBytes(cond) + EncodeAll(b.code) + [END] + EncodeAll(tl.code) + LOOP_CLOSE
  {
    hide EmitRange, EncodeAll, WhileCode;
    var b := EmitRange(fn, BodyTargets(r), r.cond + 1, r.tail, ks);
    var tl := EmitRange(fn, LoopTargets(r.header, r.exit), r.tail, r.backedge, b.stack);
    WhileBytes(cond, b.code, tl.code);
  }

  /** The body and the tail of a loop, and the branch back. */
  method EmitLoopRest(fn: Mir.Function, r: Region, e: nat, depth: nat, body: Buffer, state: EmitState,
      ghost before: seq<Byte>, ghost cond: seq<Instr>)
    returns (status: Status)
    requires body.Valid() && state.Valid() && state.For(fn) && e <= |fn.insts| && IsRegion(fn, r.header, e, r)
    requires body.Contents() == before + HeadBytes(cond)
    modifies body, body.data, state, state.kinds
    ensures body.Valid() && state.Valid() && (body.data == old(body.data) || fresh(body.data))
    ensures Wrote(before, body.Limit(), body.Contents(), state.Stack(), status,
      WhileAfter(fn, r, depth, cond, old(state.Stack())))
    decreases e - r.header, 1
  {
    hide EncodeAll, EmitRange, HeadBytes, WhileCode;
    if WhileAfter(fn, r, depth, cond, state.Stack()).Ok? {
      WhileAfterBytes(fn, r, depth, cond, state.Stack());
    }
    ghost var out := HeadBytes(cond);
    ghost var b := EmitRange(fn, BodyTargets(r), r.cond + 1, r.tail, state.Stack());
    status := EmitInner(fn, BodyTargets(r), r.cond + 1, r.tail, body, state, before, out);
    if !status.Done? {
      return;
    }
    out := out + EncodeAll(b.code);
    if state.stackLen != depth {
      return Refused(LoopStackMismatch);
    }
    var ok := Put(body, [END], before, out);
    if !ok {
      return TooLarge;
    }
    out := out + [END];
    ghost var tl := EmitRange(fn, LoopTargets(r.header, r.exit), r.tail, r.backedge, state.Stack());
    status := EmitInner(fn, LoopTargets(r.header, r.exit), r.tail, r.backedge, body, state, before, out);
    if !status.Done? {
      return;
    }
    out := out + EncodeAll(tl.code);
    if state.stackLen != depth {
      return Refused(LoopStackMismatch);
    }
    ok := Put(body, LOOP_CLOSE, before, out);
    status := if ok then Done else TooLarge;
  }

  method EmitWhileLoop(fn: Mir.Function, r: Region, pc: nat, e: nat, body: Buffer, state: EmitState)
      returns (status: Status)
    requires body.Valid() && state.Valid() && state.For(fn) && e <= |fn.insts| && pc == r.header
      && IsRegion(fn, pc, e, r)
    modifies body, body.data, state, state.kinds
    ensures body.Valid() && state.Valid() && (body.data == old(body.data) || fresh(body.data))
    ensures Wrote(old(body.Contents()), body.Limit(), body.Contents(), state.Stack(), status,
      EmitWhile(fn, r, e, old(state.Stack())))
    decreases e - pc, 2
  {
    hide EncodeAll, EmitRange, EmitWhile, HeadBytes, WhileAfter;
    ghost var ks, before := state.Stack(), body.Contents();
    ghost var c := EmitRange(fn, NO_TARGETS, r.header, r.cond, ks);
    var depth := state.stackLen;
    WhileIs(fn, r, e, ks);
    if EmitWhile(fn, r, e, ks).Ok? {
      HeadShorter(fn, r, |ks|, c.code, c.stack[..|ks|]);
    }
    status := EmitLoopHead(fn, r, e, body, state);
    if status.Done? {
      status := EmitLoopRest(fn, r, e, depth, body, state, before, c.code);
    }
  }

  lemma HeadShorter(fn: Mir.Function, r: Region, depth: nat, cond: seq<Instr>, ks: Kinds)
    requires r.exit <= |fn.insts| && r.tail <= |fn.insts| && r.backedge <= |fn.insts|
      && WhileAfter(fn, r, depth, cond, ks).Ok?
    ensures |HeadBytes(cond)| <= |EncodeAll(WhileAfter(fn, r, depth, cond, ks).code)|
  {
    hide EncodeAll, EmitRange, HeadBytes, WhileAfter;
    WhileAfterBytes(fn, r, depth, cond, ks);
  }

  method EmitForeverLoop(fn: Mir.Function, header: nat, backedge: nat, e: nat, body: Buffer, state: EmitState)
      returns (status: Status)
    requires body.Valid() && state.Valid() && state.For(fn) && header < backedge < e <= |fn.insts|
    modifies body, body.data, state, state.kinds
    ensures body.Valid() && state.Valid() && (body.data == old(body.data) || fresh(body.data))
    ensures Wrote(old(body.Contents()), body.Limit(), body.Contents(), state.Stack(), status,
      EmitForever(fn, header, backedge, old(state.Stack())))
    decreases e - header, 2
  {
    hide EncodeAll, EmitRange;
    ghost var r := EmitRange(fn, LoopTargets(header, backedge + 1), header, backedge, state.Stack());
    ghost var before := body.Contents();
    if r.Ok? {
      LoopBytes(r.code);
    }
    var depth := state.stackLen;
    assert before == before + [];
    var ok := Put(body, LOOP_OPEN, before, []);
    if !ok {
      return TooLarge;
    }
    assert [] + LOOP_OPEN == LOOP_OPEN;
    status := EmitInner(fn, LoopTargets(header, backedge + 1), header, backedge, body, state, before, LOOP_OPEN);
    if !status.Done? {
      return;
    }
    if state.stackLen != depth {
      return Refused(LoopStackMismatch);
    }
    ok := Put(body, LOOP_CLOSE, before, LOOP_OPEN + EncodeAll(r.code));
    status := if ok then Done else TooLarge;
  }

  // ---- conditionals ---------------------------------------------------------------------------

  lemma IfBytes(thn: seq<Instr>, els: seq<Instr>)
    ensures EncodeAll([If(thn)]) == [0x04, EMPTY] + EncodeAll(thn) + [END]
    ensures EncodeAll([IfElse(None, thn, els)]) == [0x04, EMPTY] + EncodeAll(thn) + [ELSE] + EncodeAll(els) + [END]
    ensures EncodeAll([IfElse(Some(TI32), thn, els)]) == [0x04, 0x7f] + EncodeAll(thn) + [ELSE] + EncodeAll(els) + [END]
  {
    hide EncodeAll;
    EncodeOne(If(thn));
    EncodeOne(IfElse(None, thn, els));
    EncodeOne(IfElse(Some(TI32), thn, els));
  }

  method EmitIfOnly(fn: Mir.Function, t: Targets, pc: nat, ft: nat, body: Buffer, state: EmitState)
      returns (status: Status)
    requires body.Valid() && state.Valid() && state.For(fn) && pc + 1 < ft <= |fn.insts| && DepthsFit(t, ft - pc)
    modifies body, body.data, state, state.kinds
    ensures body.Valid() && state.Valid() && (body.data == old(body.data) || fresh(body.data))
    ensures Wrote(old(body.Contents()), body.Limit(), body.Contents(), state.Stack(), status,
      EmitIf(fn, t, pc, ft, old(state.Stack())))
    decreases ft - pc, 1
  {
    hide EncodeAll, EmitRange;
    ghost var before := body.Contents();
    ghost var thn := EmitRange(fn, Nest(t), pc + 1, ft, state.Stack());
    if thn.Ok? {
      IfBytes(thn.code, []);
    }
    var depth := state.stackLen;
    assert before == before + [] && [] + [0x04, EMPTY] == [0x04, EMPTY];
    var ok := Put(body, [0x04, EMPTY], before, []);
    if !ok {
      return TooLarge;
    }
    status := EmitInner(fn, Nest(t), pc + 1, ft, body, state, before, [0x04, EMPTY]);
    if !status.Done? {
      return;
    }
    if state.stackLen != depth {
      return Refused(BranchStackMismatch);
    }
    ok := Put(body, [END], before, [0x04, EMPTY] + EncodeAll(thn.code));
    status := if ok then Done else TooLarge;
  }

  method EmitIfThenElse(fn: Mir.Function, t: Targets, pc: nat, ft: nat, merge: nat, body: Buffer, state: EmitState)
      returns (status: Status)
    requires body.Valid() && state.Valid() && state.For(fn) && pc + 1 < ft < merge <= |fn.insts|
      && DepthsFit(t, merge - pc)
    modifies body, body.data, state, state.kinds
    ensures body.Valid() && state.Valid() && (body.data == old(body.data) || fresh(body.data))
    ensures Wrote(old(body.Contents()), body.Limit(), body.Contents(), state.Stack(), status,
      EmitIfElse(fn, t, pc, ft, merge, old(state.Stack())))
    decreases merge - pc, 1
  {
    hide EncodeAll, EmitRange;
    ghost var before := body.Contents();
    ghost var thn := EmitRange(fn, Nest(t), pc + 1, ft - 1, state.Stack());
    ghost var els := if thn.Ok? then EmitRange(fn, Nest(t), ft, merge, thn.stack) else thn;
    if thn.Ok? && els.Ok? {
      IfBytes(thn.code, els.code);
    }
    var depth := state.stackLen;
    assert before == before + [] && [] + [0x04, EMPTY] == [0x04, EMPTY];
    var ok := Put(body, [0x04, EMPTY], before, []);
    if !ok {
      return TooLarge;
    }
    status := EmitInner(fn, Nest(t), pc + 1, ft - 1, body, state, before, [0x04, EMPTY]);
    if !status.Done? {
      return;
    }
    if state.stackLen != depth {
      return Refused(BranchStackMismatch);
    }
    ghost var out := [0x04, EMPTY] + EncodeAll(thn.code);
    ok := Put(body, [ELSE], before, out);
    if !ok {
      return TooLarge;
    }
    out := out + [ELSE];
    status := EmitInner(fn, Nest(t), ft, merge, body, state, before, out);
    if !status.Done? {
      return;
    }
    if state.stackLen != depth {
      return Refused(BranchStackMismatch);
    }
    ok := Put(body, [END], before, out + EncodeAll(els.code));
    status := if ok then Done else TooLarge;
  }

  method EmitConditional(fn: Mir.Function, t: Targets, pc: nat, e: nat, body: Buffer, state: EmitState)
      returns (status: Status, next: nat)
    requires body.Valid() && state.Valid() && state.For(fn) && pc < e <= |fn.insts| && DepthsFit(t, e - pc)
      && fn.insts[pc].JumpIfFalse?
    modifies body, body.data, state, state.kinds
    ensures body.Valid() && state.Valid() && (body.data == old(body.data) || fresh(body.data))
    ensures var c := EmitBranch(fn, t, pc, e, old(state.Stack()));
      Wrote(old(body.Contents()), body.Limit(), body.Contents(), state.Stack(), status, AsEmitted(c))
        && (status.Done? ==> next == c.pc)
    decreases e - pc, 2
  {
    hide EncodeAll, EmitRange, EmitIf, EmitIfElse, EmitOr, EmitAnd;
    next := pc;
    var ft := fn.insts[pc].dest;
    var or, and := OrShape(fn, pc, e), AndShape(fn, pc, e);
    if or.None? && and.None? && (ft <= pc + 1 || ft > e) {
      return Refused(ControlFlowShape), next;
    }
    var k := state.Pop();
    if k.None? || k.value != Mir.KI32 {
      return Refused(ConditionMismatch), next;
    }
    if or.Some? {
      next := or.value.mergeTarget;
      status := EmitOrIf(fn, t, or.value.falseTarget, next, body, state);
    } else if and.Some? {
      next := and.value.mergeTarget;
      if ft <= pc {
        return Refused(BooleanShape), next;
      }
      status := EmitAndIf(fn, t, pc + 1, ft, body, state);
    } else {
      match ShapeOfBranch(fn, t, ft, e)
      case BadShape => status := Refused(ControlFlowShape);
      case OnlyThen =>
        next := ft;
        status := EmitIfOnly(fn, t, pc, ft, body, state);
      case ThenElse(merge) =>
        next := merge;
        status := EmitIfThenElse(fn, t, pc, ft, merge, body, state);
    }
  }

  // ---- boolean expressions --------------------------------------------------------------------

  const BOOL_OPEN: seq<Byte> := [0x04, 0x7f]

  lemma Shift(before: seq<Byte>, out: seq<Byte>, limit: nat, contents: seq<Byte>, stack: Kinds, status: Status,
      r: Emitted)
    requires Wrote(before + out, limit, contents, stack, status, r)
    ensures WroteAfter(before, out, limit, contents, stack, status, r)
  {
    hide EncodeAll;
    if r.Ok? {
      assert before + out + EncodeAll(r.code) == before + (out + EncodeAll(r.code));
    }
  }

  /** Between the arms: the first must have pushed one i32, which is taken off again. */
  method EndFirstArm(depth: nat, body: Buffer, state: EmitState, ghost before: seq<Byte>, ghost out: seq<Byte>)
      returns (status: Status)
    requires body.Valid() && state.Valid() && body.Contents() == before + out
    modifies body, body.data, state
    ensures body.Valid() && state.Valid() && (body.data == old(body.data) || fresh(body.data))
    ensures match status
      case Done => ArmOk(old(state.Stack()), depth) && state.Stack() == old(state.Stack())[..depth]
        && body.Contents() == before + (out + [ELSE])
      case Refused(e) => !ArmOk(old(state.Stack()), depth) && e == BooleanStackMismatch
      case TooLarge => ArmOk(old(state.Stack()), depth) && |before| + |out + [ELSE]| > body.Limit()
  {
    if state.stackLen != depth + 1 || state.kinds[depth] != Mir.KI32 {
      return Refused(BooleanStackMismatch);
    }
    state.Truncate(depth);
    var ok := Put(body, [ELSE], before, out);
    status := if ok then Done else TooLarge;
  }

  method EndSecondArm(depth: nat, body: Buffer, state: EmitState, ghost before: seq<Byte>, ghost out: seq<Byte>)
      returns (status: Status)
    requires body.Valid() && state.Valid() && body.Contents() == before + out
    modifies body, body.data
    ensures body.Valid() && state.Valid() && (body.data == old(body.data) || fresh(body.data))
      && state.Stack() == old(state.Stack())
    ensures match status
      case Done => ArmOk(state.Stack(), depth) && body.Contents() == before + (out + [END])
      case Refused(e) => !ArmOk(state.Stack(), depth) && e == BooleanStackMismatch
      case TooLarge => ArmOk(state.Stack(), depth) && |before| + |out + [END]| > body.Limit()
  {
    if state.stackLen != depth + 1 || state.kinds[depth] != Mir.KI32 {
      return Refused(BooleanStackMismatch);
    }
    var ok := Put(body, [END], before, out);
    status := if ok then Done else TooLarge;
  }

  method EmitAndIf(fn: Mir.Function, t: Targets, start: nat, ft: nat, body: Buffer, state: EmitState)
      returns (status: Status)
    requires body.Valid() && state.Valid() && state.For(fn) && ft <= |fn.insts| && DepthsFit(t, Size(start, ft))
    modifies body, body.data, state, state.kinds
    ensures body.Valid() && state.Valid() && (body.data == old(body.data) || fresh(body.data))
    ensures Wrote(old(body.Contents()), body.Limit(), body.Contents(), state.Stack(), status,
      EmitAnd(fn, t, start, ft, old(state.Stack())))
    decreases Size(start, ft), 7
  {
    hide EncodeAll, EmitAndTail, BoolIf;
    ghost var before := body.Contents();
    ghost var thn := EmitAndTail(fn, t, start, ft, state.Stack());
    ghost var els := BoolConst(ElseStack(thn, |state.Stack()|), false);
    var depth := state.stackLen;
    IfTooLarge(before, body.Limit(), thn, els, depth);
    assert before == before + [] && [] + BOOL_OPEN == BOOL_OPEN;
    var ok := Put(body, BOOL_OPEN, before, []);
    if !ok {
      return TooLarge;
    }
    status := EmitAndRest(fn, t, start, ft, body, state);
    Shift(before, BOOL_OPEN, body.Limit(), body.Contents(), state.Stack(), status, thn);
    if status.Done? {
      status := EmitFalseArm(thn, depth, body, state, before);
    }
  }

  /** When a part of an `if` does not fit, the whole of it does not. */
  lemma IfTooLarge(before: seq<Byte>, limit: nat, thn: Emitted, els: Emitted, depth: nat)
    ensures var r := BoolIf(thn, els, depth);
      && (thn.Err? ==> r == thn)
      && (r.Ok? && |before| + |BOOL_OPEN| > limit ==> |before| + |EncodeAll(r.code)| > limit)
      && (r.Ok? && |before| + |BOOL_OPEN + EncodeAll(thn.code)| > limit ==> |before| + |EncodeAll(r.code)| > limit)
  {
    hide EncodeAll;
    if thn.Ok? && els.Ok? {
      IfBytes(thn.code, els.code);
    }
  }

  /** The arm of an `and` that was not reached, after the other arm was written. */
  method EmitFalseArm(ghost thn: Emitted, depth: nat, body: Buffer, state: EmitState, ghost before: seq<Byte>)
      returns (status: Status)
    requires body.Valid() && state.Valid() && thn.Ok? && state.Stack() == thn.stack
    requires body.Contents() == before + (BOOL_OPEN + EncodeAll(thn.code))
    modifies body, body.data, state, state.kinds
    ensures body.Valid() && state.Valid() && (body.data == old(body.data) || fresh(body.data))
    ensures Wrote(before, body.Limit(), body.Contents(), state.Stack(), status,
      BoolIf(thn, BoolConst(ElseStack(thn, depth), false), depth))
  {
    hide EncodeAll;
    ghost var els := BoolConst(ElseStack(thn, depth), false);
    if els.Ok? {
      IfBytes(thn.code, els.code);
    }
    ghost var out := BOOL_OPEN + EncodeAll(thn.code);
    status := EndFirstArm(depth, body, state, before, out);
    if !status.Done? {
      return;
    }
    out := out + [ELSE];
    status := EmitAndPush(body, state, [I32Const(0)], Mir.KI32);
    Shift(before, out, body.Limit(), body.Contents(), state.Stack(), status, els);
    if !status.Done? {
      return;
    }
    status := EndSecondArm(depth, body, state, before, out + EncodeAll(els.code));
  }

  /** Code after `code` that was already written. */
  lemma Follow(before: seq<Byte>, limit: nat, code: seq<Instr>, contents: seq<Byte>, stack: Kinds, status: Status,
      r: Emitted)
    requires Wrote(before + EncodeAll(code), limit, contents, stack, status, r)
    ensures Wrote(before, limit, contents, stack, status, Continue(code, r))
  {
    hide EncodeAll;
    if r.Ok? {
      EncodeStep(before, code, r.code);
    }
  }

  method FindJumpIfFalse(fn: Mir.Function, start: nat, end: nat, target: Option<nat>) returns (r: Option<nat>)
    requires end <= |fn.insts|
    ensures r == FindBranch(fn, start, end, target)
  {
    var pc := start;
    while pc < end
      invariant FindBranch(fn, pc, end, target) == FindBranch(fn, start, end, target)
    {
      if fn.insts[pc].JumpIfFalse? && (target.None? || fn.insts[pc].dest == target.value) {
        return Some(pc);
      }
      pc := pc + 1;
    }
    r := None;
  }

  /** A condition: a range that leaves one i32, which is popped. */
  method EmitOperand(fn: Mir.Function, t: Targets, start: nat, b: nat, body: Buffer, state: EmitState)
      returns (status: Status)
    requires body.Valid() && state.Valid() && state.For(fn) && b <= |fn.insts| && DepthsFit(t, Size(start, b))
    modifies body, body.data, state, state.kinds
    ensures body.Valid() && state.Valid() && (body.data == old(body.data) || fresh(body.data))
    ensures var c := EmitRange(fn, t, start, b, old(state.Stack()));
      match status
      case Done => c.Ok? && c.stack == state.Stack() + [Mir.KI32]
        && body.Contents() == old(body.Contents()) + EncodeAll(c.code)
      case Refused(e) => if c.Err? then e == c.error
        else (|c.stack| == 0 || c.stack[|c.stack| - 1] != Mir.KI32) && e == ConditionMismatch
      case TooLarge => c.Ok? ==> |old(body.Contents())| + |EncodeAll(c.code)| > body.Limit()
    decreases Size(start, b), 5
  {
    hide EncodeAll, EmitRange;
    status := EmitFunctionRange(fn, t, start, b, body, state);
    if !status.Done? {
      return;
    }
    var k := state.Pop();
    if k.None? || k.value != Mir.KI32 {
      status := Refused(ConditionMismatch);
    }
  }

  method EmitAndRest(fn: Mir.Function, t: Targets, start: nat, ft: nat, body: Buffer, state: EmitState)
      returns (status: Status)
    requires body.Valid() && state.Valid() && state.For(fn) && ft <= |fn.insts| && DepthsFit(t, Size(start, ft))
    modifies body, body.data, state, state.kinds
    ensures body.Valid() && state.Valid() && (body.data == old(body.data) || fresh(body.data))
    ensures Wrote(old(body.Contents()), body.Limit(), body.Contents(), state.Stack(), status,
      EmitAndTail(fn, t, start, ft, old(state.Stack())))
    decreases Size(start, ft), 6
  {
    hide EncodeAll, EmitRange, EmitAnd;
    if start + 2 == ft < |fn.insts| && fn.insts[start] == Mir.PushBool(true)
       && fn.insts[start + 1] == Mir.Jump(ft + 1) {
      status := EmitAndPush(body, state, [I32Const(1)], Mir.KI32);
      return;
    }
    var b := FindJumpIfFalse(fn, start, ft, Some(ft));
    if b.None? || b.value + 1 >= ft {
      return Refused(BooleanShape);
    }
    status := EmitAndNext(fn, t, start, b.value, ft, body, state);
  }

  lemma AndTailIs(fn: Mir.Function, t: Targets, start: nat, b: nat, ft: nat, ks: Kinds)
    requires ft <= |fn.insts| && !IsAndEnd(fn, start, ft) && FindAndOperand(fn, start, ft) == Some(b)
    ensures var c := EmitRange(fn, t, start, b, ks);
      EmitAndTail(fn, t, start, ft, ks)
      == if c.Err? then c
         else if |c.stack| == 0 || c.stack[|c.stack| - 1] != Mir.KI32 then Err(ConditionMismatch)
         else Continue(c.code, EmitAnd(fn, t, b + 1, ft, c.stack[..|c.stack| - 1]))
  {
    hide EmitRange, EmitAnd;
  }

  method EmitAndNext(fn: Mir.Function, t: Targets, start: nat, b: nat, ft: nat, body: Buffer, state: EmitState)
      returns (status: Status)
    requires body.Valid() && state.Valid() && state.For(fn) && ft <= |fn.insts| && DepthsFit(t, Size(start, ft))
    requires !IsAndEnd(fn, start, ft) && FindAndOperand(fn, start, ft) == Some(b)
    modifies body, body.data, state, state.kinds
    ensures body.Valid() && state.Valid() && (body.data == old(body.data) || fresh(body.data))
    ensures Wrote(old(body.Contents()), body.Limit(), body.Contents(), state.Stack(), status,
      EmitAndTail(fn, t, start, ft, old(state.Stack())))
    decreases Size(start, ft), 5
  {
    hide EncodeAll, EmitRange, EmitAnd, EmitAndTail, FindBranch;
    ghost var before := body.Contents();
    AndTailIs(fn, t, start, b, ft, state.Stack());
    ghost var c := EmitRange(fn, t, start, b, state.Stack());
    status := EmitOperand(fn, t, start, b, body, state);
    if !status.Done? {
      if status.TooLarge? && c.Ok? && |c.stack| > 0 {
        FirstTooLarge(before, body.Limit(), c.code, EmitAnd(fn, t, b + 1, ft, c.stack[..|c.stack| - 1]));
      }
      return;
    }
    ghost var rest := EmitAnd(fn, t, b + 1, ft, state.Stack());
    status := EmitAndIf(fn, t, b + 1, ft, body, state);
    Follow(before, body.Limit(), c.code, body.Contents(), state.Stack(), status, rest);
  }

  lemma FirstTooLarge(before: seq<Byte>, limit: nat, code: seq<Instr>, rest: Emitted)
    requires |before| + |EncodeAll(code)| > limit
    ensures var r := Continue(code, rest); r.Ok? ==> |before| + |EncodeAll(r.code)| > limit
  {
    hide EncodeAll;
    if rest.Ok? {
      EncodeConcat(code, rest.code);
    }
  }

  method EmitOrIf(fn: Mir.Function, t: Targets, start: nat, merge: nat, body: Buffer, state: EmitState)
      returns (status: Status)
    requires body.Valid() && state.Valid() && state.For(fn) && merge <= |fn.insts| && DepthsFit(t, Size(start, merge))
    modifies body, body.data, state, state.kinds
    ensures body.Valid() && state.Valid() && (body.data == old(body.data) || fresh(body.data))
    ensures Wrote(old(body.Contents()), body.Limit(), body.Contents(), state.Stack(), status,
      EmitOr(fn, t, start, merge, old(state.Stack())))
    decreases Size(start, merge), 8
  {
    hide EncodeAll, EmitOrRange, BoolIf;
    ghost var before := body.Contents();
    ghost var thn := BoolConst(state.Stack(), true);
    ghost var els := EmitOrRange(fn, t, start, merge, ElseStack(thn, |state.Stack()|));
    var depth := state.stackLen;
    IfTooLarge(before, body.Limit(), thn, els, depth);
    assert before == before + [] && [] + BOOL_OPEN == BOOL_OPEN;
    var ok := Put(body, BOOL_OPEN, before, []);
    if !ok {
      return TooLarge;
    }
    status := EmitAndPush(body, state, [I32Const(1)], Mir.KI32);
    Shift(before, BOOL_OPEN, body.Limit(), body.Contents(), state.Stack(), status, thn);
    if status.Done? {
      status := EmitOrArm(fn, t, start, merge, thn, depth, body, state, before);
    }
  }

  /** The arm of an `or` in which the rest of the chain is evaluated. */
  method EmitOrArm(fn: Mir.Function, t: Targets, start: nat, merge: nat, ghost thn: Emitted, depth: nat,
      body: Buffer, state: EmitState, ghost before: seq<Byte>)
    returns (status: Status)
    requires body.Valid() && state.Valid() && state.For(fn) && merge <= |fn.insts| && DepthsFit(t, Size(start, merge))
    requires thn.Ok? && state.Stack() == thn.stack && body.Contents() == before + (BOOL_OPEN + EncodeAll(thn.code))
    modifies body, body.data, state, state.kinds
    ensures body.Valid() && state.Valid() && (body.data == old(body.data) || fresh(body.data))
    ensures Wrote(before, body.Limit(), body.Contents(), state.Stack(), status,
      BoolIf(thn, EmitOrRange(fn, t, start, merge, ElseStack(thn, depth)), depth))
    decreases Size(start, merge), 7
  {
    hide EncodeAll, EmitOrRange;
    ghost var els := EmitOrRange(fn, t, start, merge, ElseStack(thn, depth));
    if els.Ok? {
      IfBytes(thn.code, els.code);
    }
    ghost var out := BOOL_OPEN + EncodeAll(thn.code);
    status := EndFirstArm(depth, body, state, before, out);
    if !status.Done? {
      return;
    }
    out := out + [ELSE];
    status := EmitOrRest(fn, t, start, merge, body, state);
    Shift(before, out, body.Limit(), body.Contents(), state.Stack(), status, els);
    if !status.Done? {
      return;
    }
    status := EndSecondArm(depth, body, state, before, out + EncodeAll(els.code));
  }

  method EmitOrRest(fn: Mir.Function, t: Targets, start: nat, merge: nat, body: Buffer, state: EmitState)
      returns (status: Status)
    requires body.Valid() && state.Valid() && state.For(fn) && merge <= |fn.insts| && DepthsFit(t, Size(start, merge))
    modifies body, body.data, state, state.kinds
    ensures body.Valid() && state.Valid() && (body.data == old(body.data) || fresh(body.data))
    ensures Wrote(old(body.Contents()), body.Limit(), body.Contents(), state.Stack(), status,
      EmitOrRange(fn, t, start, merge, old(state.Stack())))
    decreases Size(start, merge), 6
  {
    hide EncodeAll, EmitRange, EmitOr, EmitAnd, EmitAndTail, EmitConstruct, EmitBranch;
    if start + 1 == merge && fn.insts[start] == Mir.PushBool(false) {
      status := EmitAndPush(body, state, [I32Const(0)], Mir.KI32);
      return;
    }
    var b := FindJumpIfFalse(fn, start, merge, None);
    if b.None? || b.value + 2 >= merge {
      return Refused(BooleanShape);
    }
    var at := b.value;
    if fn.insts[at].dest != at + 3 || fn.insts[at + 1] != Mir.PushBool(true) || fn.insts[at + 2] != Mir.Jump(merge) {
      return Refused(BooleanShape);
    }
    status := EmitOrNext(fn, t, start, at, merge, body, state);
  }

  lemma OrRangeIs(fn: Mir.Function, t: Targets, start: nat, b: nat, merge: nat, ks: Kinds)
    requires merge <= |fn.insts| && !IsOrEnd(fn, start, merge) && FindOrOperand(fn, start, merge) == Some(b)
    ensures var c := EmitRange(fn, t, start, b, ks);
      EmitOrRange(fn, t, start, merge, ks)
      == if c.Err? then c
         else if |c.stack| == 0 || c.stack[|c.stack| - 1] != Mir.KI32 then Err(ConditionMismatch)
         else Continue(c.code, EmitOr(fn, t, b + 3, merge, c.stack[..|c.stack| - 1]))
  {
    hide EmitRange, EmitOr;
  }

  method EmitOrNext(fn: Mir.Function, t: Targets, start: nat, b: nat, merge: nat, body: Buffer, state: EmitState)
      returns (status: Status)
    requires body.Valid() && state.Valid() && state.For(fn) && merge <= |fn.insts| && DepthsFit(t, Size(start, merge))
    requires !IsOrEnd(fn, start, merge) && FindOrOperand(fn, start, merge) == Some(b)
    modifies body, body.data, state, state.kinds
    ensures body.Valid() && state.Valid() && (body.data == old(body.data) || fresh(body.data))
    ensures Wrote(old(body.Contents()), body.Limit(), body.Contents(), state.Stack(), status,
      EmitOrRange(fn, t, start, merge, old(state.Stack())))
    decreases Size(start, merge), 5
  {
    hide EncodeAll, EmitRange, EmitOr, EmitOrRange, FindBranch;
    ghost var before := body.Contents();
    OrRangeIs(fn, t, start, b, merge, state.Stack());
    ghost var c := EmitRange(fn, t, start, b, state.Stack());
    status := EmitOperand(fn, t, start, b, body, state);
    if !status.Done? {
      if status.TooLarge? && c.Ok? && |c.stack| > 0 {
        FirstTooLarge(before, body.Limit(), c.code, EmitOr(fn, t, b + 3, merge, c.stack[..|c.stack| - 1]));
      }
      return;
    }
    ghost var rest := EmitOr(fn, t, b + 3, merge, state.Stack());
    status := EmitOrIf(fn, t, b + 3, merge, body, state);
    Follow(before, body.Limit(), c.code, body.Contents(), state.Stack(), status, rest);
  }
}
