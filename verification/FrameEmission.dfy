/** Everything that is emitted keeps to its function's frame, with or without one. */
module FrameEmission {
  import opened Words
  import opened Memory
  import M = Mir
  import opened StackMap
  import opened Wasm
  import opened Emitter
  import opened Slots
  import opened FrameSlots
  import FrameSim
  import Straightline
  import opened FrameKeeping

  /** The footing is that of the function's own frame. */
  ghost predicate Footed(fn: M.Function, f: Footing) {
    if fn.frame.None? then f.NoFrame?
    else
      && FrameOk(fn) && f.OwnFrame? && f.base == FrameBase(fn) && f.size == fn.frame.value.size
      && f.entry.frameGlobal == fn.frame.value.pointer
  }

  // ---- stores into the frame -----------------------------------------------------------------------

  /** Code without blocks and calls does not depend on what can be called. */
  predicate Flat(code: seq<Instr>) {
    forall j :: 0 <= j < |code| ==>
      !code[j].Block? && !code[j].Loop? && !code[j].If? && !code[j].IfElse? && !code[j].Call?
  }

  lemma {:induction false} HostIrrelevant(a: Host, b: Host, code: seq<Instr>, stack: seq<Value>, st: State)
    requires Flat(code)
    ensures Exec(a, code, stack, st) == Exec(b, code, stack, st)
    decreases |code|
  {
    hide ExecNumeric, ExecCall, LeaveBlock, ExecLoad, ExecStore, ExecGlobalSet;
    if code != [] {
      var o := ExecInstr(a, code[0], stack, st);
      assert !code[0].Call? && !code[0].Block? && !code[0].Loop? && !code[0].If? && !code[0].IfElse?;
      if o.Normal? {
        HostIrrelevant(a, b, code[1..], o.stack, o.st);
      }
    }
  }

  /** Instructions that push one operand. */
  predicate Pushes(i: Instr) {
    i.LocalGet? || i.I32Const? || i.I64Const?
  }

  lemma PushExec(host: Host, i: Instr, stack: seq<Value>, st: State)
    requires Pushes(i)
    ensures var o := ExecInstr(host, i, stack, st);
      o.Stuck? || (o.Normal? && |o.stack| == |stack| + 1 && o.stack[..|stack|] == stack && o.st == st)
  {
  }

  /** A store at the frame's address plus an offset stays inside the frame. */
  lemma StoreStands(f: Footing, t: ValType, offset: nat, stack: seq<Value>, st: State)
    requires Standing(f, st) && f.OwnFrame? && offset + WidthOf(t) <= f.size
    requires |stack| > 1 && stack[|stack| - 2] == I32V(Wrap32(f.at + Wrap32(offset)))
    ensures Kept(f, ExecStore(t, stack, st))
  {
    hide WordBytes;
    AddressSum(f.at, offset);
    assert FramePointer(f.entry) == Unsigned(f.at);
  }

  lemma ChunkKept(f: Footing, host: Host, fn: M.Function, offset: nat, push: Instr, t: ValType, stack: seq<Value>,
      st: State)
    requires Standing(f, st) && f.OwnFrame? && f.base == FrameBase(fn) && offset + WidthOf(t) <= f.size && Pushes(push)
    ensures Kept(f, Exec(host, FrameAddress(fn, offset) + [push, MemStore(t)], stack, st))
  {
    hide ExecNumeric, ExecCall, LeaveBlock, FrameBase, FrameAddress, CallersKept, ExecStore;
    var a := I32V(FrameSim.AddressAt(fn, st, offset));
    FrameSim.AddressCorrect(host, fn, offset, stack, st);
    Straightline.ExecThen(host, FrameAddress(fn, offset), [push, MemStore(t)], stack, st, stack + [a], st);
    Straightline.ExecTwo(host, push, MemStore(t), stack + [a], st);
    PushExec(host, push, stack + [a], st);
    var o := ExecInstr(host, push, stack + [a], st);
    if o.Normal? {
      assert o.stack[..|stack| + 1][|stack|] == a;
      StoreStands(f, t, offset, o.stack, st);
    }
  }

  lemma ChunkKeeps(f: Footing, host: Host, fn: M.Function, offset: nat, push: Instr, t: ValType)
    requires f.OwnFrame? && f.base == FrameBase(fn) && offset + WidthOf(t) <= f.size && Pushes(push)
    ensures Keeps(f, host, FrameAddress(fn, offset) + [push, MemStore(t)])
  {
    hide Exec, Standing, Kept, FrameBase;
    var code := FrameAddress(fn, offset) + [push, MemStore(t)];
    forall stack: seq<Value>, st: State | Standing(f, st)
      ensures KeepsOn(f, host, code, stack, st)
    {
      ChunkKept(f, host, fn, offset, push, t, stack, st);
      HostIrrelevant(host, Guarded(host, Top(f)), code, stack, st);
    }
  }

  lemma StoreLocalKeeps(f: Footing, host: Host, fn: M.Function, k: M.Kind, offset: nat, x: nat)
    requires f.OwnFrame? && f.base == FrameBase(fn) && offset + SlotSize(k) <= f.size
    ensures Keeps(f, host, StoreLocal(fn, k, offset, x))
  {
    hide Keeps, FrameBase;
    ChunkKeeps(f, host, fn, offset, LocalGet(x), if k == M.KI64 then TI64 else TI32);
    if k == M.KStr {
      ChunkKeeps(f, host, fn, offset + 4, LocalGet(x + 1), TI32);
      KeepsThen(f, host, StoreWord(fn, offset, x, TI32), StoreWord(fn, offset + 4, x + 1, TI32));
    }
  }

  lemma ZeroFrameKeeps(f: Footing, host: Host, fn: M.Function, k: M.Kind, offset: nat)
    requires f.OwnFrame? && f.base == FrameBase(fn) && offset + SlotSize(k) <= f.size
    ensures Keeps(f, host, ZeroFrame(fn, k, offset))
  {
    hide Keeps, FrameBase;
    ChunkKeeps(f, host, fn, offset, if k == M.KI64 then I64Const(0) else I32Const(0), if k == M.KI64 then TI64
      else TI32);
    if k == M.KStr {
      ChunkKeeps(f, host, fn, offset + 4, I32Const(0), TI32);
      KeepsThen(f, host, ZeroWord(fn, offset, TI32), ZeroWord(fn, offset + 4, TI32));
    }
  }

  // ---- leaving ---------------------------------------------------------------------------------------

  predicate AllGets(code: seq<Instr>) {
    forall j :: 0 <= j < |code| ==> code[j].LocalGet?
  }

  /** Once the frame is given back, only the result is pushed before the return. */
  lemma {:induction false} TailReturns(f: Footing, host: Host, gets: seq<Instr>, stack: seq<Value>, st: State)
    requires AllGets(gets) && KeepsFrames(f.entry, st.store)
    ensures Kept(f, Exec(host, gets + [Return], stack, st))
    decreases |gets|
  {
    hide ExecNumeric, ExecCall, LeaveBlock, KeepsFrames;
    if gets == [] {
      assert gets + [Return] == [Return];
      Single(host, Return, stack, st);
    } else {
      assert (gets + [Return])[0] == gets[0] && (gets + [Return])[1..] == gets[1..] + [Return];
      var o := ExecInstr(host, gets[0], stack, st);
      if o.Normal? {
        TailReturns(f, host, gets[1..], o.stack, o.st);
      }
    }
  }

  lemma GivenBack(f: Footing, st: State)
    requires f.OwnFrame? && Standing(f, st)
    ensures KeepsFrames(f.entry, st.store.(globals := st.store.globals[f.entry.frameGlobal := f.at]))
  {
  }

  lemma RestoreKept(f: Footing, host: Host, gets: seq<Instr>, stack: seq<Value>, st: State)
    requires f.OwnFrame? && Standing(f, st) && AllGets(gets)
    ensures Kept(f, Exec(host, [LocalGet(f.base), GlobalSet(f.entry.frameGlobal)] + (gets + [Return]), stack, st))
  {
    hide ExecNumeric, ExecCall, LeaveBlock, KeepsFrames, CallersKept;
    var restore := [LocalGet(f.base), GlobalSet(f.entry.frameGlobal)];
    var after := st.(store := st.store.(globals := st.store.globals[f.entry.frameGlobal := f.at]));
    Straightline.ExecTwo(host, restore[0], restore[1], stack, st);
    assert (stack + [I32V(f.at)])[..|stack|] == stack;
    Straightline.ExecThen(host, restore, gets + [Return], stack, st, stack, after);
    GivenBack(f, st);
    TailReturns(f, host, gets, stack, after);
  }

  lemma RestoreKeeps(f: Footing, host: Host, gets: seq<Instr>)
    requires f.OwnFrame? && AllGets(gets)
    ensures Keeps(f, host, [LocalGet(f.base), GlobalSet(f.entry.frameGlobal)] + (gets + [Return]))
  {
    hide Exec, Standing, Kept;
    var code := [LocalGet(f.base), GlobalSet(f.entry.frameGlobal)] + (gets + [Return]);
    forall stack: seq<Value>, st: State | Standing(f, st)
      ensures KeepsOn(f, host, code, stack, st)
    {
      RestoreKept(f, host, gets, stack, st);
      HostIrrelevant(host, Guarded(host, Top(f)), code, stack, st);
    }
  }

  lemma LeaveCodeKeeps(fn: M.Function, f: Footing, host: Host, k: Option<M.Kind>)
    requires Footed(fn, f)
    ensures Keeps(f, host, Leave(fn, k))
  {
    hide Keeps, FrameOk, FrameBase;
    if fn.frame.None? {
      QuietKeeps(f, host, [Return]);
    } else {
      var restore := [LocalGet(f.base), GlobalSet(f.entry.frameGlobal)];
      if k.None? {
        assert [] + [Return] == [Return];
        RestoreKeeps(f, host, []);
      } else {
        var x := ResultLocal(fn, k.value);
        var park, gets := WriteLocal(k.value, x), ReadLocal(k.value, x);
        RestoreKeeps(f, host, gets);
        QuietKeeps(f, host, park);
        KeepsThen(f, host, park, restore + (gets + [Return]));
        assert Leave(fn, k) == park + (restore + (gets + [Return]));
      }
    }
  }

  // ---- instructions ------------------------------------------------------------------------------------

  lemma {:induction false} PlanQuiet(fn: M.Function, f: Footing, params: Kinds, actual: Kinds, next32: nat, next64: nat)
    requires Footed(fn, f) && |params| == |actual| && PlanArgs(fn, params, actual, next32, next64).Plan?
    ensures AllQuiet(f, PlanArgs(fn, params, actual, next32, next64).code)
    decreases |params|
  {
    hide Footed, Adapt, WriteLocal, HomeFor, Quiet, M.Coercible, SlotTypes;
    var n := |params|;
    if n > 0 {
      var k := params[n - 1];
      PlanQuiet(fn, f, params[..n - 1], actual[..n - 1], next32 + Cells32(k), next64 + Cells64(k));
      ParkedQuiet(fn, f, actual[n - 1], k, next32, next64);
    }
  }

  /** Arguments are parked in scratch locals, never in the one with the frame's address. */
  lemma ParkedQuiet(fn: M.Function, f: Footing, from: M.Kind, k: M.Kind, next32: nat, next64: nat)
    requires Footed(fn, f) && HomeFor(fn, k, next32, next64).Some?
    ensures AllQuiet(f, Adapt(from, k) + WriteLocal(k, HomeFor(fn, k, next32, next64).value))
  {
    hide FrameOk, FrameBase;
  }

  lemma {:induction false} ReloadQuiet(f: Footing, params: Kinds, homes: seq<nat>)
    requires |params| == |homes|
    ensures AllQuiet(f, ReloadArgs(params, homes))
    decreases |params|
  {
    var n := |params|;
    if n > 0 {
      ReloadQuiet(f, params[..n - 1], homes[..n - 1]);
    }
  }

  lemma CallCodeKeeps(fn: M.Function, f: Footing, host: Host, callee: nat, argc: nat, ks: Kinds)
    requires Footed(fn, f) && RespectsAt(host, Top(f)) && EmitCall(fn, callee, argc, ks).Ok?
    ensures Keeps(f, host, EmitCall(fn, callee, argc, ks).code)
  {
    hide Keeps, PlanArgs, ReloadArgs, RespectsAt, Footed, Quiet;
    var params := fn.sigs[callee].params;
    var plan := PlanArgs(fn, params, ks[|ks| - argc..], 0, 0);
    PlanQuiet(fn, f, params, ks[|ks| - argc..], 0, 0);
    ReloadQuiet(f, params, plan.homes);
    QuietKeeps(f, host, plan.code + ReloadArgs(params, plan.homes));
    CallKeeps(f, host, callee);
    KeepsThen(f, host, plan.code + ReloadArgs(params, plan.homes), [Call(callee)]);
  }

  lemma AssertKeeps(f: Footing, host: Host)
    ensures Keeps(f, host, [Numeric(0x45), If([Unreachable])])
  {
    hide Keeps;
    QuietKeeps(f, host, [Numeric(0x45)]);
    QuietKeeps(f, host, [Unreachable]);
    IfKeeps(f, host, None, [Unreachable], [Unreachable]);
    KeepsThen(f, host, [Numeric(0x45)], [If([Unreachable])]);
    assert [Numeric(0x45)] + [If([Unreachable])] == [Numeric(0x45), If([Unreachable])];
  }

  lemma SimpleQuiet(fn: M.Function, f: Footing, inst: M.Inst, ks: Kinds)
    requires EmitSimple(fn, inst, ks).Ok? && !inst.CallFn? && !inst.Assert?
    requires f.NoFrame? || !(inst.LocalLoad? || inst.LocalStore? || inst.LocalZero? || inst.Binary?)
    ensures AllQuiet(f, EmitSimple(fn, inst, ks).code)
  {
    hide EmitCall, LocalIndex, EmitUnary, EmitBinary;
    var n := |ks|;
    if inst.Unary? {
      UnaryQuiet(f, inst.tok, ks[n - 1], ks[..n - 1]);
    } else if inst.Binary? {
      BinaryQuiet(f, inst.tok, ks[n - 2], ks[n - 1], ks[..n - 2]);
    }
  }

  lemma UnaryQuiet(f: Footing, tok: M.Token, k: M.Kind, rest: Kinds)
    requires EmitUnary(tok, k, rest).Ok?
    ensures AllQuiet(f, EmitUnary(tok, k, rest).code)
  {
  }

  lemma BinaryQuiet(f: Footing, tok: M.Token, a: M.Kind, b: M.Kind, rest: Kinds)
    requires f.NoFrame? && EmitBinary(tok, a, b, rest).Ok?
    ensures AllQuiet(f, EmitBinary(tok, a, b, rest).code)
  {
  }

  lemma SimpleKeeps(fn: M.Function, f: Footing, host: Host, inst: M.Inst, ks: Kinds)
    requires Footed(fn, f) && RespectsAt(host, Top(f)) && EmitSimple(fn, inst, ks).Ok?
    requires fn.frame.None? || !(inst.LocalLoad? || inst.LocalStore? || inst.LocalZero? || inst.Binary?)
    ensures Keeps(f, host, EmitSimple(fn, inst, ks).code)
  {
    hide Keeps, RespectsAt, EmitCall, EmitUnary, EmitBinary, FrameOk, AllQuiet;
    if inst.CallFn? {
      CallCodeKeeps(fn, f, host, inst.callee, inst.argc, ks);
    } else if inst.Assert? {
      AssertKeeps(f, host);
    } else {
      SimpleQuiet(fn, f, inst, ks);
      QuietKeeps(f, host, EmitSimple(fn, inst, ks).code);
    }
  }

  lemma CompareQuiet(f: Footing, s: nat, negate: bool)
    requires f.OwnFrame? ==> f.base < s
    ensures AllQuiet(f, CompareStrings(s, s + 1, s + 2, s + 3, negate))
  {
  }

  lemma FramedBinaryQuiet(fn: M.Function, f: Footing, tok: M.Token, a: M.Kind, b: M.Kind, rest: Kinds)
    requires fn.frame.Some? && Footed(fn, f) && EmitFramedBinary(fn, tok, a, b, rest).Ok?
    ensures AllQuiet(f, EmitFramedBinary(fn, tok, a, b, rest).code)
  {
    hide FrameOk, FrameBase, CompareStrings;
    CompareQuiet(f, Scratch(fn, 0), tok == M.Neq);
  }

  lemma SlotInside(fn: M.Function, i: nat)
    requires FrameOk(fn) && HasSlot(fn, i)
    ensures fn.frame.value.offsets[i] + SlotSize(fn.localKinds[i]) <= fn.frame.value.size
  {
    assert SlotEnd(fn, i) <= fn.frame.value.size;
  }

  lemma FramedKeeps(fn: M.Function, f: Footing, host: Host, inst: M.Inst, ks: Kinds)
    requires fn.frame.Some? && Footed(fn, f) && RespectsAt(host, Top(f)) && EmitFramed(fn, inst, ks).Ok?
    ensures Keeps(f, host, EmitFramed(fn, inst, ks).code)
  {
    hide Keeps, RespectsAt, EmitSimple, FrameOk, FrameBase, AllQuiet, StoreLocal, ZeroFrame, EmitFramedBinary,
      LoadFrame, Adapt, WriteLocal;
    match inst
    case LocalLoad(i) =>
      LoadQuiet(fn, f, fn.localKinds[i], fn.frame.value.offsets[i]);
      QuietKeeps(f, host, EmitFramed(fn, inst, ks).code);
    case LocalStore(i) =>
      var k, offset := fn.localKinds[i], fn.frame.value.offsets[i];
      SlotInside(fn, i);
      ParkQuiet(fn, f, ks[|ks| - 1], k);
      var park := Adapt(ks[|ks| - 1], k) + WriteLocal(k, ResultLocal(fn, k));
      QuietKeeps(f, host, park);
      StoreLocalKeeps(f, host, fn, k, offset, ResultLocal(fn, k));
      KeepsThen(f, host, park, StoreLocal(fn, k, offset, ResultLocal(fn, k)));
      assert EmitFramed(fn, inst, ks).code == park + StoreLocal(fn, k, offset, ResultLocal(fn, k));
    case LocalZero(i) =>
      SlotInside(fn, i);
      ZeroFrameKeeps(f, host, fn, fn.localKinds[i], fn.frame.value.offsets[i]);
    case Binary(tok) =>
      FramedBinaryQuiet(fn, f, tok, ks[|ks| - 2], ks[|ks| - 1], ks[..|ks| - 2]);
      QuietKeeps(f, host, EmitFramed(fn, inst, ks).code);
    case _ => SimpleKeeps(fn, f, host, inst, ks);
  }

  lemma LoadQuiet(fn: M.Function, f: Footing, k: M.Kind, offset: nat)
    ensures AllQuiet(f, LoadFrame(fn, k, offset))
  {
    hide FrameBase;
  }

  lemma ParkQuiet(fn: M.Function, f: Footing, from: M.Kind, k: M.Kind)
    requires f.OwnFrame? ==> f.base == FrameBase(fn)
    ensures AllQuiet(f, Adapt(from, k) + WriteLocal(k, ResultLocal(fn, k)))
  {
    hide FrameBase;
  }

  lemma LeafKeeps(fn: M.Function, f: Footing, host: Host, t: Targets, inst: M.Inst, ks: Kinds)
    requires Footed(fn, f) && RespectsAt(host, Top(f)) && EmitLeaf(fn, t, inst, ks).Ok?
    ensures Keeps(f, host, EmitLeaf(fn, t, inst, ks).code)
  {
    hide Keeps, RespectsAt, EmitSimple, EmitFramed, FrameOk, FrameBase, Leave, AllQuiet;
    if inst.Jump? {
      BrQuiet(f, DepthForJump(t, inst.dest).value);
      QuietKeeps(f, host, EmitLeaf(fn, t, inst, ks).code);
    } else if inst.Return? {
      LeaveCodeKeeps(fn, f, host, fn.result);
      AdaptQuiet(f, ks[|ks| - 1], fn.result.value);
      QuietKeeps(f, host, Adapt(ks[|ks| - 1], fn.result.value));
      KeepsThen(f, host, Adapt(ks[|ks| - 1], fn.result.value), Leave(fn, fn.result));
    } else if inst.ReturnVoid? {
      LeaveCodeKeeps(fn, f, host, None);
      BrQuiet(f, 0);
      QuietKeeps(f, host, [Unreachable]);
    } else if fn.frame.None? {
      SimpleKeeps(fn, f, host, inst, ks);
    } else {
      FramedKeeps(fn, f, host, inst, ks);
    }
  }

  lemma BrQuiet(f: Footing, depth: nat)
    ensures AllQuiet(f, [Br(depth)]) && AllQuiet(f, [Unreachable]) && AllQuiet(f, [Numeric(0x45), BrIf(1)])
      && AllQuiet(f, [])
    ensures AllQuiet(f, [I32Const(0)]) && AllQuiet(f, [I32Const(1)])
  {
  }

  lemma AdaptQuiet(f: Footing, from: M.Kind, to: M.Kind)
    ensures AllQuiet(f, Adapt(from, to))
  {
  }

  // ---- ranges --------------------------------------------------------------------------------------------

  lemma {:induction false} RangeKeeps(fn: M.Function, f: Footing, host: Host, t: Targets, s: nat, e: nat, ks: Kinds)
    requires Footed(fn, f) && RespectsAt(host, Top(f)) && e <= |fn.insts| && EmitRange(fn, t, s, e, ks).Ok?
    ensures Keeps(f, host, EmitRange(fn, t, s, e, ks).code)
    decreases if s < e then e - s else 0, 4
  {
    hide EmitConstruct, Keeps, RespectsAt, Footed;
    if s < e {
      var c := EmitConstruct(fn, t, s, e, ks);
      ConstructKeeps(fn, f, host, t, s, e, ks);
      RangeKeeps(fn, f, host, t, c.pc, e, c.stack);
      KeepsThen(f, host, c.code, EmitRange(fn, t, c.pc, e, c.stack).code);
    } else {
      KeepsNothing(f, host);
    }
  }

  lemma {:induction false} ConstructKeeps(fn: M.Function, f: Footing, host: Host, t: Targets, s: nat, e: nat, ks: Kinds)
    requires Footed(fn, f) && RespectsAt(host, Top(f)) && s < e <= |fn.insts| && EmitConstruct(fn, t, s, e, ks).Next?
    ensures Keeps(f, host, EmitConstruct(fn, t, s, e, ks).code)
    decreases e - s, 3
  {
    hide EmitRange, EmitWhile, EmitForever, EmitBranch, EmitLeaf, Keeps, RespectsAt, Footed;
    match Emitter.KindAt(fn, t, s, e)
    case AWhile(r) => WhileKeeps(fn, f, host, r, e, ks);
    case AForever(b) => ForeverKeeps(fn, f, host, s, b, e, ks);
    case ABranch => BranchKeeps(fn, f, host, t, s, e, ks);
    case ALeaf => LeafKeeps(fn, f, host, t, fn.insts[s], ks);
  }

  /** The code around the ranges of a loop. */
  lemma LoopCodeKeeps(f: Footing, host: Host, cond: seq<Instr>, body: seq<Instr>, tail: seq<Instr>)
    requires Keeps(f, host, cond) && Keeps(f, host, body) && Keeps(f, host, tail)
    ensures Keeps(f, host, WhileCode(cond, body, tail)) && Keeps(f, host, ForeverCode(body))
  {
    hide Keeps, AllQuiet;
    var test := [Numeric(0x45), BrIf(1)];
    BrQuiet(f, 0);
    QuietKeeps(f, host, test);
    QuietKeeps(f, host, [Br(0)]);
    BlockKeeps(f, host, body);
    KeepsThen(f, host, cond, test);
    KeepsThen(f, host, cond + test, [Block(body)]);
    KeepsThen(f, host, cond + test + [Block(body)], tail);
    KeepsThen(f, host, cond + test + [Block(body)] + tail, [Br(0)]);
    LoopKeeps(f, host, cond + test + [Block(body)] + tail + [Br(0)]);
    BlockKeeps(f, host, [Loop(cond + test + [Block(body)] + tail + [Br(0)])]);
    KeepsThen(f, host, body, [Br(0)]);
    LoopKeeps(f, host, body + [Br(0)]);
    BlockKeeps(f, host, [Loop(body + [Br(0)])]);
  }

  lemma {:induction false} WhileKeeps(fn: M.Function, f: Footing, host: Host, r: Region, e: nat, ks: Kinds)
    requires Footed(fn, f) && RespectsAt(host, Top(f)) && e <= |fn.insts| && IsRegion(fn, r.header, e, r)
      && EmitWhile(fn, r, e, ks).Ok?
    ensures Keeps(f, host, EmitWhile(fn, r, e, ks).code)
    decreases e - r.header, 2
  {
    hide EmitRange, EmitWhile, Keeps, RespectsAt, Footed;
    WhileParts(fn, r, e, ks);
    var c := EmitRange(fn, NO_TARGETS, r.header, r.cond, ks);
    var b := EmitRange(fn, BodyTargets(r), r.cond + 1, r.tail, c.stack[..|ks|]);
    var tl := EmitRange(fn, LoopTargets(r.header, r.exit), r.tail, r.backedge, b.stack);
    RangeKeeps(fn, f, host, NO_TARGETS, r.header, r.cond, ks);
    RangeKeeps(fn, f, host, BodyTargets(r), r.cond + 1, r.tail, c.stack[..|ks|]);
    RangeKeeps(fn, f, host, LoopTargets(r.header, r.exit), r.tail, r.backedge, b.stack);
    LoopCodeKeeps(f, host, c.code, b.code, tl.code);
  }

  lemma {:induction false} ForeverKeeps(fn: M.Function, f: Footing, host: Host, s: nat, b: nat, e: nat, ks: Kinds)
    requires Footed(fn, f) && RespectsAt(host, Top(f)) && s < b < e <= |fn.insts| && EmitForever(fn, s, b, ks).Ok?
    ensures Keeps(f, host, EmitForever(fn, s, b, ks).code)
    decreases e - s, 2
  {
    hide EmitRange, Keeps, ForeverCode, RespectsAt, Footed;
    RangeKeeps(fn, f, host, LoopTargets(s, b + 1), s, b, ks);
    KeepsNothing(f, host);
    LoopCodeKeeps(f, host, [], EmitRange(fn, LoopTargets(s, b + 1), s, b, ks).code, []);
  }

  lemma {:induction false} BranchKeeps(fn: M.Function, f: Footing, host: Host, t: Targets, s: nat, e: nat, ks: Kinds)
    requires Footed(fn, f) && RespectsAt(host, Top(f)) && s < e <= |fn.insts| && fn.insts[s].JumpIfFalse?
      && EmitBranch(fn, t, s, e, ks).Next?
    ensures Keeps(f, host, EmitBranch(fn, t, s, e, ks).code)
    decreases e - s, 2
  {
    hide EmitRange, EmitBranch, EmitAnd, EmitOr, Keeps, RespectsAt, Footed;
    BranchParts(fn, t, s, e, ks);
    KeepsNothing(f, host);
    var ft, ks' := fn.insts[s].dest, ks[..|ks| - 1];
    if OrShape(fn, s, e).Some? {
      OrKeeps(fn, f, host, t, s + 3, OrShape(fn, s, e).value.mergeTarget, ks');
    } else if AndShape(fn, s, e).Some? {
      AndKeeps(fn, f, host, t, s + 1, ft, ks');
    } else {
      match ShapeOfBranch(fn, t, ft, e)
      case OnlyThen =>
        RangeKeeps(fn, f, host, Nest(t), s + 1, ft, ks');
        IfKeeps(f, host, None, EmitRange(fn, Nest(t), s + 1, ft, ks').code, []);
      case ThenElse(merge) =>
        var thn := EmitRange(fn, Nest(t), s + 1, ft - 1, ks');
        RangeKeeps(fn, f, host, Nest(t), s + 1, ft - 1, ks');
        RangeKeeps(fn, f, host, Nest(t), ft, merge, thn.stack);
        IfKeeps(f, host, None, thn.code, EmitRange(fn, Nest(t), ft, merge, thn.stack).code);
    }
  }

  lemma {:induction false} AndKeeps(fn: M.Function, f: Footing, host: Host, t: Targets, start: nat, ft: nat, ks: Kinds)
    requires Footed(fn, f) && RespectsAt(host, Top(f)) && ft <= |fn.insts| && EmitAnd(fn, t, start, ft, ks).Ok?
    ensures Keeps(f, host, EmitAnd(fn, t, start, ft, ks).code)
    decreases if start < ft then ft - start else 0, 6
  {
    hide EmitRange, EmitAnd, EmitAndTail, Keeps, RespectsAt, Footed, AllQuiet;
    AndParts(fn, t, start, ft, ks);
    AndTailKeeps(fn, f, host, t, start, ft, ks);
    BrQuiet(f, 0);
    QuietKeeps(f, host, [I32Const(0)]);
    IfKeeps(f, host, Some(TI32), EmitAndTail(fn, t, start, ft, ks).code, [I32Const(0)]);
  }

  lemma {:induction false} AndTailKeeps(fn: M.Function, f: Footing, host: Host, t: Targets, start: nat, ft: nat,
      ks: Kinds)
    requires Footed(fn, f) && RespectsAt(host, Top(f)) && ft <= |fn.insts| && EmitAndTail(fn, t, start, ft, ks).Ok?
    ensures Keeps(f, host, EmitAndTail(fn, t, start, ft, ks).code)
    decreases if start < ft then ft - start else 0, 5
  {
    hide EmitRange, EmitAnd, EmitAndTail, Keeps, RespectsAt, Footed, AllQuiet;
    AndTailParts(fn, t, start, ft, ks);
    if IsAndEnd(fn, start, ft) {
      BrQuiet(f, 0);
      QuietKeeps(f, host, [I32Const(1)]);
    } else {
      var b := FindAndOperand(fn, start, ft).value;
      var c := EmitRange(fn, t, start, b, ks);
      RangeKeeps(fn, f, host, t, start, b, ks);
      AndKeeps(fn, f, host, t, b + 1, ft, c.stack[..|c.stack| - 1]);
      KeepsThen(f, host, c.code, EmitAnd(fn, t, b + 1, ft, c.stack[..|c.stack| - 1]).code);
    }
  }

  lemma {:induction false} OrKeeps(fn: M.Function, f: Footing, host: Host, t: Targets, start: nat, merge: nat,
      ks: Kinds)
    requires Footed(fn, f) && RespectsAt(host, Top(f)) && merge <= |fn.insts| && EmitOr(fn, t, start, merge, ks).Ok?
    ensures Keeps(f, host, EmitOr(fn, t, start, merge, ks).code)
    decreases if start < merge then merge - start else 0, 6
  {
    hide EmitRange, EmitOr, EmitOrRange, Keeps, RespectsAt, Footed, AllQuiet;
    OrParts(fn, t, start, merge, ks);
    OrRangeKeeps(fn, f, host, t, start, merge, ks);
    BrQuiet(f, 0);
    QuietKeeps(f, host, [I32Const(1)]);
    IfKeeps(f, host, Some(TI32), [I32Const(1)], EmitOrRange(fn, t, start, merge, ks).code);
  }

  lemma {:induction false} OrRangeKeeps(fn: M.Function, f: Footing, host: Host, t: Targets, start: nat, merge: nat,
      ks: Kinds)
    requires Footed(fn, f) && RespectsAt(host, Top(f)) && merge <= |fn.insts|
      && EmitOrRange(fn, t, start, merge, ks).Ok?
    ensures Keeps(f, host, EmitOrRange(fn, t, start, merge, ks).code)
    decreases if start < merge then merge - start else 0, 5
  {
    hide EmitRange, EmitOr, Keeps, RespectsAt, Footed, AllQuiet;
    if IsOrEnd(fn, start, merge) {
      BrQuiet(f, 0);
      QuietKeeps(f, host, [I32Const(0)]);
    } else {
      OrRangeParts(fn, t, start, merge, ks);
      var b := FindOrOperand(fn, start, merge).value;
      var c := EmitRange(fn, t, start, b, ks);
      RangeKeeps(fn, f, host, t, start, b, ks);
      OrKeeps(fn, f, host, t, b + 3, merge, c.stack[..|c.stack| - 1]);
      KeepsThen(f, host, c.code, EmitOr(fn, t, b + 3, merge, c.stack[..|c.stack| - 1]).code);
    }
  }
}
