/**
 * The control-flow structuring pass: flat MIR in, nested WebAssembly blocks, loops and ifs out.
 * These functions are what the imperative emitter in `EmitterMethods` computes.
 */
module Emitter {
  import opened Words
  import Mir
  import opened StackMap
  import opened Wasm

  datatype EmitError =
    | StackOverflow
    | OperandMismatch
    | UnsupportedOperator
    | UnsupportedCall
    | UnsupportedLocal
    | ReturnMismatch
    | ConditionMismatch
    | LoopStackMismatch
    | BranchStackMismatch
    | BooleanShape
    | BooleanStackMismatch
    | ControlFlowShape
    | UnstructuredJump
    | TooManyLocals

  /** Emitted code, and the operand kinds the emitter tracks after it. */
  datatype Emitted = Ok(code: seq<Instr>, stack: Kinds) | Err(error: EmitError)

  const MAX_STACK := 256
  const MAX_ARGS := 32
  const CALL_SCRATCH_I32 := 64
  const CALL_SCRATCH_I64 := 32

  function PushKind(code: seq<Instr>, ks: Kinds, k: Mir.Kind): Emitted {
    if |ks| >= MAX_STACK then Err(StackOverflow) else Ok(code, ks + [k])
  }

  // ---- straight-line instructions -----------------------------------------------------

  /** Where the local's first WebAssembly value lives. */
  function LocalIndex(fn: Mir.Function, slot: nat): nat
    requires slot <= |fn.localKinds|
  {
    |ExpandTypes(fn.localKinds[..slot])|
  }

  // Locals of a function with a frame: the parameters, then nine hidden ones (the frame's address,
  // seven 32-bit scratch locals and a 64-bit one), then the call scratch area.

  const HIDDEN_LOCALS := 9

  function ParamCount(fn: Mir.Function): nat
    ensures ParamCount(fn) <= |fn.localKinds|
  {
    if fn.frame.None? || fn.frame.value.params > |fn.localKinds| then |fn.localKinds| else fn.frame.value.params
  }

  function FrameBase(fn: Mir.Function): nat { LocalIndex(fn, ParamCount(fn)) }

  function Scratch(fn: Mir.Function, i: nat): nat { FrameBase(fn) + 1 + i }

  function ScratchWide(fn: Mir.Function): nat { FrameBase(fn) + 8 }

  function ScratchI32(fn: Mir.Function): nat {
    if fn.frame.None? then LocalIndex(fn, |fn.localKinds|) else FrameBase(fn) + HIDDEN_LOCALS
  }

  function ScratchI64(fn: Mir.Function): nat { ScratchI32(fn) + CALL_SCRATCH_I32 }

  function Opcode32(tok: Mir.Token): Option<Byte> {
    match tok
    case Add => Some(0x6a)
    case Sub => Some(0x6b)
    case Mul => Some(0x6c)
    case Div => Some(0x6d)
    case Mod => Some(0x6f)
    case And => Some(0x71)
    case Eq => Some(0x46)
    case Neq => Some(0x47)
    case Lt => Some(0x48)
    case Gt => Some(0x4a)
    case Lte => Some(0x4c)
    case Gte => Some(0x4e)
    case _ => None
  }

  function Opcode64(tok: Mir.Token): Option<Byte> {
    match tok
    case Add => Some(0x7c)
    case Sub => Some(0x7d)
    case Mul => Some(0x7e)
    case Div => Some(0x7f)
    case Mod => Some(0x81)
    case And => Some(0x83)
    case Eq => Some(0x51)
    case Neq => Some(0x52)
    case Lt => Some(0x55)
    case Gt => Some(0x57)
    case Lte => Some(0x59)
    case Gte => Some(0x5b)
    case _ => None
  }

  /** The conversion that `Mir.Coerce` needs. */
  function Adapt(from: Mir.Kind, to: Mir.Kind): seq<Instr> {
    if from == to then [] else [Numeric(0xac)]
  }

  function EmitUnary(tok: Mir.Token, k: Mir.Kind, rest: Kinds): Emitted {
    match (tok, k)
    case (_, KStr) => Err(OperandMismatch)
    case (Add, KI32) => PushKind([], rest, k)
    case (Add, KI64) => PushKind([], rest, k)
    case (Not, KI32) => PushKind([Numeric(0x45)], rest, Mir.KI32)
    case (Not, KI64) => PushKind([Numeric(0x50)], rest, Mir.KI32)
    case (Sub, KI32) => PushKind([I32Const(-1), Numeric(0x6c)], rest, k)
    case (Sub, KI64) => PushKind([I64Const(-1), Numeric(0x7e)], rest, k)
    case _ => Err(UnsupportedOperator)
  }

  /** Two strings are compared by pointer and length, through four scratch locals. */
  function CompareStrings(s0: nat, s1: nat, s2: nat, s3: nat, negate: bool): seq<Instr> {
    [LocalSet(s3), LocalSet(s2), LocalSet(s1), LocalSet(s0),
     LocalGet(s0), LocalGet(s2), Numeric(0x46), LocalGet(s1), LocalGet(s3), Numeric(0x46), Numeric(0x71)]
    + if negate then [Numeric(0x45)] else []
  }

  /** All scratch locals have index 0 in a function that has neither a frame nor indirect calls. */
  function StringEquality(negate: bool): seq<Instr> {
    CompareStrings(0, 0, 0, 0, negate)
  }

  function EmitBinary(tok: Mir.Token, a: Mir.Kind, b: Mir.Kind, rest: Kinds): Emitted {
    match (a, b)
    case (KI64, KI64) =>
      if Opcode64(tok).None? then Err(UnsupportedOperator)
      else PushKind([Numeric(Opcode64(tok).value)], rest, if Mir.IsComparison(tok) then Mir.KI32 else Mir.KI64)
    case (KI64, KI32) =>
      if Opcode64(tok).None? then Err(UnsupportedOperator)
      else
        PushKind([Numeric(0xac), Numeric(Opcode64(tok).value)], rest,
                 if Mir.IsComparison(tok) then Mir.KI32 else Mir.KI64)
    case (KI32, KI32) =>
      if Opcode32(tok).None? then Err(UnsupportedOperator)
      else PushKind([Numeric(Opcode32(tok).value)], rest, Mir.KI32)
    case (KStr, KStr) =>
      if tok == Mir.Eq || tok == Mir.Neq then PushKind(StringEquality(tok == Mir.Neq), rest, Mir.KI32)
      else Err(OperandMismatch)
    case _ => Err(OperandMismatch)
  }

  /** The scratch locals a call's arguments are parked in, and the code that parks them. */
  datatype ArgPlan = Plan(code: seq<Instr>, homes: seq<nat>) | NoPlan

  /** How many of the 32-bit and of the 64-bit scratch locals an argument takes. */
  function Cells32(k: Mir.Kind): nat { if k == Mir.KI64 then 0 else |SlotTypes(k)| }

  function Cells64(k: Mir.Kind): nat { if k == Mir.KI64 then 1 else 0 }

  /** The next free home for an argument, if the scratch area has room for it. */
  function HomeFor(fn: Mir.Function, k: Mir.Kind, next32: nat, next64: nat): Option<nat> {
    if k == Mir.KI64 then if next64 >= CALL_SCRATCH_I64 then None else Some(ScratchI64(fn) + next64)
    else if next32 + Cells32(k) > CALL_SCRATCH_I32 then None
    else Some(ScratchI32(fn) + next32)
  }

  /** Pops the arguments; the last of them is on top of the stack. */
  function PlanArgs(fn: Mir.Function, params: Kinds, actual: Kinds, next32: nat, next64: nat): (r: ArgPlan)
    requires |params| == |actual|
    ensures r.Plan? ==> |r.homes| == |params|
    decreases |params|
  {
    var n := |params|;
    if params == [] then Plan([], [])
    else if !Mir.Coercible(actual[n - 1], params[n - 1]) then NoPlan
    else
      var k := params[n - 1];
      var home := HomeFor(fn, k, next32, next64);
      var rest := PlanArgs(fn, params[..n - 1], actual[..n - 1], next32 + Cells32(k), next64 + Cells64(k));
      if home.None? || rest.NoPlan? then NoPlan
      else Plan(Adapt(actual[n - 1], k) + WriteLocal(k, home.value) + rest.code, rest.homes + [home.value])
  }

  /** Loads the arguments back in order. */
  function ReloadArgs(params: Kinds, homes: seq<nat>): seq<Instr>
    requires |params| == |homes|
    decreases |params|
  {
    var n := |params|;
    if params == [] then []
    else ReloadArgs(params[..n - 1], homes[..n - 1]) + ReadLocal(params[n - 1], homes[n - 1])
  }

  function ReadLocal(k: Mir.Kind, index: nat): seq<Instr> {
    if k == Mir.KStr then [LocalGet(index), LocalGet(index + 1)] else [LocalGet(index)]
  }

  function WriteLocal(k: Mir.Kind, index: nat): seq<Instr> {
    if k == Mir.KStr then [LocalSet(index + 1), LocalSet(index)] else [LocalSet(index)]
  }

  function ZeroLocal(k: Mir.Kind, index: nat): seq<Instr> {
    match k
    case KI32 => [I32Const(0), LocalSet(index)]
    case KI64 => [I64Const(0), LocalSet(index)]
    case KStr => [I32Const(0), LocalSet(index + 1), I32Const(0), LocalSet(index)]
  }

  function EmitCall(fn: Mir.Function, f: nat, argc: nat, ks: Kinds): Emitted {
    if f >= |fn.sigs| || argc != |fn.sigs[f].params| || argc > MAX_ARGS || argc > |ks| then Err(UnsupportedCall)
    else
      var params := fn.sigs[f].params;
      var rest := ks[..|ks| - argc];
      var plan := PlanArgs(fn, params, ks[|ks| - argc..], 0, 0);
      if plan.NoPlan? then Err(UnsupportedCall)
      else
        var code := plan.code + ReloadArgs(params, plan.homes) + [Call(f)];
        match fn.sigs[f].result
        case None => Ok(code, rest)
        case Some(k) => PushKind(code, rest, k)
  }

  /** Instructions other than jumps and returns, when locals are WebAssembly locals. */
  function EmitSimple(fn: Mir.Function, inst: Mir.Inst, ks: Kinds): Emitted {
    var n := |ks|;
    match inst
    case PushInt(bits) => PushKind([I32Const(Wrap32(bits))], ks, Mir.KI32)
    case PushBool(b) => PushKind([I32Const(if b then 1 else 0)], ks, Mir.KI32)
    case PushNull => PushKind([I32Const(0)], ks, Mir.KI32)
    case PushString(p, l) => PushKind([I32Const(p), I32Const(l)], ks, Mir.KStr)
    case Unary(tok) => if n < 1 then Err(OperandMismatch) else EmitUnary(tok, ks[n - 1], ks[..n - 1])
    case Binary(tok) => if n < 2 then Err(OperandMismatch) else EmitBinary(tok, ks[n - 2], ks[n - 1], ks[..n - 2])
    case Cast(k) =>
      if n < 1 || !CanCast(ks[n - 1], k) then Err(OperandMismatch)
      else
        PushKind(if ks[n - 1] == k then [] else if k == Mir.KI64 then [Numeric(0xac)] else [Numeric(0xa7)],
                 ks[..n - 1], k)
    case LocalLoad(i) =>
      if i >= |fn.localKinds| then Err(UnsupportedLocal)
      else PushKind(ReadLocal(fn.localKinds[i], LocalIndex(fn, i)), ks, fn.localKinds[i])
    case LocalStore(i) =>
      if i >= |fn.localKinds| || n < 1 || !Mir.Coercible(ks[n - 1], fn.localKinds[i]) then Err(UnsupportedLocal)
      else Ok(Adapt(ks[n - 1], fn.localKinds[i]) + WriteLocal(fn.localKinds[i], LocalIndex(fn, i)), ks[..n - 1])
    case LocalZero(i) =>
      if i >= |fn.localKinds| then Err(UnsupportedLocal)
      else Ok(ZeroLocal(fn.localKinds[i], LocalIndex(fn, i)), ks)
    case Drop =>
      if n == 0 then Ok([], ks)
      else Ok(if ks[n - 1] == Mir.KStr then [Drop, Drop] else [Drop], ks[..n - 1])
    case Assert =>
      if n < 1 || ks[n - 1] != Mir.KI32 then Err(OperandMismatch)
      else Ok([Numeric(0x45), If([Unreachable])], ks[..n - 1])
    case CallFn(f, argc) => EmitCall(fn, f, argc, ks)
    case _ => Err(UnsupportedOperator)
  }

  // ---- locals in frame memory -----------------------------------------------------------

  function FrameAddress(fn: Mir.Function, offset: nat): seq<Instr> {
    [LocalGet(FrameBase(fn)), I32Const(Wrap32(offset)), Numeric(0x6a)]
  }

  /** Stores the scratch or parameter local `x` in the frame. */
  function StoreWord(fn: Mir.Function, offset: nat, x: nat, t: ValType): seq<Instr> {
    FrameAddress(fn, offset) + [LocalGet(x), MemStore(t)]
  }

  function LoadWord(fn: Mir.Function, offset: nat, t: ValType): seq<Instr> {
    FrameAddress(fn, offset) + [MemLoad(t)]
  }

  function ZeroWord(fn: Mir.Function, offset: nat, t: ValType): seq<Instr> {
    FrameAddress(fn, offset) + [if t == TI32 then I32Const(0) else I64Const(0), MemStore(t)]
  }

  function LoadFrame(fn: Mir.Function, k: Mir.Kind, offset: nat): seq<Instr> {
    match k
    case KI32 => LoadWord(fn, offset, TI32)
    case KI64 => LoadWord(fn, offset, TI64)
    case KStr => LoadWord(fn, offset, TI32) + LoadWord(fn, offset + 4, TI32)
  }

  /** The value is parked in scratch locals while its address is computed. */
  function StoreFrame(fn: Mir.Function, k: Mir.Kind, offset: nat): seq<Instr> {
    WriteLocal(k, ResultLocal(fn, k)) + StoreLocal(fn, k, offset, ResultLocal(fn, k))
  }

  /** Stores the value that starts in local `x`. */
  function StoreLocal(fn: Mir.Function, k: Mir.Kind, offset: nat, x: nat): seq<Instr> {
    match k
    case KI32 => StoreWord(fn, offset, x, TI32)
    case KI64 => StoreWord(fn, offset, x, TI64)
    case KStr => StoreWord(fn, offset, x, TI32) + StoreWord(fn, offset + 4, x + 1, TI32)
  }

  function ZeroFrame(fn: Mir.Function, k: Mir.Kind, offset: nat): seq<Instr> {
    match k
    case KI32 => ZeroWord(fn, offset, TI32)
    case KI64 => ZeroWord(fn, offset, TI64)
    case KStr => ZeroWord(fn, offset, TI32) + ZeroWord(fn, offset + 4, TI32)
  }

  /** Where a value of the kind is parked. */
  function ResultLocal(fn: Mir.Function, k: Mir.Kind): nat {
    if k == Mir.KI64 then ScratchWide(fn) else Scratch(fn, 0)
  }

  predicate HasSlot(fn: Mir.Function, i: nat) {
    fn.frame.Some? && i < |fn.localKinds| && i < |fn.frame.value.offsets|
  }

  /** The instructions that are emitted in another way when locals live in frame memory. */
  function EmitFramed(fn: Mir.Function, inst: Mir.Inst, ks: Kinds): Emitted {
    var n := |ks|;
    match inst
    case LocalLoad(i) =>
      if !HasSlot(fn, i) then Err(UnsupportedLocal)
      else PushKind(LoadFrame(fn, fn.localKinds[i], fn.frame.value.offsets[i]), ks, fn.localKinds[i])
    case LocalStore(i) =>
      if !HasSlot(fn, i) || n < 1 || !Mir.Coercible(ks[n - 1], fn.localKinds[i]) then Err(UnsupportedLocal)
      else
        var k := fn.localKinds[i];
        Ok(Adapt(ks[n - 1], k) + StoreFrame(fn, k, fn.frame.value.offsets[i]), ks[..n - 1])
    case LocalZero(i) =>
      if !HasSlot(fn, i) then Err(UnsupportedLocal)
      else Ok(ZeroFrame(fn, fn.localKinds[i], fn.frame.value.offsets[i]), ks)
    case Binary(tok) =>
      if n < 2 then Err(OperandMismatch) else EmitFramedBinary(fn, tok, ks[n - 2], ks[n - 1], ks[..n - 2])
    case _ => EmitSimple(fn, inst, ks)
  }

  /** With real scratch locals, strings are compared in four different ones, and a 64-bit right
      operand can be set aside while the left one is widened. */
  function EmitFramedBinary(fn: Mir.Function, tok: Mir.Token, a: Mir.Kind, b: Mir.Kind, rest: Kinds): Emitted {
    if a == Mir.KStr && b == Mir.KStr && (tok == Mir.Eq || tok == Mir.Neq) then
      PushKind(CompareStrings(Scratch(fn, 0), Scratch(fn, 1), Scratch(fn, 2), Scratch(fn, 3), tok == Mir.Neq), rest,
        Mir.KI32)
    else if a == Mir.KI32 && b == Mir.KI64 then
      if Opcode64(tok).None? then Err(UnsupportedOperator)
      else
        var w := ScratchWide(fn);
        PushKind([LocalSet(w), Numeric(0xac), LocalGet(w), Numeric(Opcode64(tok).value)], rest,
                 if Mir.IsComparison(tok) then Mir.KI32 else Mir.KI64)
    else EmitBinary(tok, a, b, rest)
  }

  /** Instructions other than jumps and returns. */
  function EmitFall(fn: Mir.Function, inst: Mir.Inst, ks: Kinds): Emitted {
    if fn.frame.None? then EmitSimple(fn, inst, ks) else EmitFramed(fn, inst, ks)
  }

  // ---- entering and leaving ---------------------------------------------------------------

  /** Takes a frame: its address is kept in a local, and the frame pointer moves past it. */
  function TakeFrame(fn: Mir.Function): seq<Instr>
    requires fn.frame.Some?
  {
    var p, base := fn.frame.value.pointer, FrameBase(fn);
    [GlobalGet(p), LocalSet(base), LocalGet(base), I32Const(Wrap32(fn.frame.value.size)), Numeric(0x6a), GlobalSet(p)]
  }

  /** Stores the first `n` parameters in their slots. */
  function SpillParams(fn: Mir.Function, n: nat): seq<Instr>
    requires fn.frame.Some? && n <= |fn.localKinds| && n <= |fn.frame.value.offsets|
  {
    if n == 0 then []
    else
      SpillParams(fn, n - 1)
      + StoreLocal(fn, fn.localKinds[n - 1], fn.frame.value.offsets[n - 1], LocalIndex(fn, n - 1))
  }

  function Prologue(fn: Mir.Function): seq<Instr> {
    if fn.frame.None? || ParamCount(fn) > |fn.frame.value.offsets| then []
    else TakeFrame(fn) + SpillParams(fn, ParamCount(fn))
  }

  /** Gives the frame back, past the result, and returns. */
  function RestoreFrameAndReturn(fn: Mir.Function, k: Option<Mir.Kind>): seq<Instr>
    requires fn.frame.Some?
  {
    var restore := [LocalGet(FrameBase(fn)), GlobalSet(fn.frame.value.pointer)];
    match k
    case None => restore + [Return]
    case Some(kind) =>
      var x := ResultLocal(fn, kind);
      WriteLocal(kind, x) + restore + ReadLocal(kind, x) + [Return]
  }

  function Leave(fn: Mir.Function, k: Option<Mir.Kind>): seq<Instr> {
    if fn.frame.None? then [Return] else RestoreFrameAndReturn(fn, k)
  }

  function EmitReturn(fn: Mir.Function, ks: Kinds): Emitted {
    if fn.result.None? then Err(ReturnMismatch)
    else if |ks| == 0 then Err(OperandMismatch)
    else if !Mir.Coercible(ks[|ks| - 1], fn.result.value) then Err(ReturnMismatch)
    else Ok(Adapt(ks[|ks| - 1], fn.result.value) + Leave(fn, fn.result), ks[..|ks| - 1])
  }

  function EmitReturnVoid(fn: Mir.Function, ks: Kinds): Emitted {
    Ok(if fn.result.Some? then [Unreachable] else Leave(fn, None), ks)
  }

  // ---- branch targets -----------------------------------------------------------------

  /** A flat program counter and the relative depth of the label that stands for it. */
  datatype Label = Label(pc: nat, depth: nat)

  datatype Targets = Targets(continue_: Option<Label>, break_: Option<Label>)

  const NO_TARGETS := Targets(None, None)

  function DepthForJump(t: Targets, pc: nat): Option<nat> {
    if t.continue_.Some? && t.continue_.value.pc == pc then Some(t.continue_.value.depth)
    else if t.break_.Some? && t.break_.value.pc == pc then Some(t.break_.value.depth)
    else None
  }

  function NestLabel(l: Option<Label>): Option<Label> {
    if l.None? then None else Some(Label(l.value.pc, l.value.depth + 1))
  }

  /** The same targets seen from inside one more label. */
  function Nest(t: Targets): Targets {
    Targets(NestLabel(t.continue_), NestLabel(t.break_))
  }

  // ---- loop regions -------------------------------------------------------------------

  datatype Region = Region(header: nat, cond: nat, tail: nat, backedge: nat, exit: nat)

  /** The largest target of a jump at scan, ..., exit-2 that goes forward but stays before `exit`. */
  function LastForwardTarget(fn: Mir.Function, scan: nat, exit: nat, best: nat): nat
    requires exit <= |fn.insts|
    decreases exit - scan
  {
    if scan + 1 >= exit then best
    else
      var inst := fn.insts[scan];
      var better := inst.Jump? && scan < inst.dest < exit && inst.dest > best;
      LastForwardTarget(fn, scan + 1, exit, if better then inst.dest else best)
  }

  predicate IsLoopBranch(fn: Mir.Function, start: nat, end: nat, pc: nat)
    requires pc < end <= |fn.insts|
  {
    fn.insts[pc].JumpIfFalse? && pc + 1 < fn.insts[pc].dest <= end && pc + 1 < fn.insts[pc].dest - 1
    && fn.insts[fn.insts[pc].dest - 1] == Mir.Jump(start)
  }

  /** A loop at `start` left by a conditional branch at `pc` or later. */
  function FindLoopFrom(fn: Mir.Function, start: nat, end: nat, pc: nat): Option<Region>
    requires end <= |fn.insts|
    decreases end - pc
  {
    if pc >= end then None
    else if IsLoopBranch(fn, start, end, pc) then
      var exit := fn.insts[pc].dest;
      var last := LastForwardTarget(fn, pc + 1, exit, 0);
      Some(Region(start, pc, if last != 0 then last else exit - 1, exit - 1, exit))
    else FindLoopFrom(fn, start, end, pc + 1)
  }

  function FindLoop(fn: Mir.Function, start: nat, end: nat): Option<Region>
    requires end <= |fn.insts|
  {
    FindLoopFrom(fn, start, end, start)
  }

  predicate BodyJumpOk(fn: Mir.Function, start: nat, backedge: nat, pc: nat)
    requires pc < |fn.insts|
  {
    match fn.insts[pc]
    case Jump(t) => t == start || t == backedge + 1 || pc < t <= backedge
    case JumpIfFalse(t) => pc < t <= backedge + 1
    case _ => true
  }

  predicate BodyJumpsOk(fn: Mir.Function, start: nat, backedge: nat, pc: nat)
    requires backedge <= |fn.insts|
    decreases backedge - pc
  {
    pc >= backedge || (BodyJumpOk(fn, start, backedge, pc) && BodyJumpsOk(fn, start, backedge, pc + 1))
  }

  /** The backedge of an unconditional loop at `start`: the last suitable one below `end`. */
  function FindBackedge(fn: Mir.Function, start: nat, end: nat): Option<nat>
    requires end <= |fn.insts|
    decreases end
  {
    if end <= start + 1 then None
    else if fn.insts[end - 1] == Mir.Jump(start) && BodyJumpsOk(fn, start, end - 1, start) then Some(end - 1)
    else FindBackedge(fn, start, end - 1)
  }

  lemma {:induction false} LastForwardTargetBounds(fn: Mir.Function, scan: nat, exit: nat, best: nat)
    requires exit <= |fn.insts| && best < exit
    ensures var r := LastForwardTarget(fn, scan, exit, best);
      r < exit && (r == best || (r > scan && exists j :: scan <= j && j + 1 < exit && fn.insts[j] == Mir.Jump(r)))
    decreases exit - scan
  {
    if scan + 1 < exit {
      var inst := fn.insts[scan];
      if inst.Jump? && scan < inst.dest < exit && inst.dest > best {
        LastForwardTargetBounds(fn, scan + 1, exit, inst.dest);
      } else {
        LastForwardTargetBounds(fn, scan + 1, exit, best);
      }
    }
  }

  lemma {:induction false} FindLoopFromBounds(fn: Mir.Function, start: nat, end: nat, pc: nat)
    requires end <= |fn.insts| && start <= pc
    ensures var r := FindLoopFrom(fn, start, end, pc);
      r.Some? ==> IsRegion(fn, start, end, r.value)
    decreases end - pc
  {
    if pc < end {
      if IsLoopBranch(fn, start, end, pc) {
        LastForwardTargetBounds(fn, pc + 1, fn.insts[pc].dest, 0);
      } else {
        FindLoopFromBounds(fn, start, end, pc + 1);
      }
    }
  }

  predicate IsRegion(fn: Mir.Function, start: nat, end: nat, r: Region)
    requires end <= |fn.insts|
  {
    && r.header == start <= r.cond && r.cond + 1 < r.backedge && r.cond + 1 < r.tail <= r.backedge
    && r.exit == r.backedge + 1 <= end
    && fn.insts[r.cond] == Mir.JumpIfFalse(r.exit) && fn.insts[r.backedge] == Mir.Jump(start)
    && (r.tail < r.backedge ==> exists j :: r.cond < j < r.backedge && fn.insts[j] == Mir.Jump(r.tail))
  }

  lemma {:induction false} FindBackedgeBounds(fn: Mir.Function, start: nat, end: nat)
    requires end <= |fn.insts|
    ensures var r := FindBackedge(fn, start, end);
      r.Some? ==> start < r.value < end && fn.insts[r.value] == Mir.Jump(start)
    decreases end
  {
    if end > start + 1 && !(fn.insts[end - 1] == Mir.Jump(start) && BodyJumpsOk(fn, start, end - 1, start)) {
      FindBackedgeBounds(fn, start, end - 1);
    }
  }

  // ---- the structuring pass -----------------------------------------------------------

  /** Code for one construct starting at a program counter, and where the next one starts. */
  datatype Construct = Next(code: seq<Instr>, stack: Kinds, pc: nat) | Fail(error: EmitError)

  function At(r: Emitted, pc: nat): Construct {
    match r
    case Ok(code, stack) => Next(code, stack, pc)
    case Err(e) => Fail(e)
  }

  function EmitLeaf(fn: Mir.Function, t: Targets, inst: Mir.Inst, ks: Kinds): Emitted {
    match inst
    case Jump(dest) =>
      (match DepthForJump(t, dest)
       case Some(depth) => Ok([Br(depth)], ks)
       case None => Err(UnstructuredJump))
    case Return => EmitReturn(fn, ks)
    case ReturnVoid => EmitReturnVoid(fn, ks)
    case _ => EmitFall(fn, inst, ks)
  }

  function EmitRange(fn: Mir.Function, t: Targets, s: nat, e: nat, ks: Kinds): Emitted
    requires e <= |fn.insts|
    decreases if s < e then e - s else 0, 4
  {
    if s >= e then Ok([], ks)
    else
      match EmitConstruct(fn, t, s, e, ks)
      case Fail(err) => Err(err)
      case Next(code, stack, pc) =>
        match EmitRange(fn, t, pc, e, stack)
        case Err(err) => Err(err)
        case Ok(code', stack') => Ok(code + code', stack')
  }

  /** What starts at a program counter. */
  datatype ConstructKind = AWhile(region: Region) | AForever(backedge: nat) | ABranch | ALeaf

  function KindAt(fn: Mir.Function, t: Targets, s: nat, e: nat): (r: ConstructKind)
    requires s < e <= |fn.insts|
    ensures r.AWhile? ==> IsRegion(fn, s, e, r.region)
    ensures r.AForever? ==> s < r.backedge < e && fn.insts[r.backedge] == Mir.Jump(s) && FindLoop(fn, s, e).None?
    ensures r.ABranch? ==> fn.insts[s].JumpIfFalse?
    ensures r.ALeaf? ==> !fn.insts[s].JumpIfFalse?
    ensures r.AWhile? || r.AForever? ==> !(t.continue_.Some? && t.continue_.value.pc == s)
  {
    var allowLoop := !(t.continue_.Some? && t.continue_.value.pc == s);
    FindLoopFromBounds(fn, s, e, s);
    FindBackedgeBounds(fn, s, e);
    if allowLoop && FindLoop(fn, s, e).Some? then AWhile(FindLoop(fn, s, e).value)
    else if allowLoop && FindBackedge(fn, s, e).Some? then AForever(FindBackedge(fn, s, e).value)
    else if fn.insts[s].JumpIfFalse? then ABranch
    else ALeaf
  }

  function EmitConstruct(fn: Mir.Function, t: Targets, s: nat, e: nat, ks: Kinds): (r: Construct)
    requires s < e <= |fn.insts|
    ensures r.Next? ==> s < r.pc <= e
    decreases e - s, 3
  {
    match KindAt(fn, t, s, e)
    case AWhile(region) => At(EmitWhile(fn, region, e, ks), region.exit)
    case AForever(backedge) => At(EmitForever(fn, s, backedge, ks), backedge + 1)
    case ABranch => EmitBranch(fn, t, s, e, ks)
    case ALeaf => At(EmitLeaf(fn, t, fn.insts[s], ks), s + 1)
  }

  function BodyTargets(r: Region): Targets {
    Targets(Some(if r.tail < r.backedge then Label(r.tail, 0) else Label(r.header, 1)), Some(Label(r.exit, 2)))
  }

  function LoopTargets(header: nat, exit: nat): Targets {
    Targets(Some(Label(header, 0)), Some(Label(exit, 1)))
  }

  function WhileCode(cond: seq<Instr>, body: seq<Instr>, tail: seq<Instr>): seq<Instr> {
    [Block([Loop(cond + [Numeric(0x45), BrIf(1)] + [Block(body)] + tail + [Br(0)])])]
  }

  function EmitWhile(fn: Mir.Function, r: Region, end: nat, ks: Kinds): Emitted
    requires end <= |fn.insts| && IsRegion(fn, r.header, end, r)
    decreases end - r.header, 2
  {
    match EmitRange(fn, NO_TARGETS, r.header, r.cond, ks)
    case Err(err) => Err(err)
    case Ok(cond, ks1) =>
      if |ks1| == 0 || ks1[|ks1| - 1] != Mir.KI32 then Err(ConditionMismatch)
      else if |ks1| - 1 != |ks| then Err(LoopStackMismatch)
      else
        match EmitRange(fn, BodyTargets(r), r.cond + 1, r.tail, ks1[..|ks1| - 1])
        case Err(err) => Err(err)
        case Ok(body, ks2) =>
          if |ks2| != |ks| then Err(LoopStackMismatch)
          else
            match EmitRange(fn, LoopTargets(r.header, r.exit), r.tail, r.backedge, ks2)
            case Err(err) => Err(err)
            case Ok(tail, ks3) =>
              if |ks3| != |ks| then Err(LoopStackMismatch) else Ok(WhileCode(cond, body, tail), ks3)
  }

  /** The three ranges of an emitted loop. */
  lemma WhileParts(fn: Mir.Function, r: Region, end: nat, ks: Kinds)
    requires end <= |fn.insts| && IsRegion(fn, r.header, end, r) && EmitWhile(fn, r, end, ks).Ok?
    ensures var c := EmitRange(fn, NO_TARGETS, r.header, r.cond, ks);
      && c.Ok? && |c.stack| == |ks| + 1 && c.stack[|ks|] == Mir.KI32
      && var b := EmitRange(fn, BodyTargets(r), r.cond + 1, r.tail, c.stack[..|ks|]);
         && b.Ok? && |b.stack| == |ks|
         && var tl := EmitRange(fn, LoopTargets(r.header, r.exit), r.tail, r.backedge, b.stack);
            && tl.Ok? && |tl.stack| == |ks|
            && EmitWhile(fn, r, end, ks) == Ok(WhileCode(c.code, b.code, tl.code), tl.stack)
  {
  }

  function ForeverCode(body: seq<Instr>): seq<Instr> {
    [Block([Loop(body + [Br(0)])])]
  }

  function EmitForever(fn: Mir.Function, header: nat, backedge: nat, ks: Kinds): Emitted
    requires header < backedge < |fn.insts|
    decreases backedge + 1 - header, 2
  {
    match EmitRange(fn, LoopTargets(header, backedge + 1), header, backedge, ks)
    case Err(err) => Err(err)
    case Ok(body, ks1) =>
      if |ks1| != |ks| then Err(LoopStackMismatch) else Ok(ForeverCode(body), ks1)
  }

  /** How an ordinary conditional branch is cut: where `then` ends, and where both arms meet. */
  datatype BranchShape = OnlyThen | ThenElse(merge: nat) | BadShape

  function ShapeOfBranch(fn: Mir.Function, t: Targets, falseTarget: nat, e: nat): BranchShape
    requires 0 < falseTarget <= e <= |fn.insts|
  {
    var last := fn.insts[falseTarget - 1];
    if !last.Jump? || DepthForJump(t, last.dest).Some? then OnlyThen
    else if last.dest > e then BadShape
    else if last.dest > falseTarget then ThenElse(last.dest)
    else OnlyThen
  }

  function EmitBranch(fn: Mir.Function, t: Targets, s: nat, e: nat, ks: Kinds): (r: Construct)
    requires s < e <= |fn.insts| && fn.insts[s].JumpIfFalse?
    ensures r.Next? ==> s < r.pc <= e
    decreases e - s, 2
  {
    var or := OrShape(fn, s, e);
    var and := AndShape(fn, s, e);
    var ft := fn.insts[s].dest;
    var condOk := |ks| > 0 && ks[|ks| - 1] == Mir.KI32;
    if or.Some? then
      if !condOk then Fail(ConditionMismatch)
      else At(EmitOr(fn, t, or.value.falseTarget, or.value.mergeTarget, ks[..|ks| - 1]), or.value.mergeTarget)
    else if and.Some? then
      if !condOk then Fail(ConditionMismatch)
      else if ft <= s then Fail(BooleanShape)
      else At(EmitAnd(fn, t, s + 1, ft, ks[..|ks| - 1]), ft + 1)
    else if ft <= s + 1 || ft > e then Fail(ControlFlowShape)
    else if !condOk then Fail(ConditionMismatch)
    else
      match ShapeOfBranch(fn, t, ft, e)
      case BadShape => Fail(ControlFlowShape)
      case OnlyThen => At(EmitIf(fn, t, s, ft, ks[..|ks| - 1]), ft)
      case ThenElse(merge) => At(EmitIfElse(fn, t, s, ft, merge, ks[..|ks| - 1]), merge)
  }

  /** An emitted conditional branch is a boolean expression, an `if`, or an `if`/`else`. */
  lemma BranchParts(fn: Mir.Function, t: Targets, s: nat, e: nat, ks: Kinds)
    requires s < e <= |fn.insts| && fn.insts[s].JumpIfFalse? && EmitBranch(fn, t, s, e, ks).Next?
    ensures |ks| > 0 && ks[|ks| - 1] == Mir.KI32
    ensures var c := EmitBranch(fn, t, s, e, ks); var ft := fn.insts[s].dest; var ks' := ks[..|ks| - 1];
      if OrShape(fn, s, e).Some? then
        var merge := OrShape(fn, s, e).value.mergeTarget;
        c == At(EmitOr(fn, t, s + 3, merge, ks'), merge)
      else if AndShape(fn, s, e).Some? then
        ft > s && c == At(EmitAnd(fn, t, s + 1, ft, ks'), ft + 1)
      else
        && s + 1 < ft <= e
        && (ShapeOfBranch(fn, t, ft, e).OnlyThen? ==> c == At(EmitIf(fn, t, s, ft, ks'), ft))
        && (ShapeOfBranch(fn, t, ft, e).ThenElse? ==>
              var merge := ShapeOfBranch(fn, t, ft, e).merge;
              ft < merge <= e && fn.insts[ft - 1] == Mir.Jump(merge)
                && c == At(EmitIfElse(fn, t, s, ft, merge, ks'), merge))
        && !ShapeOfBranch(fn, t, ft, e).BadShape?
  {
  }

  function EmitIf(fn: Mir.Function, t: Targets, s: nat, ft: nat, ks: Kinds): Emitted
    requires s + 1 < ft <= |fn.insts|
    decreases ft - s, 1
  {
    match EmitRange(fn, Nest(t), s + 1, ft, ks)
    case Err(err) => Err(err)
    case Ok(thn, ks1) => if |ks1| != |ks| then Err(BranchStackMismatch) else Ok([If(thn)], ks1)
  }

  function EmitIfElse(fn: Mir.Function, t: Targets, s: nat, ft: nat, merge: nat, ks: Kinds): Emitted
    requires s + 1 < ft < merge <= |fn.insts|
    decreases merge - s, 1
  {
    match EmitRange(fn, Nest(t), s + 1, ft - 1, ks)
    case Err(err) => Err(err)
    case Ok(thn, ks1) =>
      if |ks1| != |ks| then Err(BranchStackMismatch)
      else
        match EmitRange(fn, Nest(t), ft, merge, ks1)
        case Err(err) => Err(err)
        case Ok(els, ks2) =>
          if |ks2| != |ks| then Err(BranchStackMismatch) else Ok([Wasm.IfElse(None, thn, els)], ks2)
  }

  // ---- boolean expressions ------------------------------------------------------------

  function BoolConst(ks: Kinds, b: bool): Emitted {
    PushKind([I32Const(if b then 1 else 0)], ks, Mir.KI32)
  }

  /** The first conditional branch in [pc, end) with the given target, or with any target. */
  function FindBranch(fn: Mir.Function, pc: nat, end: nat, target: Option<nat>): (r: Option<nat>)
    requires end <= |fn.insts|
    ensures r.Some? ==> pc <= r.value < end && fn.insts[r.value].JumpIfFalse?
    ensures r.Some? && target.Some? ==> fn.insts[r.value].dest == target.value
    decreases end - pc
  {
    if pc >= end then None
    else if fn.insts[pc].JumpIfFalse? && (target.None? || fn.insts[pc].dest == target.value) then Some(pc)
    else FindBranch(fn, pc + 1, end, target)
  }

  /** Where the next operand of an `and` chain is tested. */
  function FindAndOperand(fn: Mir.Function, start: nat, ft: nat): (r: Option<nat>)
    requires ft <= |fn.insts|
    ensures r.Some? ==> start <= r.value && r.value + 1 < ft && fn.insts[r.value] == Mir.JumpIfFalse(ft)
  {
    var b := FindBranch(fn, start, ft, Some(ft));
    if b.None? || b.value + 1 >= ft then None else b
  }

  /** Where the next operand of an `or` chain is tested: the start of a diamond that joins at `merge`. */
  function FindOrOperand(fn: Mir.Function, start: nat, merge: nat): (r: Option<nat>)
    requires merge <= |fn.insts|
    ensures r.Some? ==> start <= r.value && r.value + 2 < merge && IsTruthArm(fn, r.value + 2)
    ensures r.Some? ==> fn.insts[r.value] == Mir.JumpIfFalse(r.value + 3) && fn.insts[r.value + 2] == Mir.Jump(merge)
  {
    var b := FindBranch(fn, start, merge, None);
    if b.None? || b.value + 2 >= merge then None
    else if fn.insts[b.value] == Mir.JumpIfFalse(b.value + 3) && fn.insts[b.value + 1] == Mir.PushBool(true)
            && fn.insts[b.value + 2] == Mir.Jump(merge) then b
    else None
  }

  predicate ArmOk(ks: Kinds, depth: nat) {
    |ks| == depth + 1 && ks[depth] == Mir.KI32
  }

  /** `if (result i32) thn else els end` on the operands `ks`. */
  function BoolIf(thn: Emitted, els: Emitted, depth: nat): Emitted {
    if thn.Err? then thn
    else if !ArmOk(thn.stack, depth) then Err(BooleanStackMismatch)
    else if els.Err? then els
    else if !ArmOk(els.stack, depth) then Err(BooleanStackMismatch)
    else Ok([Wasm.IfElse(Some(TI32), thn.code, els.code)], els.stack)
  }

  /** The operands the else arm starts from, as the then arm left them. */
  function ElseStack(thn: Emitted, depth: nat): Kinds {
    if thn.Ok? && |thn.stack| >= depth then thn.stack[..depth] else []
  }

  /** The condition of `and` chains has been popped; [start, ft) is the rest of the chain. */
  function EmitAnd(fn: Mir.Function, t: Targets, start: nat, ft: nat, ks: Kinds): Emitted
    requires ft <= |fn.insts|
    decreases if start < ft then ft - start else 0, 6
  {
    var thn := EmitAndTail(fn, t, start, ft, ks);
    BoolIf(thn, BoolConst(ElseStack(thn, |ks|), false), |ks|)
  }

  function EmitAndTail(fn: Mir.Function, t: Targets, start: nat, ft: nat, ks: Kinds): Emitted
    requires ft <= |fn.insts|
    decreases if start < ft then ft - start else 0, 5
  {
    if start + 2 == ft < |fn.insts| && fn.insts[start] == Mir.PushBool(true) && fn.insts[start + 1] == Mir.Jump(ft
      + 1) then
      BoolConst(ks, true)
    else
      var b := FindAndOperand(fn, start, ft);
      if b.None? then Err(BooleanShape)
      else
        match EmitRange(fn, t, start, b.value, ks)
        case Err(err) => Err(err)
        case Ok(cond, ks1) =>
          if |ks1| == 0 || ks1[|ks1| - 1] != Mir.KI32 then Err(ConditionMismatch)
          else
            match EmitAnd(fn, t, b.value + 1, ft, ks1[..|ks1| - 1])
            case Err(err) => Err(err)
            case Ok(code, ks2) => Ok(cond + code, ks2)
  }

  /** The condition of an `or` chain has been popped; [start, merge) is the rest of the chain. */
  function EmitOr(fn: Mir.Function, t: Targets, start: nat, merge: nat, ks: Kinds): Emitted
    requires merge <= |fn.insts|
    decreases if start < merge then merge - start else 0, 6
  {
    var thn := BoolConst(ks, true);
    BoolIf(thn, EmitOrRange(fn, t, start, merge, ElseStack(thn, |ks|)), |ks|)
  }

  function EmitOrRange(fn: Mir.Function, t: Targets, start: nat, merge: nat, ks: Kinds): Emitted
    requires merge <= |fn.insts|
    decreases if start < merge then merge - start else 0, 5
  {
    if start + 1 == merge && fn.insts[start] == Mir.PushBool(false) then BoolConst(ks, false)
    else
      var b := FindOrOperand(fn, start, merge);
      if b.None? then Err(BooleanShape)
      else
        match EmitRange(fn, t, start, b.value, ks)
        case Err(err) => Err(err)
        case Ok(cond, ks1) =>
          if |ks1| == 0 || ks1[|ks1| - 1] != Mir.KI32 then Err(ConditionMismatch)
          else
            match EmitOr(fn, t, b.value + 3, merge, ks1[..|ks1| - 1])
            case Err(err) => Err(err)
            case Ok(code, ks2) => Ok(cond + code, ks2)
  }

  /** The last two instructions of an `and` chain: all operands were true. */
  predicate IsAndEnd(fn: Mir.Function, start: nat, ft: nat) {
    start + 2 == ft < |fn.insts| && fn.insts[start] == Mir.PushBool(true) && fn.insts[start + 1] == Mir.Jump(ft + 1)
  }

  lemma AndParts(fn: Mir.Function, t: Targets, start: nat, ft: nat, ks: Kinds)
    requires ft <= |fn.insts| && EmitAnd(fn, t, start, ft, ks).Ok?
    ensures var thn := EmitAndTail(fn, t, start, ft, ks);
      thn.Ok? && ArmOk(thn.stack, |ks|)
        && EmitAnd(fn, t, start, ft, ks).code == [Wasm.IfElse(Some(TI32), thn.code, [I32Const(0)])]
  {
  }

  /** The pieces of an emitted `and` operand that is not the last. */
  lemma AndTailParts(fn: Mir.Function, t: Targets, start: nat, ft: nat, ks: Kinds)
    requires ft <= |fn.insts| && EmitAndTail(fn, t, start, ft, ks).Ok?
    ensures IsAndEnd(fn, start, ft) ==> EmitAndTail(fn, t, start, ft, ks).code == [I32Const(1)]
    ensures !IsAndEnd(fn, start, ft) ==> FindAndOperand(fn, start, ft).Some?
    ensures !IsAndEnd(fn, start, ft) ==> (
      var b := FindAndOperand(fn, start, ft).value;
      var cond := EmitRange(fn, t, start, b, ks);
      && cond.Ok? && |cond.stack| > 0 && cond.stack[|cond.stack| - 1] == Mir.KI32
      && var rest := EmitAnd(fn, t, b + 1, ft, cond.stack[..|cond.stack| - 1]);
         rest.Ok? && EmitAndTail(fn, t, start, ft, ks) == Ok(cond.code + rest.code, rest.stack))
  {
  }

  predicate IsOrEnd(fn: Mir.Function, start: nat, merge: nat)
    requires merge <= |fn.insts|
  {
    start + 1 == merge && fn.insts[start] == Mir.PushBool(false)
  }

  /** The pieces of an emitted `or` operand that is not the last. */
  lemma OrRangeParts(fn: Mir.Function, t: Targets, start: nat, merge: nat, ks: Kinds)
    requires merge <= |fn.insts| && EmitOrRange(fn, t, start, merge, ks).Ok? && !IsOrEnd(fn, start, merge)
    ensures FindOrOperand(fn, start, merge).Some?
    ensures var b := FindOrOperand(fn, start, merge).value;
      var cond := EmitRange(fn, t, start, b, ks);
      && cond.Ok? && |cond.stack| > 0 && cond.stack[|cond.stack| - 1] == Mir.KI32
      && var rest := EmitOr(fn, t, b + 3, merge, cond.stack[..|cond.stack| - 1]);
         rest.Ok? && EmitOrRange(fn, t, start, merge, ks) == Ok(cond.code + rest.code, rest.stack)
  {
  }

  lemma OrParts(fn: Mir.Function, t: Targets, start: nat, merge: nat, ks: Kinds)
    requires merge <= |fn.insts| && EmitOr(fn, t, start, merge, ks).Ok?
    ensures var els := EmitOrRange(fn, t, start, merge, ks);
      els.Ok? && ArmOk(els.stack, |ks|)
      && EmitOr(fn, t, start, merge, ks) == Ok([Wasm.IfElse(Some(TI32), [I32Const(1)], els.code)], els.stack)
  {
    assert (ks + [Mir.KI32])[..|ks|] == ks;
  }

  /** The body of the whole function, without its final `end`. */
  function EmitBody(fn: Mir.Function): Emitted {
    var code := EmitRange(fn, NO_TARGETS, 0, |fn.insts|, []);
    if fn.frame.None? || code.Err? then code else code.(code := Prologue(fn) + code.code)
  }
}
