/**
 * The MIR of one function whose locals and operands are 32-bit integers, 64-bit integers and
 * string references. `Step` is a flat machine at these widths: it wraps where WebAssembly
 * wraps and traps where it traps (what the interpreter's own arithmetic has to do with it is
 * said in `Executor`). `Run` is that machine confined to a range of program counters and to a
 * budget of backward jumps.
 */
module Mir {
  import opened Words
  import opened Memory

  /** Value kinds of frame-free functions. A string reference is a pointer and a length. */
  datatype Kind = KI32 | KI64 | KStr

  datatype Value = MI32(i32: I32) | MI64(i64: I64) | MStr(ptr: I32, len: I32)

  datatype Token =
    Add | Sub | Mul | Div | Mod | And | Eq | Neq | Lt | Gt | Lte | Gte | Not | OtherToken

  datatype Inst =
    | PushInt(bits: int)
    | PushBool(flag: bool)
    | PushNull
    | PushString(ptr: I32, len: I32)
    | Unary(tok: Token)
    | Binary(tok: Token)
    | Cast(target: Kind)
    | LocalLoad(slot: nat)
    | LocalStore(slot: nat)
    | LocalZero(slot: nat)
    | Drop
    | Assert
    | CallFn(callee: nat, argc: nat)
    | Jump(dest: nat)
    | JumpIfFalse(dest: nat)
    | Return
    | ReturnVoid

  datatype Signature = Signature(params: seq<Kind>, result: Option<Kind>)

  /** Where a function keeps its locals in linear memory, when it does: the number of its
      parameters, each local's offset, the frame's size, and the global with the frame pointer. */
  datatype Frame = Frame(params: nat, offsets: seq<nat>, size: nat, pointer: nat)

  /** `localKinds` lists the parameters first; `sigs` are the callable functions. */
  datatype Function = Function(
    insts: seq<Inst>,
    localKinds: seq<Kind>,
    sigs: seq<Signature>,
    result: Option<Kind>,
    frame: Option<Frame>)

  type Trace = seq<(nat, seq<Value>)>

  /** What callees do. `reply` is the answer, given everything called before: None is a trap inside
      the callee, otherwise the payload of its result, read at the kind its signature declares.
      `effect` is what the call leaves in memory and globals, which flat code never looks at. */
  datatype Callees = Callees(
    reply: (Trace, nat, seq<Value>) -> Option<(int, int)>,
    effect: (Store, Trace, nat, seq<Value>) -> Store)

  /** Callees that leave the frames of their callers alone. */
  type Oracle = c: Callees | LeavesFrames(c) ghost witness Callees((t, f, a) => None, (s, t, f, a) => s)

  ghost predicate LeavesFrames(c: Callees) {
    forall s, t, f, a :: KeepsFrames(s, c.effect(s, t, f, a))
  }

  /** `fuel` is how many backward jumps may still be taken. */
  datatype State = State(locals: seq<Value>, trace: Trace, fuel: nat)

  // ---- values -------------------------------------------------------------------------

  function KindOf(v: Value): Kind {
    match v
    case MI32(_) => KI32
    case MI64(_) => KI64
    case MStr(_, _) => KStr
  }

  function KindsOf(vs: seq<Value>): (ks: seq<Kind>)
    ensures |ks| == |vs|
    ensures forall i :: 0 <= i < |vs| ==> ks[i] == KindOf(vs[i])
  {
    seq(|vs|, i requires 0 <= i < |vs| => KindOf(vs[i]))
  }

  function ZeroOf(k: Kind): Value {
    match k
    case KI32 => MI32(0)
    case KI64 => MI64(0)
    case KStr => MStr(0, 0)
  }

  function ValueOf(k: Kind, payload: (int, int)): Value {
    match k
    case KI32 => MI32(Wrap32(payload.0))
    case KI64 => MI64(Wrap64(payload.0))
    case KStr => MStr(Wrap32(payload.0), Wrap32(payload.1))
  }

  /** A value of kind `from` is accepted where `to` is expected: unchanged, or widened. */
  predicate Coercible(from: Kind, to: Kind) {
    from == to || (from == KI32 && to == KI64)
  }

  function Coerce(v: Value, to: Kind): Value
    requires Coercible(KindOf(v), to)
  {
    if KindOf(v) == to then v else MI64(v.i32)
  }

  // ---- arithmetic ---------------------------------------------------------------------

  datatype Arith = Result(value: Value) | Undefined | Unsupported

  function BoolValue(b: bool): Value {
    MI32(if b then 1 else 0)
  }

  predicate IsComparison(tok: Token) {
    tok in {Eq, Neq, Lt, Gt, Lte, Gte}
  }

  predicate Compare(tok: Token, a: int, b: int) {
    match tok
    case Eq => a == b
    case Neq => a != b
    case Lt => a < b
    case Gt => a > b
    case Lte => a <= b
    case _ => a >= b
  }

  function Binary32(tok: Token, a: I32, b: I32): Arith {
    if IsComparison(tok) then Result(BoolValue(Compare(tok, a, b)))
    else match tok
    case Add => Result(MI32(Wrap32(a + b)))
    case Sub => Result(MI32(Wrap32(a - b)))
    case Mul => Result(MI32(Wrap32(Times(a, b))))
    case Div => if b == 0 || (a == -TWO31 && b == -1) then Undefined else Result(MI32(Wrap32(TruncDiv(a, b))))
    case Mod => if b == 0 then Undefined else Result(MI32(Wrap32(TruncRem(a, b))))
    case And => Result(MI32(Wrap32(AndBits(a % TWO32, b % TWO32))))
    case _ => Unsupported
  }

  function Binary64(tok: Token, a: I64, b: I64): Arith {
    if IsComparison(tok) then Result(BoolValue(Compare(tok, a, b)))
    else match tok
    case Add => Result(MI64(Wrap64(a + b)))
    case Sub => Result(MI64(Wrap64(a - b)))
    case Mul => Result(MI64(Wrap64(Times(a, b))))
    case Div => if b == 0 || (a == -TWO63 && b == -1) then Undefined else Result(MI64(Wrap64(TruncDiv(a, b))))
    case Mod => if b == 0 then Undefined else Result(MI64(Wrap64(TruncRem(a, b))))
    case And => Result(MI64(Wrap64(AndBits(a % TWO64, b % TWO64))))
    case _ => Unsupported
  }

  /** A 32-bit right operand is widened to a 64-bit left operand. Strings compare by content,
      which this machine does not see. */
  function BinaryOp(tok: Token, a: Value, b: Value): Arith {
    match (a, b)
    case (MI32(x), MI32(y)) => Binary32(tok, x, y)
    case (MI64(x), MI64(y)) => Binary64(tok, x, y)
    case (MI64(x), MI32(y)) => Binary64(tok, x, y)
    case _ => Unsupported
  }

  function UnaryOp(tok: Token, a: Value): Arith {
    match (tok, a)
    case (Add, MI32(_)) => Result(a)
    case (Add, MI64(_)) => Result(a)
    case (Not, MI32(x)) => Result(BoolValue(x == 0))
    case (Not, MI64(x)) => Result(BoolValue(x == 0))
    case (Sub, MI32(x)) => Result(MI32(Wrap32(0 - x)))
    case (Sub, MI64(x)) => Result(MI64(Wrap64(0 - x)))
    case _ => Unsupported
  }

  function CastTo(v: Value, k: Kind): Option<Value> {
    match (v, k)
    case (MI32(_), KI32) => Some(v)
    case (MI64(_), KI64) => Some(v)
    case (MI32(x), KI64) => Some(MI64(x))
    case (MI64(x), KI32) => Some(MI32(Wrap32(x)))
    case _ => None
  }

  // ---- the flat machine ---------------------------------------------------------------

  /** One step either goes on at `pc`, or ends the run. `Faulted` is a step that cannot be taken. */
  datatype StepResult =
    | Goto(pc: nat, stack: seq<Value>, st: State)
    | Returned(result: Option<Value>, st: State)
    | Trapped(st: State)
    | Faulted

  function FromArith(a: Arith, pc: nat, rest: seq<Value>, st: State): StepResult {
    match a
    case Result(v) => Goto(pc + 1, rest + [v], st)
    case Undefined => Trapped(st)
    case Unsupported => Faulted
  }

  predicate ArgsCoercible(args: seq<Value>, params: seq<Kind>) {
    |args| == |params| && forall i :: 0 <= i < |args| ==> Coercible(KindOf(args[i]), params[i])
  }

  function CoerceAll(args: seq<Value>, params: seq<Kind>): (r: seq<Value>)
    requires ArgsCoercible(args, params)
    ensures |r| == |params|
    ensures forall i :: 0 <= i < |params| ==> r[i] == Coerce(args[i], params[i])
  {
    seq(|params|, i requires 0 <= i < |params| => Coerce(args[i], params[i]))
  }

  function StepCall(fn: Function, oracle: Oracle, callee: nat, argc: nat, pc: nat, stack: seq<Value>,
      st: State): StepResult {
    if callee >= |fn.sigs| || argc > |stack| || !ArgsCoercible(stack[|stack| - argc..], fn.sigs[callee].params) then
      Faulted
    else
      var args := CoerceAll(stack[|stack| - argc..], fn.sigs[callee].params);
      var rest := stack[..|stack| - argc];
      var st' := st.(trace := st.trace + [(callee, args)]);
      match oracle.reply(st.trace, callee, args)
      case None => Trapped(st')
      case Some(payload) =>
        Goto(pc + 1, rest + (match fn.sigs[callee].result case None => [] case Some(k) => [ValueOf(k, payload)]), st')
  }

  /** Instructions that fall through to the next one. */
  function StepSimple(fn: Function, oracle: Oracle, inst: Inst, pc: nat, stack: seq<Value>, st: State): StepResult {
    var n := |stack|;
    match inst
    case PushInt(bits) => if IsI32(bits) then Goto(pc + 1, stack + [MI32(bits)], st) else Faulted
    case PushBool(b) => Goto(pc + 1, stack + [BoolValue(b)], st)
    case PushNull => Goto(pc + 1, stack + [MI32(0)], st)
    case PushString(p, l) => Goto(pc + 1, stack + [MStr(p, l)], st)
    case Unary(tok) =>
      if n < 1 then Faulted else FromArith(UnaryOp(tok, stack[n - 1]), pc, stack[..n - 1], st)
    case Binary(tok) =>
      if n < 2 then Faulted else FromArith(BinaryOp(tok, stack[n - 2], stack[n - 1]), pc, stack[..n - 2], st)
    case Cast(k) =>
      if n < 1 then Faulted
      else (match CastTo(stack[n - 1], k)
            case None => Faulted
            case Some(v) => Goto(pc + 1, stack[..n - 1] + [v], st))
    case LocalLoad(i) =>
      if i >= |st.locals| then Faulted else Goto(pc + 1, stack + [st.locals[i]], st)
    case LocalStore(i) =>
      if i >= |st.locals| || i >= |fn.localKinds| || n < 1 || !Coercible(KindOf(stack[n - 1]), fn.localKinds[i]) then
        Faulted
      else Goto(pc + 1, stack[..n - 1], st.(locals := st.locals[i := Coerce(stack[n - 1], fn.localKinds[i])]))
    case LocalZero(i) =>
      if i >= |st.locals| || i >= |fn.localKinds| then Faulted
      else Goto(pc + 1, stack, st.(locals := st.locals[i := ZeroOf(fn.localKinds[i])]))
    case Drop =>
      if n < 1 then Goto(pc + 1, stack, st) else Goto(pc + 1, stack[..n - 1], st)
    case Assert =>
      if n < 1 || !stack[n - 1].MI32? then Faulted
      else if stack[n - 1].i32 == 0 then Trapped(st)
      else Goto(pc + 1, stack[..n - 1], st)
    case CallFn(f, argc) => StepCall(fn, oracle, f, argc, pc, stack, st)
    case _ => Faulted
  }

  predicate IsControl(inst: Inst) {
    inst.Jump? || inst.JumpIfFalse? || inst.Return? || inst.ReturnVoid?
  }

  /** One step of the flat machine at `pc`; the budget of backward jumps is not looked at. */
  function Step(fn: Function, oracle: Oracle, pc: nat, stack: seq<Value>, st: State): StepResult
    requires pc < |fn.insts|
  {
    match fn.insts[pc]
    case Jump(t) => if t >= |fn.insts| then Faulted else Goto(t, stack, st)
    case JumpIfFalse(t) =>
      if t >= |fn.insts| || |stack| < 1 || !stack[|stack| - 1].MI32? then Faulted
      else Goto(if stack[|stack| - 1].i32 == 0 then t else pc + 1, stack[..|stack| - 1], st)
    case Return =>
      if |stack| != 1 || fn.result.None? || !Coercible(KindOf(stack[0]), fn.result.value) then Faulted
      else Returned(Some(Coerce(stack[0], fn.result.value)), st)
    case ReturnVoid => Returned(None, st)
    case inst => StepSimple(fn, oracle, inst, pc, stack, st)
  }

  lemma StepKeepsFuel(fn: Function, oracle: Oracle, pc: nat, stack: seq<Value>, st: State)
    requires pc < |fn.insts|
    ensures Step(fn, oracle, pc, stack, st).Goto? ==> Step(fn, oracle, pc, stack, st).st.fuel == st.fuel
  {
  }

  datatype Outcome =
    | Exit(pc: nat, stack: seq<Value>, st: State)
    | Finished(result: Option<Value>, st: State)
    | Crashed(st: State)
    | OutOfFuel(st: State)
    | Refused

  /**
   * Runs from `pc` until a step leaves [lo, hi). A step to a program counter that is not
   * larger than the current one is a backward jump and costs one unit of fuel; the step
   * that leaves is not charged. `pc` itself may lie below `lo`.
   */
  function Run(fn: Function, oracle: Oracle, lo: nat, hi: nat, pc: nat, stack: seq<Value>, st: State): Outcome
    requires hi <= |fn.insts|
    decreases st.fuel, if pc < hi then hi - pc else 0
  {
    if pc >= hi then Exit(pc, stack, st)
    else
      match Step(fn, oracle, pc, stack, st)
      case Returned(v, st') => Finished(v, st')
      case Trapped(st') => Crashed(st')
      case Faulted => Refused
      case Goto(pc', stack', st') =>
        StepKeepsFuel(fn, oracle, pc, stack, st);
        if pc' < lo || pc' >= hi then Exit(pc', stack', st')
        else if pc' > pc then Run(fn, oracle, lo, hi, pc', stack', st')
        else if st'.fuel == 0 then OutOfFuel(st')
        else Run(fn, oracle, lo, hi, pc', stack', st'.(fuel := st'.fuel - 1))
  }

  /** What a run of [lo, hi) does after a part of it, whose lowest program counter is `a`, exits. */
  function Resume(fn: Function, oracle: Oracle, lo: nat, hi: nat, a: nat, o: Outcome): Outcome
    requires hi <= |fn.insts|
  {
    match o
    case Exit(q, stack, st) =>
      if q < lo || q >= hi then o
      else if q >= a then Run(fn, oracle, lo, hi, q, stack, st)
      else if st.fuel == 0 then OutOfFuel(st)
      else Run(fn, oracle, lo, hi, q, stack, st.(fuel := st.fuel - 1))
    case _ => o
  }

  /** A run of a range can be cut at the exit of any part of it. */
  lemma {:induction false} RunSplits(fn: Function, oracle: Oracle, lo: nat, hi: nat, a: nat, b: nat, pc: nat,
      stack: seq<Value>, st: State)
    requires lo <= a && b <= hi <= |fn.insts| && a <= pc + 1 && pc < b
    ensures Run(fn, oracle, lo, hi, pc, stack, st)
         == Resume(fn, oracle, lo, hi, a, Run(fn, oracle, a, b, pc, stack, st))
    decreases st.fuel, hi - pc
  {
    match Step(fn, oracle, pc, stack, st)
    case Goto(pc', stack', st') =>
      StepKeepsFuel(fn, oracle, pc, stack, st);
      if a <= pc' < b {
        if pc' > pc {
          RunSplits(fn, oracle, lo, hi, a, b, pc', stack', st');
        } else if st'.fuel > 0 {
          RunSplits(fn, oracle, lo, hi, a, b, pc', stack', st'.(fuel := st'.fuel - 1));
        }
      }
    case _ =>
  }
}
