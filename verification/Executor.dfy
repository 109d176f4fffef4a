/**
 * The const evaluator: the same MIR run on dynamically typed values. Its integers are 64 bits wide
 * whatever their declared width, its arithmetic refuses to overflow instead of wrapping, and its
 * strings are byte sequences. A refusal means "not a constant"; it says nothing about the program.
 */
module Executor {
  import opened Words
  import M = Mir

  /** `Invalid` is a local that was not stored to, and the result of a function that has none. */
  datatype Value = Int(n: I64) | Bool(b: bool) | Str(bytes: seq<Byte>) | Null | Invalid

  /** What a cast turns its operand into; the backend looks at the type of the result only. */
  datatype Goal = ToInt | ToBool | ToPointer | ToView

  type Trace = seq<(nat, seq<Value>)>

  /**
   * What the evaluator takes from outside: the goal of each cast, the zero of each local, the bytes
   * of string constants, the functions called, and the capacity of the operand stack. The hook that
   * coerces a value to a declared type keeps integers, booleans and strings as they are.
   */
  datatype Env = Env(
    goals: nat -> Goal,
    zeros: nat -> Option<Value>,
    text: (I32, I32) -> seq<Byte>,
    calls: (Trace, nat, seq<Value>) -> Option<Value>,
    capacity: nat)

  datatype State = State(locals: seq<Value>, trace: Trace)

  // ---- operators ---------------------------------------------------------------------------------

  /** `Fault` is division by zero, or the one quotient that does not exist; `Unknown` is a refusal. */
  datatype Arith = Gives(value: Value) | Fault | Unknown

  function Checked(n: int): Arith {
    if IsI64(n) then Gives(Int(n)) else Unknown
  }

  function IntOp(tok: M.Token, a: I64, b: I64): Arith {
    if M.IsComparison(tok) then Gives(Bool(M.Compare(tok, a, b)))
    else match tok
    case Add => Checked(a + b)
    case Sub => Checked(a - b)
    case Mul => Checked(Times(a, b))
    case Div => if b == 0 || (a == -TWO63 && b == -1) then Fault else Checked(TruncDiv(a, b))
    case Mod => if b == 0 then Fault else if a == -TWO63 && b == -1 then Unknown else Checked(TruncRem(a, b))
    case And => Gives(Int(Wrap64(AndBits(a % TWO64, b % TWO64))))
    case _ => Unknown
  }

  predicate IsEquality(tok: M.Token) { tok == M.Eq || tok == M.Neq }

  function Binary(tok: M.Token, a: Value, b: Value): Arith {
    match (a, b)
    case (Int(x), Int(y)) => IntOp(tok, x, y)
    case (Bool(x), Bool(y)) => if IsEquality(tok) then Gives(Bool((x == y) == (tok == M.Eq))) else Unknown
    case (Str(x), Str(y)) => if IsEquality(tok) then Gives(Bool((x == y) == (tok == M.Eq))) else Unknown
    case _ =>
      if IsEquality(tok) && (a.Null? || b.Null?) && !a.Str? && !b.Str? then Gives(Bool((a == b) == (tok == M.Eq)))
      else Unknown
  }

  function Unary(tok: M.Token, a: Value): Arith {
    match (tok, a)
    case (Add, Int(_)) => Gives(a)
    case (Sub, Int(x)) => Checked(0 - x)
    case (Not, Bool(x)) => Gives(Bool(!x))
    case _ => Unknown
  }

  function Truth(a: Value): Option<bool> {
    match a
    case Int(x) => Some(x != 0)
    case Bool(x) => Some(x)
    case Str(_) => Some(true)
    case Null => Some(false)
    case Invalid => None
  }

  function Cast(goal: Goal, a: Value): Option<Value> {
    match goal
    case ToInt =>
      (match a
       case Int(_) => Some(a)
       case Bool(x) => Some(Int(if x then 1 else 0))
       case Null => Some(Int(0))
       case _ => None)
    case ToBool => if Truth(a).None? then None else Some(Bool(Truth(a).value))
    case ToPointer => if a.Null? || a.Str? then Some(a) else None
    case ToView => Some(a)
  }

  // ---- one step --------------------------------------------------------------------------------

  /** `Failed` is an assertion that does not hold, or a division that does not exist. */
  datatype StepResult =
    | Next(pc: nat, stack: seq<Value>, st: State)
    | Done(result: Option<Value>, st: State)
    | Failed(st: State)
    | Refused

  function Push(env: Env, pc: nat, stack: seq<Value>, v: Value, st: State): StepResult {
    if |stack| >= env.capacity then Refused else Next(pc + 1, stack + [v], st)
  }

  function PushArith(env: Env, pc: nat, stack: seq<Value>, a: Arith, st: State): StepResult {
    match a
    case Gives(v) => Push(env, pc, stack, v, st)
    case Fault => Failed(st)
    case Unknown => Refused
  }

  function PushIfSome(env: Env, pc: nat, stack: seq<Value>, v: Option<Value>, st: State): StepResult {
    if v.None? then Refused else Push(env, pc, stack, v.value, st)
  }

  function StepCall(fn: M.Function, env: Env, f: nat, argc: nat, pc: nat, stack: seq<Value>, st: State): StepResult {
    if f >= |fn.sigs| || argc > |stack| then Refused
    else
      var args := stack[|stack| - argc..];
      PushIfSome(env, pc, stack[..|stack| - argc], env.calls(st.trace, f, args), st.(trace := st.trace + [(f, args)]))
  }

  function Step(fn: M.Function, env: Env, pc: nat, stack: seq<Value>, st: State): StepResult
    requires pc < |fn.insts|
  {
    var n := |stack|;
    match fn.insts[pc]
    case PushInt(bits) => if IsI64(bits) then Push(env, pc, stack, Int(bits), st) else Refused
    case PushBool(b) => Push(env, pc, stack, Bool(b), st)
    case PushNull => Push(env, pc, stack, Null, st)
    case PushString(p, l) => Push(env, pc, stack, Str(env.text(p, l)), st)
    case Unary(tok) => if n < 1 then Refused else PushArith(env, pc, stack[..n - 1], Unary(tok, stack[n - 1]), st)
    case Binary(tok) =>
      if n < 2 then Refused else PushArith(env, pc, stack[..n - 2], Binary(tok, stack[n - 2], stack[n - 1]), st)
    case Cast(_) => if n < 1 then Refused
      else PushIfSome(env, pc, stack[..n - 1], Cast(env.goals(pc), stack[n - 1]), st)
    case LocalLoad(i) => if i >= |st.locals| then Refused else Push(env, pc, stack, st.locals[i], st)
    case LocalStore(i) =>
      if i >= |st.locals| || n < 1 then Refused
      else Next(pc + 1, stack[..n - 1], st.(locals := st.locals[i := stack[n - 1]]))
    case LocalZero(i) =>
      if i >= |st.locals| || env.zeros(i).None? then Refused
      else Next(pc + 1, stack, st.(locals := st.locals[i := env.zeros(i).value]))
    case Drop => if n < 1 then Refused else Next(pc + 1, stack[..n - 1], st)
    case Assert =>
      if n < 1 || Truth(stack[n - 1]).None? then Refused
      else if !Truth(stack[n - 1]).value then Failed(st)
      else Next(pc + 1, stack[..n - 1], st)
    case CallFn(f, argc) => StepCall(fn, env, f, argc, pc, stack, st)
    case Jump(t) => if t >= |fn.insts| then Refused else Next(t, stack, st)
    case JumpIfFalse(t) =>
      if t >= |fn.insts| || n < 1 || Truth(stack[n - 1]).None? then Refused
      else Next(if Truth(stack[n - 1]).value then pc + 1 else t, stack[..n - 1], st)
    case Return => if n != 1 then Refused else Done(Some(stack[0]), st)
    case ReturnVoid => Done(None, st)
  }

  // ---- runs ------------------------------------------------------------------------------------

  /** `NoConstant` is a refusal, or running off the end. */
  datatype Outcome =
    | Evaluated(result: Option<Value>, st: State)
    | Faulty(st: State)
    | NoConstant
    | Unfinished

  /** At most `n + 1` steps. */
  function Run(fn: M.Function, env: Env, n: nat, pc: nat, stack: seq<Value>, st: State): Outcome {
    if pc >= |fn.insts| then NoConstant
    else
      match Step(fn, env, pc, stack, st)
      case Next(pc', stack', st') =>
        if pc' >= |fn.insts| then NoConstant
        else if n == 0 then Unfinished
        else Run(fn, env, n - 1, pc', stack', st')
      case Done(v, st') => Evaluated(v, st')
      case Failed(st') => Faulty(st')
      case Refused => NoConstant
  }
}
