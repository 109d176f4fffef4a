/**
 * Every instruction that falls through is simulated by the code emitted for it: same operands,
 * same locals, same calls, or a trap on both sides.
 */
module Straightline {
  import opened Words
  import M = Mir
  import W = Wasm
  import opened StackMap
  import opened Emitter
  import opened Slots
  import opened FrameSlots

  ghost predicate StatesMatch(fn: M.Function, st: M.State, w: W.State) {
    Held(fn, st.locals, w) && w.trace == st.trace && w.fuel == st.fuel
  }

  /** The flat step `m` above the operands `base`, and the outcome `w` of the emitted code in a
      block entered on top of them, are the same step to `pc` with operand kinds `ks`. */
  ghost predicate Agree(fn: M.Function, base: seq<M.Value>, ks: Kinds, pc: nat, m: M.StepResult, w: W.Outcome) {
    match m
    case Goto(pc', stack, st) =>
      pc' == pc && base <= stack && M.KindsOf(stack) == ks
      && w.Normal? && w.stack == W.Expand(stack[|base|..]) && StatesMatch(fn, st, w.st)
    case Trapped(st) => w.Trap? && w.st.trace == st.trace && w.st.fuel == st.fuel
    case _ => false
  }

  lemma ExecOne(host: W.Host, i: W.Instr, stack: seq<W.Value>, st: W.State)
    ensures W.Exec(host, [i], stack, st) == W.ExecInstr(host, i, stack, st)
  {
    assert [i][1..] == [];
  }

  lemma ExecThen(host: W.Host, a: seq<W.Instr>, b: seq<W.Instr>, stack: seq<W.Value>, st: W.State,
      stack': seq<W.Value>, st': W.State)
    requires W.Exec(host, a, stack, st) == W.Normal(stack', st')
    ensures W.Exec(host, a + b, stack, st) == W.Exec(host, b, stack', st')
  {
    W.ExecConcat(host, a, b, stack, st);
  }

  lemma ExecTwo(host: W.Host, i: W.Instr, j: W.Instr, stack: seq<W.Value>, st: W.State)
    ensures var o := W.ExecInstr(host, i, stack, st);
      W.Exec(host, [i, j], stack, st) == if o.Normal? then W.ExecInstr(host, j, o.stack, o.st) else o
  {
    assert [i, j] == [i] + [j];
    W.ExecConcat(host, [i], [j], stack, st);
    ExecOne(host, i, stack, st);
    var o := W.ExecInstr(host, i, stack, st);
    if o.Normal? {
      ExecOne(host, j, o.stack, o.st);
    }
  }

  // ---- arithmetic -----------------------------------------------------------------------

  /** A binary numeric instruction computes what the operator means, or traps when it is undefined. */
  ghost predicate SameArith(m: M.Arith, w: W.NumResult) {
    match m
    case Result(v) => w.Value? && W.Slots(v) == [w.v]
    case Undefined => w.NumTrap?
    case Unsupported => false
  }

  lemma Opcode32Correct(tok: M.Token, a: I32, b: I32)
    requires IsArithmetic(tok)
    ensures Opcode32(tok).Some? && !W.IsUnop(Opcode32(tok).value)
    ensures SameArith(M.Binary32(tok, a, b), W.I32Binop(Opcode32(tok).value, a, b))
  {
  }

  lemma Opcode64Correct(tok: M.Token, a: I64, b: I64)
    requires IsArithmetic(tok) && (M.IsComparison(tok) ==> tok == M.Eq || tok == M.Neq)
    ensures Opcode64(tok).Some? && !W.IsUnop(Opcode64(tok).value)
    ensures SameArith(M.Binary64(tok, a, b), W.I64Binop(Opcode64(tok).value, a, b))
  {
  }

  /**
   * The emitted opcodes of the 64-bit order comparisons are each one place too far in the opcode
   * table: `<` computes `>`, `>` computes `<=`, `<=` computes `>=`, and `>=` is not an integer
   * instruction at all. So the emitted comparison is right exactly on these operands.
   */
  lemma Ordering64(tok: M.Token, a: I64, b: I64)
    requires tok in {M.Lt, M.Gt, M.Lte, M.Gte}
    ensures SameArith(M.Binary64(tok, a, b), W.I64Binop(Opcode64(tok).value, a, b))
       <==> a == b && (tok == M.Lt || tok == M.Lte)
  {
  }

  // ---- one lemma per group of instructions ------------------------------------------------

  /** Reads a value from the locals and pushes it. */
  lemma ReadLocalCorrect(host: W.Host, v: M.Value, index: nat, stack: seq<W.Value>, st: W.State)
    requires index + |W.Slots(v)| <= |st.locals| && st.locals[index..index + |W.Slots(v)|] == W.Slots(v)
    ensures W.Exec(host, ReadLocal(M.KindOf(v), index), stack, st) == W.Normal(stack + W.Slots(v), st)
  {
    var s := st.locals[index..index + |W.Slots(v)|];
    assert s[0] == st.locals[index];
    if v.MStr? {
      assert s[1] == st.locals[index + 1];
      ExecTwo(host, W.LocalGet(index), W.LocalGet(index + 1), stack, st);
      assert stack + [s[0]] + [s[1]] == stack + s;
    } else {
      ExecOne(host, W.LocalGet(index), stack, st);
    }
  }

  lemma WriteWord(host: W.Host, index: nat, x: W.Value, stack: seq<W.Value>, st: W.State)
    requires index < |st.locals|
    ensures W.Exec(host, [W.LocalSet(index)], stack + [x], st)
      == W.Normal(stack, st.(locals := st.locals[index := x]))
  {
    ExecOne(host, W.LocalSet(index), stack + [x], st);
    assert (stack + [x])[..|stack|] == stack;
  }

  lemma WritePair(host: W.Host, index: nat, x: W.Value, y: W.Value, stack: seq<W.Value>, st: W.State)
    requires index + 1 < |st.locals|
    ensures W.Exec(host, [W.LocalSet(index + 1), W.LocalSet(index)], stack + [x] + [y], st)
      == W.Normal(stack, st.(locals := st.locals[index + 1 := y][index := x]))
  {
    hide W.Exec, W.ExecInstr;
    var st1 := st.(locals := st.locals[index + 1 := y]);
    WriteWord(host, index + 1, y, stack + [x], st);
    WriteWord(host, index, x, stack, st1);
    ExecThen(host, [W.LocalSet(index + 1)], [W.LocalSet(index)], stack + [x] + [y], st, stack + [x], st1);
    assert [W.LocalSet(index + 1)] + [W.LocalSet(index)] == [W.LocalSet(index + 1), W.LocalSet(index)];
  }

  /** Pops a value into the locals. */
  lemma WriteLocalCorrect(host: W.Host, v: M.Value, index: nat, stack: seq<W.Value>, st: W.State)
    requires index + |W.Slots(v)| <= |st.locals|
    ensures W.Exec(host, WriteLocal(M.KindOf(v), index), stack + W.Slots(v), st)
      == W.Normal(stack, st.(locals := st.locals[..index] + W.Slots(v) + st.locals[index + |W.Slots(v)|..]))
  {
    hide W.Exec, W.ExecInstr;
    var after := st.locals[..index] + W.Slots(v) + st.locals[index + |W.Slots(v)|..];
    if v.MStr? {
      WritePair(host, index, W.I32V(v.ptr), W.I32V(v.len), stack, st);
      assert stack + [W.I32V(v.ptr)] + [W.I32V(v.len)] == stack + W.Slots(v);
      assert st.locals[index + 1 := W.I32V(v.len)][index := W.I32V(v.ptr)] == after;
    } else {
      WriteWord(host, index, W.Slots(v)[0], stack, st);
      assert st.locals[index := W.Slots(v)[0]] == after;
    }
  }

  lemma AdaptCorrect(host: W.Host, v: M.Value, to: M.Kind, stack: seq<W.Value>, st: W.State)
    requires M.Coercible(M.KindOf(v), to)
    ensures M.KindOf(M.Coerce(v, to)) == to
    ensures W.Exec(host, Adapt(M.KindOf(v), to), stack + W.Slots(v), st)
      == W.Normal(stack + W.Slots(M.Coerce(v, to)), st)
  {
    if M.KindOf(v) != to {
      var before := stack + W.Slots(v);
      ExecOne(host, W.Numeric(0xac), before, st);
      assert before[..|before| - 1] == stack;
    }
  }

  lemma NumericCorrect(host: W.Host, op: Byte, a: W.Value, b: W.Value, stack: seq<W.Value>, st: W.State)
    requires !W.IsUnop(op)
    ensures W.Exec(host, [W.Numeric(op)], stack + [a] + [b], st)
      == match W.Binop(op, a, b)
         case Value(v) => W.Normal(stack + [v], st)
         case NumTrap => W.Trap(st)
         case NumStuck => W.Stuck
  {
    var before := stack + [a] + [b];
    ExecOne(host, W.Numeric(op), before, st);
    assert before[..|before| - 2] == stack;
  }

  lemma UnopCorrect(host: W.Host, op: Byte, a: W.Value, stack: seq<W.Value>, st: W.State)
    requires W.IsUnop(op) && W.Unop(op, a).Value?
    ensures W.Exec(host, [W.Numeric(op)], stack + [a], st) == W.Normal(stack + [W.Unop(op, a).v], st)
  {
    var before := stack + [a];
    ExecOne(host, W.Numeric(op), before, st);
    assert before[..|before| - 1] == stack;
  }

  lemma UnaryCorrect(host: W.Host, tok: M.Token, v: M.Value, rest: Kinds, stack: seq<W.Value>, st: W.State)
    requires UnaryKind(tok, M.KindOf(v)).Some? && EmitUnary(tok, M.KindOf(v), rest).Ok?
    ensures M.UnaryOp(tok, v).Result? && M.KindOf(M.UnaryOp(tok, v).value) == UnaryKind(tok, M.KindOf(v)).value
    ensures W.Exec(host, EmitUnary(tok, M.KindOf(v), rest).code, stack + W.Slots(v), st)
      == W.Normal(stack + W.Slots(M.UnaryOp(tok, v).value), st)
  {
    match tok
    case Sub => NegateCorrect(host, v, stack, st);
    case Not => UnopCorrect(host, if v.MI32? then 0x45 else 0x50, W.Slots(v)[0], stack, st);
    case _ =>
  }

  /** Negation is multiplication by minus one. */
  lemma NegateCorrect(host: W.Host, v: M.Value, stack: seq<W.Value>, st: W.State)
    requires !v.MStr?
    ensures M.UnaryOp(M.Sub, v).Result?
    ensures W.Exec(host, if v.MI32? then [W.I32Const(-1), W.Numeric(0x6c)]
      else [W.I64Const(-1), W.Numeric(0x7e)], stack + W.Slots(v), st)
      == W.Normal(stack + W.Slots(M.UnaryOp(M.Sub, v).value), st)
  {
    var c := if v.MI32? then W.I32Const(-1) else W.I64Const(-1);
    var minus := if v.MI32? then W.I32V(-1) else W.I64V(-1);
    var op: Byte := if v.MI32? then 0x6c else 0x7e;
    ExecTwo(host, c, W.Numeric(op), stack + W.Slots(v), st);
    assert stack + W.Slots(v) + [minus] == stack + [W.Slots(v)[0]] + [minus];
    NumericCorrect(host, op, W.Slots(v)[0], minus, stack, st);
    ExecOne(host, W.Numeric(op), stack + [W.Slots(v)[0]] + [minus], st);
  }

  lemma BinaryCorrect(host: W.Host, tok: M.Token, a: M.Value, b: M.Value, rest: Kinds, stack: seq<W.Value>, st: W.State)
    requires BinaryKind(tok, M.KindOf(a), M.KindOf(b)).Some? && EmitBinary(tok, M.KindOf(a), M.KindOf(b), rest).Ok?
    ensures var w := W.Exec(host, EmitBinary(tok, M.KindOf(a), M.KindOf(b), rest).code, stack + W.Slots(a)
      + W.Slots(b), st);
      match M.BinaryOp(tok, a, b)
      case Result(v) => M.KindOf(v) == BinaryKind(tok, M.KindOf(a), M.KindOf(b)).value
        && w == W.Normal(stack + W.Slots(v), st)
      case Undefined => w == W.Trap(st)
      case Unsupported => false
  {
    if a.MI32? {
      Opcode32Correct(tok, a.i32, b.i32);
      NumericCorrect(host, Opcode32(tok).value, W.I32V(a.i32), W.I32V(b.i32), stack, st);
    } else if b.MI64? {
      Opcode64Correct(tok, a.i64, b.i64);
      NumericCorrect(host, Opcode64(tok).value, W.I64V(a.i64), W.I64V(b.i64), stack, st);
    } else {
      var op := Opcode64(tok).value;
      Opcode64Correct(tok, a.i64, b.i32);
      AdaptCorrect(host, b, M.KI64, stack + W.Slots(a), st);
      assert [W.Numeric(0xac), W.Numeric(op)] == [W.Numeric(0xac)] + [W.Numeric(op)];
      W.ExecConcat(host, [W.Numeric(0xac)], [W.Numeric(op)], stack + W.Slots(a) + W.Slots(b), st);
      NumericCorrect(host, op, W.I64V(a.i64), W.I64V(b.i32), stack, st);
    }
  }

  lemma CastCorrect(host: W.Host, v: M.Value, k: M.Kind, ks: Kinds, stack: seq<W.Value>, st: W.State)
    requires |ks| > 0 && ks[|ks| - 1] == M.KindOf(v) && CanCast(M.KindOf(v), k)
    requires var fn := M.Function([], [], [], None, None); EmitSimple(fn, M.Cast(k), ks).Ok?
    ensures M.CastTo(v, k).Some? && M.KindOf(M.CastTo(v, k).value) == k
    ensures var fn := M.Function([], [], [], None, None);
      W.Exec(host, EmitSimple(fn, M.Cast(k), ks).code, stack + W.Slots(v), st)
        == W.Normal(stack + W.Slots(M.CastTo(v, k).value), st)
  {
    if M.KindOf(v) != k {
      UnopCorrect(host, if k == M.KI64 then 0xac else 0xa7, W.Slots(v)[0], stack, st);
    }
  }

  // ---- calls ----------------------------------------------------------------------------

  /** Every argument is at home: what its home local (or pair of locals) holds is its value. */
  ghost predicate AtHome(args: seq<M.Value>, homes: seq<nat>, locals: seq<W.Value>) {
    |homes| == |args| && forall j :: 0 <= j < |args| ==> InLocals(args[j], homes[j], locals)
  }

  ghost predicate InLocals(v: M.Value, home: nat, locals: seq<W.Value>) {
    home + |W.Slots(v)| <= |locals| && locals[home..home + |W.Slots(v)|] == W.Slots(v)
  }

  predicate Outside(fn: M.Function, next32: nat, next64: nat, x: nat) {
    x < ScratchI32(fn) + next32 || (ScratchI64(fn) <= x < ScratchI64(fn) + next64)
  }

  lemma ExpandLast(args: seq<M.Value>, stack: seq<W.Value>)
    requires args != []
    ensures stack + W.Expand(args) == stack + W.Expand(args[..|args| - 1]) + W.Slots(args[|args| - 1])
  {
  }

  function Parked(c: M.Value, home: nat, st: W.State): W.State
    requires home + |W.Slots(c)| <= |st.locals|
  {
    st.(locals := st.locals[..home] + W.Slots(c) + st.locals[home + |W.Slots(c)|..])
  }

  lemma ParkOne(host: W.Host, v: M.Value, to: M.Kind, home: nat, rest: seq<W.Instr>, below: seq<W.Value>, st: W.State)
    requires M.Coercible(M.KindOf(v), to) && home + |W.Slots(M.Coerce(v, to))| <= |st.locals|
    ensures W.Exec(host, Adapt(M.KindOf(v), to) + WriteLocal(to, home) + rest, below + W.Slots(v), st)
      == W.Exec(host, rest, below, Parked(M.Coerce(v, to), home, st))
  {
    hide W.ExecCall;
    var c := M.Coerce(v, to);
    var adapt := Adapt(M.KindOf(v), to);
    AdaptCorrect(host, v, to, below, st);
    WriteLocalCorrect(host, c, home, below, st);
    W.ExecConcat(host, adapt, WriteLocal(to, home), below + W.Slots(v), st);
    W.ExecConcat(host, adapt + WriteLocal(to, home), rest, below + W.Slots(v), st);
  }

  /** What was parked at `home` is still there when everything outside the later homes is unchanged. */
  lemma ParkedStays(fn: M.Function, c: M.Value, home: nat, next32: nat, next64: nat, st: W.State, locals: seq<W.Value>)
    requires home + |W.Slots(c)| <= |st.locals| == |locals|
    requires forall x {:trigger Outside(fn, next32, next64, x)} :: home <= x < home + |W.Slots(c)| ==>
      Outside(fn, next32, next64, x)
    requires forall x {:trigger Outside(fn, next32, next64, x)} ::
      0 <= x < |locals| && Outside(fn, next32, next64, x) ==> locals[x] == Parked(c, home, st).locals[x]
    ensures InLocals(c, home, locals)
  {
    var p := Parked(c, home, st).locals;
    forall i | 0 <= i < |W.Slots(c)|
      ensures locals[home + i] == W.Slots(c)[i]
    {
      assert Outside(fn, next32, next64, home + i);
      assert p[home + i] == W.Slots(c)[i];
    }
  }

  lemma AtHomePush(args: seq<M.Value>, homes: seq<nat>, home: nat, locals: seq<W.Value>)
    requires args != [] && AtHome(args[..|args| - 1], homes, locals) && InLocals(args[|args| - 1], home, locals)
    ensures AtHome(args, homes + [home], locals)
  {
    forall j | 0 <= j < |args|
      ensures InLocals(args[j], (homes + [home])[j], locals)
    {
      if j < |args| - 1 {
        assert InLocals(args[..|args| - 1][j], homes[j], locals);
      }
    }
  }

  /** What popping the arguments does: park them all, and touch no local outside their homes. */
  ghost predicate AllParked(fn: M.Function, params: Kinds, args: seq<M.Value>, homes: seq<nat>, next32: nat,
      next64: nat, stack: seq<W.Value>, st: W.State, w: W.Outcome)
    requires M.ArgsCoercible(args, params)
  {
    && w.Normal? && w.stack == stack && w.st.trace == st.trace && w.st.fuel == st.fuel && w.st.store == st.store
    && |w.st.locals| == |st.locals|
    && AtHome(M.CoerceAll(args, params), homes, w.st.locals)
    && (forall x {:trigger Outside(fn, next32, next64, x)} ::
      0 <= x < |st.locals| && Outside(fn, next32, next64, x) ==> w.st.locals[x] == st.locals[x])
  }

  /**
   * Popping the arguments right to left parks each of them, converted to the kind the callee
   * expects, in a home of its own: later pops do not touch the homes filled by earlier ones.
   */
  lemma {:induction false} ArgPopsCorrect(fn: M.Function, oracle: M.Oracle, params: Kinds, args: seq<M.Value>,
      next32: nat, next64: nat, stack: seq<W.Value>, st: W.State)
    requires M.ArgsCoercible(args, params)
    requires PlanArgs(fn, params, M.KindsOf(args), next32, next64).Plan?
    requires |st.locals| >= ScratchI64(fn) + CALL_SCRATCH_I64 && next32 <= CALL_SCRATCH_I32
    ensures var plan := PlanArgs(fn, params, M.KindsOf(args), next32, next64);
      AllParked(fn, params, args, plan.homes, next32, next64, stack, st,
        W.Exec(W.HostOf(fn, oracle), plan.code, stack + W.Expand(args), st))
    decreases |args|
  {
    hide W.Exec, W.ExecInstr, W.Expand, AllParked, PlanArgs;
    if args == [] {
      NoArgs(fn, oracle, params, args, next32, next64, stack, st);
    } else {
      var n := |args|;
      var to := params[n - 1];
      PlanLast(fn, params, args, next32, next64);
      var home := HomeFor(fn, to, next32, next64).value;
      var rest := PlanArgs(fn, params[..n - 1], M.KindsOf(args[..n - 1]), next32 + Cells32(to), next64 + Cells64(to));
      ArgPopsCorrect(fn, oracle, params[..n - 1], args[..n - 1], next32 + Cells32(to), next64 + Cells64(to), stack,
                     Parked(M.Coerce(args[n - 1], to), home, st));
      ArgPopStep(fn, oracle, params, args, rest, home, next32, next64, stack, st);
    }
  }

  /** One argument more, on top of the others. */
  lemma ArgPopStep(fn: M.Function, oracle: M.Oracle, params: Kinds, args: seq<M.Value>, rest: ArgPlan, home: nat,
      next32: nat, next64: nat, stack: seq<W.Value>, st: W.State)
    requires args != [] && M.ArgsCoercible(args, params) && next32 <= CALL_SCRATCH_I32
    requires |st.locals| >= ScratchI64(fn) + CALL_SCRATCH_I64 && rest.Plan?
    requires var n := |args|; var to := params[n - 1]; var c := M.Coerce(args[n - 1], to);
      && HomeFor(fn, to, next32, next64) == Some(home) && home + |W.Slots(c)| <= |st.locals|
      && AllParked(fn, params[..n - 1], args[..n - 1], rest.homes, next32 + Cells32(to), next64 + Cells64(to), stack,
        Parked(c, home, st),
                   W.Exec(W.HostOf(fn, oracle), rest.code, stack + W.Expand(args[..n - 1]), Parked(c, home, st)))
    ensures var n := |args|; var to := params[n - 1];
      AllParked(fn, params, args, rest.homes + [home], next32, next64, stack, st,
                W.Exec(W.HostOf(fn, oracle), Adapt(M.KindOf(args[n - 1]), to) + WriteLocal(to, home) + rest.code, stack
                  + W.Expand(args), st))
  {
    var n := |args|;
    var v, to, front := args[n - 1], params[n - 1], args[..n - 1];
    var below := stack + W.Expand(front);
    ExpandLast(args, stack);
    ParkOne(W.HostOf(fn, oracle), v, to, home, rest.code, below, st);
    ParkedExtends(fn, params, args, rest.homes, home, next32, next64, stack, st,
                  W.Exec(W.HostOf(fn, oracle), rest.code, below, Parked(M.Coerce(v, to), home, st)));
  }

  lemma NoArgs(fn: M.Function, oracle: M.Oracle, params: Kinds, args: seq<M.Value>, next32: nat, next64: nat,
      stack: seq<W.Value>, st: W.State)
    requires params == [] && args == []
    ensures var plan := PlanArgs(fn, params, M.KindsOf(args), next32, next64);
      AllParked(fn, params, args, plan.homes, next32, next64, stack, st,
        W.Exec(W.HostOf(fn, oracle), plan.code, stack + W.Expand(args), st))
  {
    var plan := PlanArgs(fn, params, M.KindsOf(args), next32, next64);
    assert plan == Plan([], []);
    assert W.Expand(args) == [];
    assert stack + W.Expand(args) == stack;
    assert W.Exec(W.HostOf(fn, oracle), plan.code, stack, st) == W.Normal(stack, st);
  }

  lemma PlanLast(fn: M.Function, params: Kinds, args: seq<M.Value>, next32: nat, next64: nat)
    requires args != [] && M.ArgsCoercible(args, params) && PlanArgs(fn, params, M.KindsOf(args), next32, next64).Plan?
    ensures var n := |args|; var to := params[n - 1]; var home := HomeFor(fn, to, next32, next64);
      var rest := PlanArgs(fn, params[..n - 1], M.KindsOf(args[..n - 1]), next32 + Cells32(to), next64 + Cells64(to));
      home.Some? && rest.Plan?
      && PlanArgs(fn, params, M.KindsOf(args), next32, next64)
         == Plan(Adapt(M.KindOf(args[n - 1]), to) + WriteLocal(to, home.value) + rest.code, rest.homes + [home.value])
  {
    KindsOfTake(args, |args| - 1);
  }

  lemma ParkedExtends(fn: M.Function, params: Kinds, args: seq<M.Value>, homes: seq<nat>, home: nat, next32: nat,
      next64: nat, stack: seq<W.Value>, st: W.State, w: W.Outcome)
    requires args != [] && M.ArgsCoercible(args, params) && next32 <= CALL_SCRATCH_I32
    requires |st.locals| >= ScratchI64(fn) + CALL_SCRATCH_I64
    requires var n := |args|; var to := params[n - 1]; var c := M.Coerce(args[n - 1], to);
      && HomeFor(fn, to, next32, next64) == Some(home) && home + |W.Slots(c)| <= |st.locals|
      && AllParked(fn, params[..n - 1], args[..n - 1], homes, next32 + Cells32(to), next64 + Cells64(to), stack,
        Parked(c, home, st), w)
    ensures AllParked(fn, params, args, homes + [home], next32, next64, stack, st, w)
  {
    hide AtHome, W.Exec;
    var n := |args|;
    var to := params[n - 1];
    var c := M.Coerce(args[n - 1], to);
    ParkedStays(fn, c, home, next32 + Cells32(to), next64 + Cells64(to), st, w.st.locals);
    var all := M.CoerceAll(args, params);
    assert all[..n - 1] == M.CoerceAll(args[..n - 1], params[..n - 1]);
    AtHomePush(all, homes, home, w.st.locals);
    ParkedFrame(fn, to, c, home, next32, next64, st, w.st.locals);
  }

  lemma ParkedFrame(fn: M.Function, to: M.Kind, c: M.Value, home: nat, next32: nat, next64: nat, st: W.State,
      locals: seq<W.Value>)
    requires HomeFor(fn, to, next32, next64) == Some(home) && M.KindOf(c) == to && next32 <= CALL_SCRATCH_I32
    requires home + |W.Slots(c)| <= |st.locals| == |locals|
    requires forall x {:trigger Outside(fn, next32 + Cells32(to), next64 + Cells64(to), x)} ::
      0 <= x < |locals| && Outside(fn, next32 + Cells32(to), next64 + Cells64(to), x) ==>
        locals[x] == Parked(c, home, st).locals[x]
    ensures forall x {:trigger Outside(fn, next32, next64, x)} ::
      0 <= x < |st.locals| && Outside(fn, next32, next64, x) ==> locals[x] == st.locals[x]
  {
    forall x | 0 <= x < |st.locals| && Outside(fn, next32, next64, x)
      ensures locals[x] == st.locals[x]
    {
      assert x < home || home + |W.Slots(c)| <= x;
      assert Outside(fn, next32 + Cells32(to), next64 + Cells64(to), x);
    }
  }

  /** Reloading pushes the arguments left to right. */
  lemma {:induction false} ReloadCorrect(host: W.Host, args: seq<M.Value>, homes: seq<nat>, stack: seq<W.Value>,
      st: W.State)
    requires AtHome(args, homes, st.locals)
    ensures W.Exec(host, ReloadArgs(M.KindsOf(args), homes), stack, st) == W.Normal(stack + W.Expand(args), st)
    decreases |args|
  {
    if args == [] {
      assert stack + [] == stack;
    } else {
      var n := |args|;
      var v, home, front, fronts := args[n - 1], homes[n - 1], args[..n - 1], homes[..n - 1];
      assert InLocals(v, home, st.locals);
      assert AtHome(front, fronts, st.locals) by {
        forall j | 0 <= j < n - 1
          ensures InLocals(front[j], fronts[j], st.locals)
        {
          assert InLocals(args[j], homes[j], st.locals);
        }
      }
      ReloadCorrect(host, front, fronts, stack, st);
      ReloadStep(host, ReloadArgs(M.KindsOf(front), fronts), args, home, stack, st);
      ReloadLast(args, homes);
    }
  }

  lemma ReloadLast(args: seq<M.Value>, homes: seq<nat>)
    requires |args| == |homes| > 0
    ensures var n := |args|;
      ReloadArgs(M.KindsOf(args), homes)
      == ReloadArgs(M.KindsOf(args[..n - 1]), homes[..n - 1]) + ReadLocal(M.KindOf(args[n - 1]), homes[n - 1])
  {
    KindsOfTake(args, |args| - 1);
  }

  lemma ReloadStep(host: W.Host, code: seq<W.Instr>, args: seq<M.Value>, home: nat, stack: seq<W.Value>, st: W.State)
    requires args != [] && InLocals(args[|args| - 1], home, st.locals)
    requires W.Exec(host, code, stack, st) == W.Normal(stack + W.Expand(args[..|args| - 1]), st)
    ensures W.Exec(host, code + ReadLocal(M.KindOf(args[|args| - 1]), home), stack, st)
      == W.Normal(stack + W.Expand(args), st)
  {
    var v := args[|args| - 1];
    var mid := stack + W.Expand(args[..|args| - 1]);
    ReadLocalCorrect(host, v, home, mid, st);
    ExecThen(host, code, ReadLocal(M.KindOf(v), home), stack, st, mid, st);
    ExpandLast(args, stack);
  }
}
