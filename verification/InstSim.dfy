/** One lemma for all instructions that fall through: the emitted code does what the instruction does. */
module InstSim {
  import opened Words
  import M = Mir
  import W = Wasm
  import opened StackMap
  import opened Emitter
  import opened Memory
  import opened Slots
  import opened FrameSlots
  import opened Straightline

  // ---- operands above a base --------------------------------------------------------------

  lemma Pushed(base: seq<M.Value>, rest: seq<M.Value>, v: M.Value)
    requires base <= rest
    ensures base <= rest + [v] && M.KindsOf(rest + [v]) == M.KindsOf(rest) + [M.KindOf(v)]
    ensures W.Expand((rest + [v])[|base|..]) == W.Expand(rest[|base|..]) + W.Slots(v)
  {
    assert (rest + [v])[|base|..] == rest[|base|..] + [v];
    ExpandPush(rest[|base|..], v);
  }

  /** The stack with its top taken off, when the top is above the base. */
  lemma Popped(base: seq<M.Value>, stack: seq<M.Value>)
    requires base <= stack && |stack| > |base|
    ensures var n := |stack| - 1;
      base <= stack[..n] && stack == stack[..n] + [stack[n]] && M.KindsOf(stack[..n]) == M.KindsOf(stack)[..n]
      && W.Expand(stack[|base|..]) == W.Expand(stack[..n][|base|..]) + W.Slots(stack[n])
  {
    var n := |stack| - 1;
    Pushed(base, stack[..n], stack[n]);
    assert stack == stack[..n] + [stack[n]];
  }

  ghost predicate Ready(fn: M.Function, base: seq<M.Value>, stack: seq<M.Value>, ks: Kinds, pops: nat, st: M.State,
      w: W.State) {
    M.KindsOf(stack) == ks && base <= stack && |stack| >= |base| + pops && StatesMatch(fn, st, w)
  }

  ghost function Ran(fn: M.Function, oracle: M.Oracle, code: seq<W.Instr>, base: seq<M.Value>, stack: seq<M.Value>,
      w: W.State): W.Outcome
    requires base <= stack
  {
    W.Exec(W.HostOf(fn, oracle), code, W.Expand(stack[|base|..]), w)
  }

  lemma AgreePushed(fn: M.Function, base: seq<M.Value>, rest: seq<M.Value>, v: M.Value, pc: nat, st: M.State,
      w: W.State)
    requires base <= rest && StatesMatch(fn, st, w)
    ensures Agree(fn, base, M.KindsOf(rest) + [M.KindOf(v)], pc, M.Goto(pc, rest + [v], st),
      W.Normal(W.Expand(rest[|base|..]) + W.Slots(v), w))
  {
    Pushed(base, rest, v);
  }

  lemma AgreePopped(fn: M.Function, base: seq<M.Value>, rest: seq<M.Value>, pc: nat, st: M.State, w: W.State)
    requires base <= rest && StatesMatch(fn, st, w)
    ensures Agree(fn, base, M.KindsOf(rest), pc, M.Goto(pc, rest, st), W.Normal(W.Expand(rest[|base|..]), w))
  {
  }

  lemma AgreeTrapped(fn: M.Function, base: seq<M.Value>, ks: Kinds, pc: nat, st: M.State, w: W.State)
    requires StatesMatch(fn, st, w)
    ensures Agree(fn, base, ks, pc, M.Trapped(st), W.Trap(w))
  {
    hide Held;
  }

  lemma PushCorrect(fn: M.Function, oracle: M.Oracle, inst: M.Inst, pc: nat, base: seq<M.Value>, stack: seq<M.Value>,
      ks: Kinds, st: M.State, w: W.State)
    requires inst.PushInt? || inst.PushBool? || inst.PushNull? || inst.PushString?
    requires Ready(fn, base, stack, ks, 0, st, w) && EmitSimple(fn, inst, ks).Ok? && KindsAfter(fn, inst, ks).Some?
    ensures Agree(fn, base, KindsAfter(fn, inst, ks).value, pc + 1, M.StepSimple(fn, oracle, inst, pc, stack, st),
      Ran(fn, oracle, EmitSimple(fn, inst, ks).code, base, stack, w))
  {
    hide W.Exec, W.Expand, Held, EmitCall, M.StepCall;
    var v := PushedValue(inst);
    PushExec(W.HostOf(fn, oracle), fn, inst, ks, W.Expand(stack[|base|..]), w);
    AgreePushed(fn, base, stack, v, pc + 1, st, w);
  }

  function PushedValue(inst: M.Inst): M.Value
    requires (inst.PushInt? && IsI32(inst.bits)) || inst.PushBool? || inst.PushNull? || inst.PushString?
  {
    match inst
    case PushInt(bits) => M.MI32(bits)
    case PushBool(b) => M.BoolValue(b)
    case PushString(p, l) => M.MStr(p, l)
    case _ => M.MI32(0)
  }

  lemma PushExec(host: W.Host, fn: M.Function, inst: M.Inst, ks: Kinds, ws: seq<W.Value>, w: W.State)
    requires (inst.PushInt? && IsI32(inst.bits)) || inst.PushBool? || inst.PushNull? || inst.PushString?
    requires EmitSimple(fn, inst, ks).Ok?
    ensures W.Exec(host, EmitSimple(fn, inst, ks).code, ws, w) == W.Normal(ws + W.Slots(PushedValue(inst)), w)
  {
    hide W.ExecNumeric, W.ExecCall, W.LeaveBlock, EmitCall;
    var code, v := EmitSimple(fn, inst, ks).code, PushedValue(inst);
    if inst.PushString? {
      ExecTwo(host, code[0], code[1], ws, w);
      assert ws + [W.I32V(v.ptr)] + [W.I32V(v.len)] == ws + W.Slots(v);
    } else {
      ExecOne(host, W.I32Const(v.i32), ws, w);
    }
  }

  lemma UnarySim(fn: M.Function, oracle: M.Oracle, tok: M.Token, pc: nat, base: seq<M.Value>, stack: seq<M.Value>,
      ks: Kinds, st: M.State, w: W.State)
    requires Ready(fn, base, stack, ks, 1, st, w) && EmitSimple(fn, M.Unary(tok), ks).Ok?
      && KindsAfter(fn, M.Unary(tok), ks).Some?
    ensures Agree(fn, base, KindsAfter(fn, M.Unary(tok), ks).value, pc + 1,
      M.StepSimple(fn, oracle, M.Unary(tok), pc, stack, st),
      Ran(fn, oracle, EmitSimple(fn, M.Unary(tok), ks).code, base, stack, w))
  {
    hide W.Expand, W.Exec, W.Slots, StatesMatch, EmitUnary, M.UnaryOp, UnaryKind;
    var n := |stack| - 1;
    Popped(base, stack);
    UnaryCorrect(W.HostOf(fn, oracle), tok, stack[n], ks[..n], W.Expand(stack[..n][|base|..]), w);
    AgreePushed(fn, base, stack[..n], M.UnaryOp(tok, stack[n]).value, pc + 1, st, w);
  }

  lemma BinarySim(fn: M.Function, oracle: M.Oracle, tok: M.Token, pc: nat, base: seq<M.Value>, stack: seq<M.Value>,
      ks: Kinds, st: M.State, w: W.State)
    requires Ready(fn, base, stack, ks, 2, st, w) && EmitSimple(fn, M.Binary(tok), ks).Ok?
      && KindsAfter(fn, M.Binary(tok), ks).Some?
    ensures Agree(fn, base, KindsAfter(fn, M.Binary(tok), ks).value, pc + 1,
      M.StepSimple(fn, oracle, M.Binary(tok), pc, stack, st),
      Ran(fn, oracle, EmitSimple(fn, M.Binary(tok), ks).code, base, stack, w))
  {
    hide W.Exec, W.ExecInstr, Held, LocalsMatch, W.Expand, W.Slots, EmitBinary, M.BinaryOp, BinaryKind;
    var n := |stack| - 2;
    PoppedTwo(base, stack);
    var a, b := stack[n], stack[n + 1];
    var code := EmitBinary(tok, M.KindOf(a), M.KindOf(b), ks[..n]).code;
    BinaryCorrect(W.HostOf(fn, oracle), tok, a, b, ks[..n], W.Expand(stack[..n][|base|..]), w);
    BinaryAgrees(fn, tok, a, b, pc, base, stack[..n], st, w, Ran(fn, oracle, code, base, stack, w));
  }

  lemma PoppedTwo(base: seq<M.Value>, stack: seq<M.Value>)
    requires base <= stack && |stack| > |base| + 1
    ensures var n := |stack| - 2;
      base <= stack[..n] && M.KindsOf(stack[..n]) == M.KindsOf(stack)[..n]
      && W.Expand(stack[|base|..]) == W.Expand(stack[..n][|base|..]) + W.Slots(stack[n]) + W.Slots(stack[n + 1])
  {
    hide W.Slots, M.KindOf;
    var n := |stack| - 2;
    Popped(base, stack);
    Popped(base, stack[..n + 1]);
    assert stack[..n + 1][..n] == stack[..n];
  }

  lemma BinaryAgrees(fn: M.Function, tok: M.Token, a: M.Value, b: M.Value, pc: nat, base: seq<M.Value>,
      rest: seq<M.Value>, st: M.State, w: W.State, o: W.Outcome)
    requires base <= rest && StatesMatch(fn, st, w) && BinaryKind(tok, M.KindOf(a), M.KindOf(b)).Some?
    requires match M.BinaryOp(tok, a, b)
      case Result(v) => M.KindOf(v) == BinaryKind(tok, M.KindOf(a), M.KindOf(b)).value
        && o == W.Normal(W.Expand(rest[|base|..]) + W.Slots(v), w)
      case Undefined => o == W.Trap(w)
      case Unsupported => false
    ensures Agree(fn, base, M.KindsOf(rest) + [BinaryKind(tok, M.KindOf(a), M.KindOf(b)).value], pc + 1,
      M.FromArith(M.BinaryOp(tok, a, b), pc, rest, st), o)
  {
    if M.BinaryOp(tok, a, b).Result? {
      AgreePushed(fn, base, rest, M.BinaryOp(tok, a, b).value, pc + 1, st, w);
    }
  }

  lemma CastSim(fn: M.Function, oracle: M.Oracle, k: M.Kind, pc: nat, base: seq<M.Value>, stack: seq<M.Value>,
      ks: Kinds, st: M.State, w: W.State)
    requires Ready(fn, base, stack, ks, 1, st, w) && EmitSimple(fn, M.Cast(k), ks).Ok?
    ensures KindsAfter(fn, M.Cast(k), ks).Some?
    ensures Agree(fn, base, KindsAfter(fn, M.Cast(k), ks).value, pc + 1,
      M.StepSimple(fn, oracle, M.Cast(k), pc, stack, st),
      Ran(fn, oracle, EmitSimple(fn, M.Cast(k), ks).code, base, stack, w))
  {
    hide W.Expand, W.Exec, W.Slots, StatesMatch, Wrap32;
    var n := |stack| - 1;
    Popped(base, stack);
    CastCorrect(W.HostOf(fn, oracle), stack[n], k, ks, W.Expand(stack[..n][|base|..]), w);
    AgreePushed(fn, base, stack[..n], M.CastTo(stack[n], k).value, pc + 1, st, w);
  }

  lemma LoadSim(fn: M.Function, oracle: M.Oracle, i: nat, pc: nat, base: seq<M.Value>, stack: seq<M.Value>, ks: Kinds,
      st: M.State, w: W.State)
    requires fn.frame.None?
    requires Ready(fn, base, stack, ks, 0, st, w) && EmitSimple(fn, M.LocalLoad(i), ks).Ok?
    ensures KindsAfter(fn, M.LocalLoad(i), ks).Some?
    ensures Agree(fn, base, KindsAfter(fn, M.LocalLoad(i), ks).value, pc + 1,
      M.StepSimple(fn, oracle, M.LocalLoad(i), pc, stack, st),
      Ran(fn, oracle, EmitSimple(fn, M.LocalLoad(i), ks).code, base, stack, w))
  {
    hide W.Expand, W.Exec, W.ExecInstr;
    var v, x := st.locals[i], LocalIndex(fn, i);
    LocalHeld(fn, st.locals, w.locals, i);
    ReadLocalCorrect(W.HostOf(fn, oracle), v, x, W.Expand(stack[|base|..]), w);
    AgreePushed(fn, base, stack, v, pc + 1, st, w);
  }

  lemma LocalHeld(fn: M.Function, locals: seq<M.Value>, wlocals: seq<W.Value>, i: nat)
    requires LocalsMatch(fn, locals, wlocals) && i < |locals|
    ensures InLocals(locals[i], LocalIndex(fn, i), wlocals)
  {
    hide W.Expand, W.ExpandTypes, LocalCount;
    LocalSlice(fn, locals, i);
    var x, e := LocalIndex(fn, i), W.Expand(locals);
    assert wlocals[x..x + |W.Slots(locals[i])|] == e[x..x + |W.Slots(locals[i])|];
  }

  lemma StoreSim(fn: M.Function, oracle: M.Oracle, i: nat, pc: nat, base: seq<M.Value>, stack: seq<M.Value>, ks: Kinds,
      st: M.State, w: W.State)
    requires fn.frame.None?
    requires Ready(fn, base, stack, ks, 1, st, w) && EmitSimple(fn, M.LocalStore(i), ks).Ok?
    ensures KindsAfter(fn, M.LocalStore(i), ks).Some?
    ensures Agree(fn, base, KindsAfter(fn, M.LocalStore(i), ks).value, pc + 1,
      M.StepSimple(fn, oracle, M.LocalStore(i), pc, stack, st),
      Ran(fn, oracle, EmitSimple(fn, M.LocalStore(i), ks).code, base, stack, w))
  {
    hide W.Exec, W.ExecInstr, W.Expand;
    var n := |stack| - 1;
    var v := stack[n];
    Popped(base, stack);
    var w1 := StoredLocals(fn, oracle, i, v, W.Expand(stack[..n][|base|..]), st, w);
    AgreePopped(fn, base, stack[..n], pc + 1, st.(locals := st.locals[i := M.Coerce(v, fn.localKinds[i])]), w1);
  }

  lemma StoredLocals(fn: M.Function, oracle: M.Oracle, i: nat, v: M.Value, below: seq<W.Value>, st: M.State,
      w: W.State) returns (w1: W.State)
    requires fn.frame.None? && StatesMatch(fn, st, w) && i < |fn.localKinds|
      && M.Coercible(M.KindOf(v), fn.localKinds[i])
    ensures W.Exec(W.HostOf(fn, oracle), Adapt(M.KindOf(v), fn.localKinds[i])
      + WriteLocal(fn.localKinds[i], LocalIndex(fn, i)), below + W.Slots(v), w) == W.Normal(below, w1)
    ensures StatesMatch(fn, st.(locals := st.locals[i := M.Coerce(v, fn.localKinds[i])]), w1)
  {
    hide W.ExecInstr, W.Exec, W.Expand, LocalCount;
    var to, x := fn.localKinds[i], LocalIndex(fn, i);
    var c := M.Coerce(v, to);
    AdaptCorrect(W.HostOf(fn, oracle), v, to, below, w);
    LocalSlice(fn, st.locals, i);
    assert |W.Slots(c)| == |W.Slots(st.locals[i])|;
    WriteLocalCorrect(W.HostOf(fn, oracle), c, x, below, w);
    ExecThen(W.HostOf(fn, oracle), Adapt(M.KindOf(v), to), WriteLocal(to, x), below + W.Slots(v), w, below
      + W.Slots(c), w);
    w1 := w.(locals := w.locals[..x] + W.Slots(c) + w.locals[x + |W.Slots(c)|..]);
    LocalUpdate(fn, st.locals, i, c, w.locals, w1.locals);
  }

  lemma ZeroSim(fn: M.Function, oracle: M.Oracle, i: nat, pc: nat, base: seq<M.Value>, stack: seq<M.Value>, ks: Kinds,
      st: M.State, w: W.State)
    requires fn.frame.None?
    requires Ready(fn, base, stack, ks, 0, st, w) && EmitSimple(fn, M.LocalZero(i), ks).Ok?
    ensures KindsAfter(fn, M.LocalZero(i), ks).Some?
    ensures Agree(fn, base, KindsAfter(fn, M.LocalZero(i), ks).value, pc + 1,
      M.StepSimple(fn, oracle, M.LocalZero(i), pc, stack, st),
      Ran(fn, oracle, EmitSimple(fn, M.LocalZero(i), ks).code, base, stack, w))
  {
    var to := fn.localKinds[i];
    var w1 := ZeroedLocals(fn, oracle, i, W.Expand(stack[|base|..]), st, w);
    AgreePopped(fn, base, stack, pc + 1, st.(locals := st.locals[i := M.ZeroOf(to)]), w1);
  }

  lemma ZeroedLocals(fn: M.Function, oracle: M.Oracle, i: nat, stack: seq<W.Value>, st: M.State, w: W.State)
      returns (w1: W.State)
    requires fn.frame.None? && StatesMatch(fn, st, w) && i < |fn.localKinds|
    ensures W.Exec(W.HostOf(fn, oracle), ZeroLocal(fn.localKinds[i], LocalIndex(fn, i)), stack, w)
      == W.Normal(stack, w1)
    ensures StatesMatch(fn, st.(locals := st.locals[i := M.ZeroOf(fn.localKinds[i])]), w1)
  {
    hide W.ExecInstr, W.Exec, W.Expand, LocalCount;
    var to, x := fn.localKinds[i], LocalIndex(fn, i);
    var z := M.ZeroOf(to);
    LocalSlice(fn, st.locals, i);
    assert |W.Slots(z)| == |W.Slots(st.locals[i])|;
    w1 := w.(locals := w.locals[..x] + W.Slots(z) + w.locals[x + |W.Slots(z)|..]);
    ZeroLocalCorrect(W.HostOf(fn, oracle), to, x, stack, w);
    LocalUpdate(fn, st.locals, i, z, w.locals, w1.locals);
  }

  lemma ZeroLocalCorrect(host: W.Host, k: M.Kind, x: nat, stack: seq<W.Value>, st: W.State)
    requires x + |W.Slots(M.ZeroOf(k))| <= |st.locals|
    ensures var z := W.Slots(M.ZeroOf(k));
      W.Exec(host, ZeroLocal(k, x), stack, st)
        == W.Normal(stack, st.(locals := st.locals[..x] + z + st.locals[x + |z|..]))
  {
    hide W.Exec, W.ExecInstr;
    var zero := if k == M.KI64 then W.I64Const(0) else W.I32Const(0);
    var v := if k == M.KI64 then W.I64V(0) else W.I32V(0);
    var y := if k == M.KStr then x + 1 else x;
    var st1 := st.(locals := st.locals[y := v]);
    SetConst(host, zero, v, y, stack, st);
    if k == M.KStr {
      SetConst(host, zero, v, x, stack, st1);
      assert ZeroLocal(k, x) == [zero, W.LocalSet(y)] + [zero, W.LocalSet(x)];
      ExecThen(host, [zero, W.LocalSet(y)], [zero, W.LocalSet(x)], stack, st, stack, st1);
      assert st.locals[y := v][x := v] == st.locals[..x] + [v, v] + st.locals[x + 2..];
    } else {
      assert st.locals[x := v] == st.locals[..x] + [v] + st.locals[x + 1..];
    }
  }

  lemma SetConst(host: W.Host, i: W.Instr, v: W.Value, x: nat, stack: seq<W.Value>, st: W.State)
    requires x < |st.locals| && ((i == W.I32Const(0) && v == W.I32V(0)) || (i == W.I64Const(0) && v == W.I64V(0)))
    ensures W.Exec(host, [i, W.LocalSet(x)], stack, st) == W.Normal(stack, st.(locals := st.locals[x := v]))
  {
    ExecTwo(host, i, W.LocalSet(x), stack, st);
    assert (stack + [v])[..|stack|] == stack;
  }

  /** What is emitted for DROP, and what it does. */
  lemma DropParts(fn: M.Function, oracle: M.Oracle, pc: nat, stack: seq<M.Value>, st: M.State)
    ensures var ks, n := M.KindsOf(stack), |stack| - 1; var r := EmitSimple(fn, M.Drop, ks);
      && r.Ok? && KindsAfter(fn, M.Drop, ks) == Some(if n < 0 then ks else ks[..n])
      && r.code == (if n < 0 then [] else if M.KindOf(stack[n]) == M.KStr then [W.Drop, W.Drop] else [W.Drop])
      && M.StepSimple(fn, oracle, M.Drop, pc, stack, st) == M.Goto(pc + 1, if n < 0 then stack else stack[..n], st)
  {
    hide M.KindOf;
  }

  lemma DropSim(fn: M.Function, oracle: M.Oracle, pc: nat, base: seq<M.Value>, stack: seq<M.Value>, ks: Kinds,
      st: M.State, w: W.State)
    requires Ready(fn, base, stack, ks, Pops(M.Drop, |ks|), st, w)
    ensures KindsAfter(fn, M.Drop, ks).Some? && EmitSimple(fn, M.Drop, ks).Ok?
    ensures Agree(fn, base, KindsAfter(fn, M.Drop, ks).value, pc + 1, M.StepSimple(fn, oracle, M.Drop, pc, stack, st),
      Ran(fn, oracle, EmitSimple(fn, M.Drop, ks).code, base, stack, w))
  {
    hide W.Exec, Agree, StatesMatch, W.Expand, EmitSimple, KindsAfter, M.StepSimple, M.KindOf, W.Slots;
    DropParts(fn, oracle, pc, stack, st);
    if |stack| > 0 {
      var n := |stack| - 1;
      Popped(base, stack);
      DropCorrect(W.HostOf(fn, oracle), stack[n], W.Expand(stack[..n][|base|..]), w);
      AgreePopped(fn, base, stack[..n], pc + 1, st, w);
    } else {
      NothingRun(W.HostOf(fn, oracle), W.Expand(stack[|base|..]), w);
      AgreePopped(fn, base, stack, pc + 1, st, w);
    }
  }

  lemma NothingRun(host: W.Host, stack: seq<W.Value>, st: W.State)
    ensures W.Exec(host, [], stack, st) == W.Normal(stack, st)
  {
  }

  lemma DropCorrect(host: W.Host, v: M.Value, below: seq<W.Value>, st: W.State)
    ensures W.Exec(host, if M.KindOf(v) == M.KStr then [W.Drop, W.Drop] else [W.Drop], below + W.Slots(v), st)
      == W.Normal(below, st)
  {
    hide W.Exec;
    if v.MStr? {
      var one := below + [W.I32V(v.ptr)];
      var two := one + [W.I32V(v.len)];
      assert below + W.Slots(v) == two && two[..|two| - 1] == one && one[..|one| - 1] == below;
      ExecTwo(host, W.Drop, W.Drop, two, st);
    } else {
      var all := below + W.Slots(v);
      assert all[..|all| - 1] == below;
      ExecOne(host, W.Drop, all, st);
    }
  }

  /** What is emitted for ASSERT, and what it does. */
  lemma AssertParts(fn: M.Function, oracle: M.Oracle, pc: nat, stack: seq<M.Value>, st: M.State)
    requires stack != [] && EmitSimple(fn, M.Assert, M.KindsOf(stack)).Ok?
    ensures var ks, n := M.KindsOf(stack), |stack| - 1;
      && stack[n].MI32? && KindsAfter(fn, M.Assert, ks) == Some(ks[..n])
      && EmitSimple(fn, M.Assert, ks).code == [W.Numeric(0x45), W.If([W.Unreachable])]
      && M.StepSimple(fn, oracle, M.Assert, pc, stack, st)
         == if stack[n].i32 == 0 then M.Trapped(st) else M.Goto(pc + 1, stack[..n], st)
  {
  }

  lemma AssertSim(fn: M.Function, oracle: M.Oracle, pc: nat, base: seq<M.Value>, stack: seq<M.Value>, ks: Kinds,
      st: M.State, w: W.State)
    requires Ready(fn, base, stack, ks, 1, st, w) && EmitSimple(fn, M.Assert, ks).Ok?
    ensures KindsAfter(fn, M.Assert, ks).Some?
    ensures Agree(fn, base, KindsAfter(fn, M.Assert, ks).value, pc + 1,
      M.StepSimple(fn, oracle, M.Assert, pc, stack, st),
      Ran(fn, oracle, EmitSimple(fn, M.Assert, ks).code, base, stack, w))
  {
    hide W.Exec, Agree, StatesMatch, W.Expand, EmitSimple, KindsAfter, M.StepSimple;
    var n := |stack| - 1;
    AssertParts(fn, oracle, pc, stack, st);
    Popped(base, stack);
    AssertCorrect(W.HostOf(fn, oracle), stack[n].i32, W.Expand(stack[..n][|base|..]), w);
    AgreePopped(fn, base, stack[..n], pc + 1, st, w);
    AgreeTrapped(fn, base, ks[..n], pc + 1, st, w);
  }

  lemma AssertCorrect(host: W.Host, c: I32, below: seq<W.Value>, st: W.State)
    ensures W.Exec(host, [W.Numeric(0x45), W.If([W.Unreachable])], below + [W.I32V(c)], st)
         == if c == 0 then W.Trap(st) else W.Normal(below, st)
  {
    var flag := W.I32V(if c == 0 then 1 else 0);
    assert [W.Numeric(0x45), W.If([W.Unreachable])] == [W.Numeric(0x45)] + [W.If([W.Unreachable])];
    UnopCorrect(host, 0x45, W.I32V(c), below, st);
    ExecThen(host, [W.Numeric(0x45)], [W.If([W.Unreachable])], below + [W.I32V(c)], st, below + [flag], st);
    ExecOne(host, W.If([W.Unreachable]), below + [flag], st);
    ExecOne(host, W.Unreachable, [], st);
    assert (below + [flag])[..|below|] == below;
  }

  // ---- calls ------------------------------------------------------------------------------

  lemma CallSim(fn: M.Function, oracle: M.Oracle, f: nat, argc: nat, pc: nat, base: seq<M.Value>, stack: seq<M.Value>,
      ks: Kinds, st: M.State, w: W.State)
    requires Ready(fn, base, stack, ks, argc, st, w) && (argc > 0 ==> NeedsCallScratch(fn))
    requires EmitSimple(fn, M.CallFn(f, argc), ks).Ok? && KindsAfter(fn, M.CallFn(f, argc), ks).Some?
    ensures Agree(fn, base, KindsAfter(fn, M.CallFn(f, argc), ks).value, pc + 1,
      M.StepSimple(fn, oracle, M.CallFn(f, argc), pc, stack, st),
      Ran(fn, oracle, EmitSimple(fn, M.CallFn(f, argc), ks).code, base, stack, w))
  {
    hide W.Slots, W.Exec, W.ExecInstr, Held, LocalsMatch, W.Expand, CallOutcome, PlanArgs, ReloadArgs, M.StepCall,
      Agree,
      NeedsCallScratch, EmitSimple, EmitCall, KindsAfter, M.StepSimple, StatesMatch, M.ArgsCoercible;
    var n := |stack| - argc;
    CallInst(fn, oracle, f, argc, ks, pc, stack, st);
    var args, rest := stack[n..], stack[..n];
    SplitCall(base, stack, argc);
    CallShape(fn, f, argc, ks, args);
    var code := EmitCall(fn, f, argc, ks).code;
    var o := CallRun(fn, oracle, f, args, code, W.Expand(rest[|base|..]), st, w);
    CallAgrees(fn, oracle, f, args, pc, base, rest, st, o);
  }

  /** A call is emitted, typed and stepped as a call. */
  lemma CallInst(fn: M.Function, oracle: M.Oracle, f: nat, argc: nat, ks: Kinds, pc: nat, stack: seq<M.Value>,
      st: M.State)
    ensures EmitSimple(fn, M.CallFn(f, argc), ks) == EmitCall(fn, f, argc, ks)
    ensures M.StepSimple(fn, oracle, M.CallFn(f, argc), pc, stack, st)
      == M.StepCall(fn, oracle, f, argc, pc, stack, st)
    ensures KindsAfter(fn, M.CallFn(f, argc), ks).Some? ==> argc <= |ks|
  {
    hide EmitCall, M.StepCall;
  }

  lemma SplitCall(base: seq<M.Value>, stack: seq<M.Value>, argc: nat)
    requires base <= stack && |stack| >= |base| + argc
    ensures var n := |stack| - argc;
      base <= stack[..n] && stack == stack[..n] + stack[n..]
      && M.KindsOf(stack[..n]) == M.KindsOf(stack)[..n] && M.KindsOf(stack[n..]) == M.KindsOf(stack)[n..]
      && W.Expand(stack[|base|..]) == W.Expand(stack[..n][|base|..]) + W.Expand(stack[n..])
  {
    var n := |stack| - argc;
    KindsOfTake(stack, n);
    SplitAbove(base, stack, n);
    ExpandConcat(stack[..n][|base|..], stack[n..]);
  }

  lemma SplitAbove(base: seq<M.Value>, stack: seq<M.Value>, n: nat)
    requires base <= stack && |base| <= n <= |stack|
    ensures base <= stack[..n] && stack == stack[..n] + stack[n..]
    ensures stack[|base|..] == stack[..n][|base|..] + stack[n..]
  {
  }

  lemma CallShape(fn: M.Function, f: nat, argc: nat, ks: Kinds, args: seq<M.Value>)
    requires argc <= |ks| && M.KindsOf(args) == ks[|ks| - argc..]
    requires EmitCall(fn, f, argc, ks).Ok? && KindsAfter(fn, M.CallFn(f, argc), ks).Some?
    ensures f < |fn.sigs| && |args| == argc && M.ArgsCoercible(args, fn.sigs[f].params)
    ensures var plan := PlanArgs(fn, fn.sigs[f].params, M.KindsOf(args), 0, 0);
      plan.Plan? && EmitCall(fn, f, argc, ks).code
        == plan.code + ReloadArgs(fn.sigs[f].params, plan.homes) + [W.Call(f)]
    ensures KindsAfter(fn, M.CallFn(f, argc), ks).value == ks[..|ks| - argc] + ResultKinds(fn.sigs[f].result)
  {
    hide EmitRange, W.SlotTypes, PlanArgs, ReloadArgs;
    assert ArgKindsOk(M.KindsOf(args), fn.sigs[f].params);
  }

  /** What the code emitted for a call comes to: the callee's answer, with the MIR locals as they were. */
  ghost predicate CallOutcome(fn: M.Function, oracle: M.Oracle, f: nat, args: seq<M.Value>, below: seq<W.Value>,
      st: M.State, o: W.Outcome)
    requires f < |fn.sigs| && M.ArgsCoercible(args, fn.sigs[f].params)
  {
    var cargs := M.CoerceAll(args, fn.sigs[f].params);
    var st' := st.(trace := st.trace + [(f, cargs)]);
    match oracle.reply(st.trace, f, cargs)
    case None => o.Trap? && o.st.trace == st'.trace && o.st.fuel == st.fuel
    case Some(payload) =>
      o.Normal? && StatesMatch(fn, st', o.st)
      && o.stack == below
        + (if fn.sigs[f].result.None? then [] else W.Slots(M.ValueOf(fn.sigs[f].result.value, payload)))
  }

  lemma CallRun(fn: M.Function, oracle: M.Oracle, f: nat, args: seq<M.Value>, code: seq<W.Instr>, below: seq<W.Value>,
      st: M.State, w: W.State) returns (o: W.Outcome)
    requires f < |fn.sigs| && M.ArgsCoercible(args, fn.sigs[f].params) && StatesMatch(fn, st, w)
      && (|args| > 0 ==> NeedsCallScratch(fn))
    requires var plan := PlanArgs(fn, fn.sigs[f].params, M.KindsOf(args), 0, 0);
      plan.Plan? && code == plan.code + ReloadArgs(fn.sigs[f].params, plan.homes) + [W.Call(f)]
    ensures o == W.Exec(W.HostOf(fn, oracle), code, below + W.Expand(args), w)
    ensures CallOutcome(fn, oracle, f, args, below, st, o)
  {
    var params := fn.sigs[f].params;
    var plan := PlanArgs(fn, params, M.KindsOf(args), 0, 0);
    var cargs := M.CoerceAll(args, params);
    var w1 := CallArgsCorrect(fn, oracle, params, args, below, w);
    ExecThen(W.HostOf(fn, oracle), plan.code + ReloadArgs(params, plan.homes), [W.Call(f)], below + W.Expand(args), w,
      below + W.Expand(cargs), w1);
    CallCorrect(fn, oracle, f, cargs, below, w1);
    HeldKept(fn, st.locals, w, w1);
    o := W.Exec(W.HostOf(fn, oracle), code, below + W.Expand(args), w);
    if o.Normal? {
      HeldKept(fn, st.locals, w1, o.st);
    }
  }

  lemma CallAgrees(fn: M.Function, oracle: M.Oracle, f: nat, args: seq<M.Value>, pc: nat, base: seq<M.Value>,
      rest: seq<M.Value>, st: M.State, o: W.Outcome)
    requires base <= rest && f < |fn.sigs| && M.ArgsCoercible(args, fn.sigs[f].params)
    requires CallOutcome(fn, oracle, f, args, W.Expand(rest[|base|..]), st, o)
    ensures Agree(fn, base, M.KindsOf(rest) + ResultKinds(fn.sigs[f].result), pc + 1,
      M.StepCall(fn, oracle, f, |args|, pc, rest + args, st), o)
  {
    hide W.Slots, W.Exec, W.ExecInstr, Held, LocalsMatch, EmitRange;
    var n := |rest|;
    assert (rest + args)[n..] == args && (rest + args)[..n] == rest;
    var cargs := M.CoerceAll(args, fn.sigs[f].params);
    var st' := st.(trace := st.trace + [(f, cargs)]);
    var reply := oracle.reply(st.trace, f, cargs);
    if reply.Some? {
      if fn.sigs[f].result.None? {
        assert rest + [] == rest && M.KindsOf(rest) + [] == M.KindsOf(rest);
        assert W.Expand(rest[|base|..]) + [] == W.Expand(rest[|base|..]);
        AgreePopped(fn, base, rest, pc + 1, st', o.st);
      } else {
        AgreePushed(fn, base, rest, M.ValueOf(fn.sigs[f].result.value, reply.value), pc + 1, st', o.st);
      }
    }
  }

  /** After the arguments were parked and reloaded, they lie on the stack in the callee's form. */
  lemma CallArgsCorrect(fn: M.Function, oracle: M.Oracle, params: Kinds, args: seq<M.Value>, below: seq<W.Value>,
      w: W.State) returns (w1: W.State)
    requires M.ArgsCoercible(args, params) && |w.locals| == LocalCount(fn) && (|args| > 0 ==> NeedsCallScratch(fn))
    requires PlanArgs(fn, params, M.KindsOf(args), 0, 0).Plan?
    ensures var plan := PlanArgs(fn, params, M.KindsOf(args), 0, 0);
      W.Exec(W.HostOf(fn, oracle), plan.code + ReloadArgs(params, plan.homes), below + W.Expand(args), w)
      == W.Normal(below + W.Expand(M.CoerceAll(args, params)), w1)
    ensures w1.trace == w.trace && w1.fuel == w.fuel && w1.store == w.store && |w1.locals| == |w.locals|
    ensures forall x :: 0 <= x < |w.locals| && x < ScratchI32(fn) ==> w1.locals[x] == w.locals[x]
    ensures M.KindsOf(M.CoerceAll(args, params)) == params
  {
    var plan := PlanArgs(fn, params, M.KindsOf(args), 0, 0);
    var cargs := M.CoerceAll(args, params);
    assert M.KindsOf(cargs) == params;
    if args == [] {
      w1 := w;
      assert W.Expand(cargs) == [] && W.Expand(args) == [];
      assert below + [] == below;
    } else {
      ArgPopsCorrect(fn, oracle, params, args, 0, 0, below, w);
      w1 := W.Exec(W.HostOf(fn, oracle), plan.code, below + W.Expand(args), w).st;
      forall x | 0 <= x < |w.locals| && x < ScratchI32(fn)
        ensures w1.locals[x] == w.locals[x]
      {
        assert Outside(fn, 0, 0, x);
      }
      ReloadCorrect(W.HostOf(fn, oracle), cargs, plan.homes, below, w1);
      ExecThen(W.HostOf(fn, oracle), plan.code, ReloadArgs(params, plan.homes), below + W.Expand(args), w, below, w1);
    }
  }

  lemma CallCorrect(fn: M.Function, oracle: M.Oracle, f: nat, args: seq<M.Value>, below: seq<W.Value>, st: W.State)
    requires f < |fn.sigs| && M.KindsOf(args) == fn.sigs[f].params
    ensures W.Exec(W.HostOf(fn, oracle), [W.Call(f)], below + W.Expand(args), st)
      == var st' := st.(trace := st.trace + [(f, args)]);
         var reply := oracle.reply(st.trace, f, args);
         if reply.None? then W.Trap(st')
         else W.Normal(below
           + (if fn.sigs[f].result.None? then [] else W.Slots(M.ValueOf(fn.sigs[f].result.value, reply.value))),
                       st'.(store := oracle.effect(st.store, st.trace, f, args)))
  {
    hide W.Expand, W.ExpandTypes, W.Slots, W.Collapse, W.ExecNumeric, W.LeaveBlock;
    var all := below + W.Expand(args);
    ExecOne(W.HostOf(fn, oracle), W.Call(f), all, st);
    CollapseExpand(args);
    var n := |W.ExpandTypes(fn.sigs[f].params)|;
    assert all[|all| - n..] == W.Expand(args) && all[..|all| - n] == below;
  }

  // ---- all of them ------------------------------------------------------------------------

  lemma SimpleSim(fn: M.Function, oracle: M.Oracle, inst: M.Inst, pc: nat, base: seq<M.Value>, stack: seq<M.Value>,
      ks: Kinds, st: M.State, w: W.State)
    requires fn.frame.None? && Ready(fn, base, stack, ks, Pops(inst, |ks|), st, w) && !M.IsControl(inst)
    requires inst.CallFn? && inst.argc > 0 ==> NeedsCallScratch(fn)
    requires EmitSimple(fn, inst, ks).Ok? && KindsAfter(fn, inst, ks).Some?
    ensures Agree(fn, base, KindsAfter(fn, inst, ks).value, pc + 1, M.StepSimple(fn, oracle, inst, pc, stack, st),
      Ran(fn, oracle, EmitSimple(fn, inst, ks).code, base, stack, w))
  {
    match inst
    case Unary(tok) => UnarySim(fn, oracle, tok, pc, base, stack, ks, st, w);
    case Binary(tok) => BinarySim(fn, oracle, tok, pc, base, stack, ks, st, w);
    case Cast(k) => CastSim(fn, oracle, k, pc, base, stack, ks, st, w);
    case LocalLoad(i) => LoadSim(fn, oracle, i, pc, base, stack, ks, st, w);
    case LocalStore(i) => StoreSim(fn, oracle, i, pc, base, stack, ks, st, w);
    case LocalZero(i) => ZeroSim(fn, oracle, i, pc, base, stack, ks, st, w);
    case Drop => DropSim(fn, oracle, pc, base, stack, ks, st, w);
    case Assert => AssertSim(fn, oracle, pc, base, stack, ks, st, w);
    case CallFn(f, argc) => CallSim(fn, oracle, f, argc, pc, base, stack, ks, st, w);
    case _ => PushCorrect(fn, oracle, inst, pc, base, stack, ks, st, w);
  }
}
