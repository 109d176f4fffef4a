/** What validation is for: code that validates never gets stuck, and leaves what its type says. */
module Soundness {
  import opened Words
  import Mir
  import opened Memory
  import opened Wasm
  import S = Slots
  import opened Validation

  /** The topmost values have the given types. */
  predicate HasTop(stack: seq<Value>, ts: Types) {
    |stack| >= |ts| && TypesOf(stack[|stack| - |ts|..]) == ts
  }

  /** Locals have their declared types, and the globals are there; all of them are 32-bit. */
  predicate LocalsTyped(c: Context, st: State) {
    TypesOf(st.locals) == c.locals && |st.store.globals| == c.globals
  }

  /** An outcome that the type `v` allows. */
  predicate Allowed(c: Context, v: Operands, o: Outcome) {
    match o
    case Normal(stack, st) => !v.poly && TypesOf(stack) == v.vals && LocalsTyped(c, st)
    case Branch(d, stack, st) => d < |c.labels| && HasTop(stack, c.labels[d]) && LocalsTyped(c, st)
    case Returning(stack, _) => HasTop(stack, c.result)
    case Stuck => false
    case _ => true
  }

  function Known(stack: seq<Value>): Operands {
    Operands(TypesOf(stack), false)
  }

  lemma TypesOfConcat(a: seq<Value>, b: seq<Value>)
    ensures TypesOf(a + b) == TypesOf(a) + TypesOf(b)
  {
  }

  lemma TypesOfSlice(a: seq<Value>, n: nat)
    requires n <= |a|
    ensures TypesOf(a[..n]) == TypesOf(a)[..n] && TypesOf(a[n..]) == TypesOf(a)[n..]
  {
  }

  lemma {:induction false} PopTypes(vals: Types, ts: Types)
    requires PopAll(Operands(vals, false), ts).Some?
    ensures |ts| <= |vals| && vals[|vals| - |ts|..] == ts
      && PopAll(Operands(vals, false), ts).value == Operands(vals[..|vals| - |ts|], false)
    decreases |ts|
  {
    if ts == [] {
      assert vals[..|vals|] == vals;
    } else {
      var n, front := |vals| - 1, ts[..|ts| - 1];
      PopTypes(vals[..n], front);
      assert vals == vals[..n] + [vals[n]] && ts == front + [ts[|ts| - 1]];
    }
  }

  /** Popping known types takes exactly the values of those types off. */
  lemma PopKnown(stack: seq<Value>, ts: Types)
    requires PopAll(Known(stack), ts).Some?
    ensures |ts| <= |stack| && HasTop(stack, ts) && PopAll(Known(stack), ts).value == Known(stack[..|stack| - |ts|])
  {
    hide PopAll;
    var all := TypesOf(stack);
    PopTypes(all, ts);
    var m := |stack| - |ts|;
    TypesOfSlice(stack, m);
  }

  /** Leaving a block whose body has the block's type. */
  lemma LeaveAllowed(c: Context, results: Types, body: Operands, o: Outcome, outer: seq<Value>)
    requires Allowed(c.Inside(results), body, o) && Ends(body, results)
    ensures Allowed(c, Operands(TypesOf(outer) + results, false), LeaveBlock(o, |results|, outer))
  {
    match o
    case Normal(inner, st) =>
      assert body == Known(inner);
      PopKnown(inner, results);
      assert inner[|inner| - |results|..] == inner;
      TypesOfConcat(outer, inner);
    case Branch(d, inner, st) =>
      if d > 0 {
        assert c.Inside(results).labels[d] == c.labels[d - 1];
        var m := |c.labels[d - 1]|;
        assert (outer + inner)[|outer + inner| - m..] == inner[|inner| - m..];
      } else {
        TypesOfConcat(outer, inner[|inner| - |results|..]);
      }
    case _ =>
  }

  lemma {:induction false} CodeIsSafe(c: Context, host: Host, code: seq<Instr>, stack: seq<Value>, st: State)
    requires Check(c, code, Known(stack)).Some? && LocalsTyped(c, st) && host.sigs == c.sigs && LeavesShape(host)
    ensures Allowed(c, Check(c, code, Known(stack)).value, Exec(host, code, stack, st))
    decreases st.fuel, code, 1
  {
    hide CheckInstr, ExecInstr;
    if code != [] {
      InstrIsSafe(c, host, code[0], stack, st);
      var o := ExecInstr(host, code[0], stack, st);
      if o.Normal? {
        assert CheckInstr(c, code[0], Known(stack)).value == Known(o.stack);
        CodeIsSafe(c, host, code[1..], o.stack, o.st);
      }
    }
  }

  lemma {:induction false} InstrIsSafe(c: Context, host: Host, i: Instr, stack: seq<Value>, st: State)
    requires CheckInstr(c, i, Known(stack)).Some? && LocalsTyped(c, st) && host.sigs == c.sigs && LeavesShape(host)
    ensures Allowed(c, CheckInstr(c, i, Known(stack)).value, ExecInstr(host, i, stack, st))
    decreases st.fuel, i, 1
  {
    match i
    case Block(body) => BlockIsSafe(c, host, i, stack, st);
    case Loop(body) => LoopIsSafe(c, host, i, stack, st);
    case If(thn) => IfIsSafe(c, host, i, stack, st);
    case IfElse(t, thn, els) => IfElseIsSafe(c, host, i, stack, st);
    case _ => FlatIsSafe(c, host, i, stack, st);
  }

  lemma {:induction false} BlockIsSafe(c: Context, host: Host, i: Instr, stack: seq<Value>, st: State)
    requires i.Block? && CheckInstr(c, i, Known(stack)).Some? && LocalsTyped(c, st) && host.sigs == c.sigs
      && LeavesShape(host)
    ensures Allowed(c, CheckInstr(c, i, Known(stack)).value, ExecInstr(host, i, stack, st))
    decreases st.fuel, i, 0
  {
    hide Check, Exec, Allowed, LeaveBlock;
    var inner := c.Inside([]);
    EmptyKnown();
    CodeIsSafe(inner, host, i.body, [], st);
    LeaveAllowed(c, [], Check(inner, i.body, Known([])).value, Exec(host, i.body, [], st), stack);
    assert TypesOf(stack) + [] == TypesOf(stack);
  }

  lemma EmptyKnown()
    ensures Known([]) == Operands([], false)
  {
  }

  lemma {:induction false} LoopIsSafe(c: Context, host: Host, i: Instr, stack: seq<Value>, st: State)
    requires i.Loop? && CheckInstr(c, i, Known(stack)).Some? && LocalsTyped(c, st) && host.sigs == c.sigs
      && LeavesShape(host)
    ensures Allowed(c, CheckInstr(c, i, Known(stack)).value, ExecInstr(host, i, stack, st))
    decreases st.fuel, i, 0
  {
    hide Check, Exec, LeaveBlock;
    var inner := c.Inside([]);
    EmptyKnown();
    CodeIsSafe(inner, host, i.body, [], st);
    var o := Exec(host, i.body, [], st);
    if o.Branch? && o.depth == 0 {
      if o.st.fuel > 0 {
        LoopIsSafe(c, host, i, stack, o.st.(fuel := o.st.fuel - 1));
      }
    } else {
      LeaveAllowed(c, [], Check(inner, i.body, Known([])).value, o, stack);
      assert TypesOf(stack) + [] == TypesOf(stack);
    }
  }

  lemma {:induction false} IfIsSafe(c: Context, host: Host, i: Instr, stack: seq<Value>, st: State)
    requires i.If? && CheckInstr(c, i, Known(stack)).Some? && LocalsTyped(c, st) && host.sigs == c.sigs
      && LeavesShape(host)
    ensures Allowed(c, CheckInstr(c, i, Known(stack)).value, ExecInstr(host, i, stack, st))
    decreases st.fuel, i, 0
  {
    hide Check, Exec, LeaveBlock;
    var inner := c.Inside([]);
    EmptyKnown();
    PopKnown(stack, [TI32]);
    TopI32(stack);
    var outer := stack[..|stack| - 1];
    CodeIsSafe(inner, host, i.thn, [], st);
    LeaveAllowed(c, [], Check(inner, i.thn, Known([])).value, Exec(host, i.thn, [], st), outer);
    assert TypesOf(outer) + [] == TypesOf(outer);
  }

  lemma TopI32(stack: seq<Value>)
    requires HasTop(stack, [TI32])
    ensures |stack| > 0 && stack[|stack| - 1].I32V?
  {
    assert TypesOf(stack[|stack| - 1..])[0] == TI32;
  }

  lemma {:induction false} IfElseIsSafe(c: Context, host: Host, i: Instr, stack: seq<Value>, st: State)
    requires i.IfElse? && CheckInstr(c, i, Known(stack)).Some? && LocalsTyped(c, st) && host.sigs == c.sigs
      && LeavesShape(host)
    ensures Allowed(c, CheckInstr(c, i, Known(stack)).value, ExecInstr(host, i, stack, st))
    decreases st.fuel, i, 0
  {
    hide Check, Exec, LeaveBlock;
    var results := ResultTypes(i.result);
    var inner := c.Inside(results);
    EmptyKnown();
    PopKnown(stack, [TI32]);
    TopI32(stack);
    var outer := stack[..|stack| - 1];
    CodeIsSafe(inner, host, i.thn, [], st);
    CodeIsSafe(inner, host, i.els, [], st);
    LeaveAllowed(c, results, Check(inner, i.thn, Known([])).value, Exec(host, i.thn, [], st), outer);
    LeaveAllowed(c, results, Check(inner, i.els, Known([])).value, Exec(host, i.els, [], st), outer);
  }

  lemma NumericIsSafe(c: Context, op: Byte, stack: seq<Value>, st: State)
    requires CheckInstr(c, Numeric(op), Known(stack)).Some? && LocalsTyped(c, st)
    ensures Allowed(c, CheckInstr(c, Numeric(op), Known(stack)).value, ExecNumeric(op, stack, st))
  {
    hide ExecNumeric, NumericType, Allowed, Apply, LocalsTyped;
    NumericShape(op);
    ApplyKnown(stack, NumericType(op).value.0, NumericType(op).value.1);
    var ps := NumericType(op).value.0;
    if IsUnop(op) {
      LastOf(stack, ps[0]);
      UnopExec(c, op, stack, st);
    } else {
      LastTwo(stack, ps[0]);
      BinopExec(c, op, stack, st);
    }
  }

  /** Unary instructions take one operand, all others two of one type. */
  lemma NumericShape(op: Byte)
    requires NumericType(op).Some?
    ensures var ps := NumericType(op).value.0; if IsUnop(op) then ps == [ps[0]] else ps == [ps[0], ps[0]]
  {
  }

  lemma ApplyKnown(stack: seq<Value>, ps: Types, q: ValType)
    requires Apply(Known(stack), ps, [q]).Some?
    ensures |ps| <= |stack| && HasTop(stack, ps)
    ensures Apply(Known(stack), ps, [q]).value == PushAll(Known(stack[..|stack| - |ps|]), [q])
  {
    hide PopAll, PushAll, Known, HasTop;
    PopKnown(stack, ps);
  }

  lemma UnopExec(c: Context, op: Byte, stack: seq<Value>, st: State)
    requires NumericType(op).Some? && IsUnop(op) && |stack| > 0 && LocalsTyped(c, st)
    requires TypeOf(stack[|stack| - 1]) == NumericType(op).value.0[0]
    ensures Allowed(c, PushAll(Known(stack[..|stack| - 1]), [NumericType(op).value.1]), ExecNumeric(op, stack, st))
  {
    hide Allowed, LocalsTyped, PushAll, Known, NumericType, Unop;
    var a := stack[|stack| - 1];
    UnopIsSafe(op, a);
    OneResult(c, stack[..|stack| - 1], Unop(op, a), NumericType(op).value.1, st);
  }

  lemma BinopExec(c: Context, op: Byte, stack: seq<Value>, st: State)
    requires NumericType(op).Some? && !IsUnop(op) && |stack| > 1 && LocalsTyped(c, st)
    requires TypeOf(stack[|stack| - 1]) == TypeOf(stack[|stack| - 2]) == NumericType(op).value.0[0]
    ensures Allowed(c, PushAll(Known(stack[..|stack| - 2]), [NumericType(op).value.1]), ExecNumeric(op, stack, st))
  {
    hide Allowed, LocalsTyped, PushAll, Known, NumericType, Binop;
    var a, b := stack[|stack| - 2], stack[|stack| - 1];
    BinopIsSafe(op, a, b);
    OneResult(c, stack[..|stack| - 2], Binop(op, a, b), NumericType(op).value.1, st);
  }

  /** A numeric instruction leaves one value of its result type, or traps. */
  lemma OneResult(c: Context, below: seq<Value>, r: NumResult, t: ValType, st: State)
    requires !r.NumStuck? && (r.Value? ==> TypeOf(r.v) == t) && LocalsTyped(c, st)
    ensures Allowed(c, PushAll(Known(below), [t]), if r.Value? then Normal(below + [r.v], st) else Trap(st))
  {
    if r.Value? {
      AllowedPush(c, below, [r.v], st, [t]);
    }
  }

  lemma UnopIsSafe(op: Byte, a: Value)
    requires NumericType(op).Some? && IsUnop(op) && TypeOf(a) == NumericType(op).value.0[0]
    ensures Unop(op, a).Value? && TypeOf(Unop(op, a).v) == NumericType(op).value.1
  {
  }

  lemma LastOf(stack: seq<Value>, t: ValType)
    requires HasTop(stack, [t])
    ensures |stack| > 0 && TypeOf(stack[|stack| - 1]) == t
  {
    assert TypesOf(stack[|stack| - 1..])[0] == t;
  }

  lemma LastTwo(stack: seq<Value>, t: ValType)
    requires HasTop(stack, [t, t])
    ensures |stack| > 1 && TypeOf(stack[|stack| - 1]) == t && TypeOf(stack[|stack| - 2]) == t
  {
    var top := stack[|stack| - 2..];
    assert TypesOf(top)[0] == t && TypesOf(top)[1] == t;
  }

  lemma BinopIsSafe(op: Byte, a: Value, b: Value)
    requires NumericType(op).Some? && !IsUnop(op) && TypeOf(a) == TypeOf(b) == NumericType(op).value.0[0]
    ensures !Binop(op, a, b).NumStuck?
      && (Binop(op, a, b).Value? ==> TypeOf(Binop(op, a, b).v) == NumericType(op).value.1)
  {
  }

  lemma CallIsSafe(c: Context, host: Host, f: nat, stack: seq<Value>, st: State)
    requires CheckInstr(c, Call(f), Known(stack)).Some? && LocalsTyped(c, st) && host.sigs == c.sigs
      && LeavesShape(host)
    ensures Allowed(c, CheckInstr(c, Call(f), Known(stack)).value, ExecCall(host, f, stack, st))
  {
    hide ExpandTypes, Collapse, Mir.ValueOf, Wasm.Slots, SlotTypes, PopAll, PushAll, Known, Allowed;
    var ps := ExpandTypes(c.sigs[f].params);
    PopKnown(stack, ps);
    var below := stack[..|stack| - |ps|];
    var args := Collapse(c.sigs[f].params, stack[|stack| - |ps|..]);
    var st' := st.(trace := st.trace + [(f, args)]);
    var reply := host.call(st.store, st.trace, f, args);
    if reply.None? {
      AllowedTrap(c, PushAll(Known(below), KindTypes(c.sigs[f].result)), st');
    } else {
      var after := st'.(store := reply.value.store);
      assert KeepsShape(st.store, after.store);
      if c.sigs[f].result.Some? {
        var k := c.sigs[f].result.value;
        ResultTyped(k, reply.value.payload);
        AllowedPush(c, below, Wasm.Slots(Mir.ValueOf(k, reply.value.payload)), after, SlotTypes(k));
      } else {
        NoValues();
        AllowedPush(c, below, [], after, []);
      }
    }
  }

  lemma NoValues()
    ensures TypesOf([]) == []
  {
  }

  lemma AllowedTrap(c: Context, v: Operands, st: State)
    ensures Allowed(c, v, Trap(st))
  {
  }

  lemma AllowedPush(c: Context, below: seq<Value>, top: seq<Value>, st: State, ts: Types)
    requires TypesOf(top) == ts && LocalsTyped(c, st)
    ensures Allowed(c, PushAll(Known(below), ts), Normal(below + top, st))
  {
    TypesOfConcat(below, top);
  }

  lemma ResultTyped(k: Mir.Kind, payload: (int, int))
    ensures TypesOf(Wasm.Slots(Mir.ValueOf(k, payload))) == SlotTypes(k)
  {
    S.SlotsTyped(Mir.ValueOf(k, payload));
  }

  lemma BrIfIsSafe(c: Context, host: Host, d: nat, stack: seq<Value>, st: State)
    requires CheckInstr(c, BrIf(d), Known(stack)).Some? && LocalsTyped(c, st) && host.sigs == c.sigs
      && LeavesShape(host)
    ensures Allowed(c, CheckInstr(c, BrIf(d), Known(stack)).value, ExecInstr(host, BrIf(d), stack, st))
  {
    hide ExecNumeric, ExecCall, LeaveBlock, PopAll, PushAll, Known, Allowed, HasTop;
    var l := c.labels[d];
    PopKnown(stack, l + [TI32]);
    BelowTop(stack, l);
    var n := |stack| - 1;
    var below, top := stack[..n - |l|], stack[n - |l|..n];
    assert stack[..n] == below + top && stack[..|stack| - |l + [TI32]|] == below;
    AllowedBranch(c, PushAll(Known(below), l), d, stack[..n], st);
    AllowedPush(c, below, top, st, l);
  }

  lemma AllowedBranch(c: Context, v: Operands, d: nat, stack: seq<Value>, st: State)
    requires d < |c.labels| && HasTop(stack, c.labels[d]) && LocalsTyped(c, st)
    ensures Allowed(c, v, Branch(d, stack, st))
  {
  }

  /** Values of types `l` under a 32-bit one. */
  lemma BelowTop(stack: seq<Value>, l: Types)
    requires HasTop(stack, l + [TI32])
    ensures var n := |stack| - 1; n >= |l| && stack[n].I32V? && TypesOf(stack[n - |l|..n]) == l && HasTop(stack[..n], l)
  {
    var n, m := |stack| - 1, |stack| - 1 - |l|;
    assert TypesOf(stack[m..])[|l|] == TI32;
    assert stack[m..][..|l|] == stack[m..n] && stack[..n][m..] == stack[m..n];
    TypesOfSlice(stack[m..], |l|);
  }

  lemma LocalIsSafe(c: Context, host: Host, i: Instr, stack: seq<Value>, st: State)
    requires (i.LocalGet? || i.LocalSet?) && CheckInstr(c, i, Known(stack)).Some? && LocalsTyped(c, st)
      && host.sigs == c.sigs && LeavesShape(host)
    ensures Allowed(c, CheckInstr(c, i, Known(stack)).value, ExecInstr(host, i, stack, st))
  {
    if i.LocalGet? {
      TypesOfConcat(stack, [st.locals[i.index]]);
    } else {
      PopKnown(stack, [c.locals[i.index]]);
      LastOf(stack, c.locals[i.index]);
      var after := st.locals[i.index := stack[|stack| - 1]];
      assert TypesOf(after) == c.locals;
    }
  }

  lemma GlobalSetIsSafe(c: Context, x: nat, stack: seq<Value>, st: State)
    requires CheckInstr(c, GlobalSet(x), Known(stack)).Some? && LocalsTyped(c, st)
    ensures Allowed(c, CheckInstr(c, GlobalSet(x), Known(stack)).value, ExecGlobalSet(x, stack, st))
  {
    PopKnown(stack, [TI32]);
    LastOf(stack, TI32);
  }

  lemma LoadIsSafe(c: Context, t: ValType, stack: seq<Value>, st: State)
    requires CheckInstr(c, MemLoad(t), Known(stack)).Some? && LocalsTyped(c, st)
    ensures Allowed(c, CheckInstr(c, MemLoad(t), Known(stack)).value, ExecLoad(t, stack, st))
  {
    hide Allowed, LocalsTyped, WordAt;
    ApplyKnown(stack, [TI32], t);
    LastOf(stack, TI32);
    var o := ExecLoad(t, stack, st);
    if o.Normal? {
      var v := o.stack[|stack| - 1];
      AllowedPush(c, stack[..|stack| - 1], [v], st, [t]);
    } else {
      AllowedTrap(c, PushAll(Known(stack[..|stack| - 1]), [t]), st);
    }
  }

  lemma StoreIsSafe(c: Context, t: ValType, stack: seq<Value>, st: State)
    requires CheckInstr(c, MemStore(t), Known(stack)).Some? && LocalsTyped(c, st)
    ensures Allowed(c, CheckInstr(c, MemStore(t), Known(stack)).value, ExecStore(t, stack, st))
  {
    hide WordBytes;
    PopKnown(stack, [TI32, t]);
    var top := stack[|stack| - 2..];
    assert TypesOf(top)[0] == TI32 && TypesOf(top)[1] == t;
  }

  lemma Store8IsSafe(c: Context, stack: seq<Value>, st: State)
    requires CheckInstr(c, MemStore8, Known(stack)).Some? && LocalsTyped(c, st)
    ensures Allowed(c, CheckInstr(c, MemStore8, Known(stack)).value, ExecStore8(stack, st))
  {
    PopKnown(stack, [TI32, TI32]);
    var top := stack[|stack| - 2..];
    assert TypesOf(top)[0] == TI32 && TypesOf(top)[1] == TI32;
  }

  /** Instructions that contain no others. */
  lemma FlatIsSafe(c: Context, host: Host, i: Instr, stack: seq<Value>, st: State)
    requires !i.Block? && !i.Loop? && !i.If? && !i.IfElse? && CheckInstr(c, i, Known(stack)).Some?
      && LocalsTyped(c, st) && host.sigs == c.sigs && LeavesShape(host)
    ensures Allowed(c, CheckInstr(c, i, Known(stack)).value, ExecInstr(host, i, stack, st))
  {
    hide ExecNumeric, ExecCall, LeaveBlock, Apply, ExecLoad, ExecStore, ExecStore8, ExecGlobalSet;
    match i
    case Br(d) => PopKnown(stack, c.labels[d]);
    case BrIf(d) => BrIfIsSafe(c, host, d, stack, st);
    case Return => PopKnown(stack, c.result);
    case Call(f) => CallIsSafe(c, host, f, stack, st);
    case Drop => TypesOfSlice(stack, |stack| - 1);
    case LocalGet(_) => LocalIsSafe(c, host, i, stack, st);
    case LocalSet(_) => LocalIsSafe(c, host, i, stack, st);
    case GlobalGet(x) => TypesOfConcat(stack, [I32V(st.store.globals[x])]);
    case GlobalSet(x) => GlobalSetIsSafe(c, x, stack, st);
    case MemLoad(t) => LoadIsSafe(c, t, stack, st);
    case MemStore(t) => StoreIsSafe(c, t, stack, st);
    case MemStore8 => Store8IsSafe(c, stack, st);
    case I32Const(n) => TypesOfConcat(stack, [I32V(n)]);
    case I64Const(n) => TypesOfConcat(stack, [I64V(n)]);
    case Numeric(op) => NumericIsSafe(c, op, stack, st);
    case _ =>
  }

  /** A validated function body returns values of its result types, traps, or runs on. */
  lemma ValidBodyIsSafe(c: Context, host: Host, code: seq<Instr>, st: State)
    requires BodyOk(c, code, c.result) && LocalsTyped(c, st) && host.sigs == c.sigs && LeavesShape(host)
    ensures var o := Exec(host, code, [], st);
      && !o.Stuck?
      && (o.Normal? ==> TypesOf(o.stack) == c.result)
      && (o.Returning? ==> HasTop(o.stack, c.result))
  {
    hide Exec, Check;
    EmptyKnown();
    CodeIsSafe(c, host, code, [], st);
    var o := Exec(host, code, [], st);
    if o.Normal? {
      PopKnown(o.stack, c.result);
      assert o.stack[|o.stack| - |c.result|..] == o.stack;
    }
  }
}
