/**
 * What code has to do with frames while it runs: it works on its own frame only, it calls other
 * functions with the frame pointer at the end of that frame, and it gives the frame back before it
 * returns. Code fragments that keep to this compose.
 */
module FrameKeeping {
  import opened Words
  import opened Memory
  import M = Mir
  import opened Wasm

  /** The frame that code works on: the local that remembers its address, the address, and the size.
      `entry` is what there was when the function was entered. */
  datatype Footing =
    | NoFrame(entry: Store)
    | OwnFrame(base: nat, at: I32, size: nat, entry: Store)

  /** Where the frame pointer is while the code runs. */
  function Top(f: Footing): nat {
    FramePointer(f.entry) + if f.NoFrame? then 0 else f.size
  }

  /** The frames of callers are as they were, and the own frame is the topmost one. */
  ghost predicate Standing(f: Footing, st: State) {
    && KeepsShape(f.entry, st.store) && FramePointer(st.store) == Top(f)
    && CallersKept(f.entry, st.store)
    && (f.OwnFrame? ==>
          && f.entry.frameGlobal < |f.entry.globals| && f.at == f.entry.globals[f.entry.frameGlobal] && Top(f) < TWO32
          && f.base < |st.locals| && st.locals[f.base] == I32V(f.at))
  }

  predicate CallersKept(a: Store, b: Store)
    requires |b.memory| == |a.memory|
  {
    forall x :: a.frameStart <= x < FramePointer(a) && x < |a.memory| ==> b.memory[x] == a.memory[x]
  }

  /** Leaving by `return` gives the frame back; otherwise it is still held. */
  ghost predicate Kept(f: Footing, o: Outcome) {
    match o
    case Normal(_, st) => Standing(f, st)
    case Branch(_, _, st) => Standing(f, st)
    case Returning(_, st) => KeepsFrames(f.entry, st.store)
    case _ => true
  }

  /** Calls made with the frame pointer at `top` leave all frames below it alone. */
  ghost predicate RespectsAt(host: Host, top: nat) {
    forall s, t, f, a :: FramePointer(s) == top && host.call(s, t, f, a).Some? ==>
      KeepsFrames(s, host.call(s, t, f, a).value.store)
  }

  /** The same functions, except that a call with the frame pointer anywhere else is a trap. */
  function Guarded(host: Host, top: nat): Host {
    Host(host.sigs, (s: Store, t: M.Trace, f: nat, a: seq<M.Value>) => if FramePointer(s) == top then
      host.call(s, t, f, a) else None)
  }

  /** From any standing the code keeps it, and makes all its calls with the pointer at the frame's end. */
  ghost predicate Keeps(f: Footing, host: Host, code: seq<Instr>) {
    forall stack: seq<Value>, st: State {:trigger Exec(host, code, stack, st)} :: Standing(f, st) ==>
      KeepsOn(f, host, code, stack, st)
  }

  ghost predicate KeepsOn(f: Footing, host: Host, code: seq<Instr>, stack: seq<Value>, st: State) {
    Kept(f, Exec(host, code, stack, st)) && Exec(Guarded(host, Top(f)), code, stack, st) == Exec(host, code, stack, st)
  }

  // ---- composition -------------------------------------------------------------------------------

  lemma KeepsNothing(f: Footing, host: Host)
    ensures Keeps(f, host, [])
  {
    hide Standing;
    forall stack: seq<Value>, st: State | Standing(f, st)
      ensures KeepsOn(f, host, [], stack, st)
    {
    }
  }

  lemma KeepsThen(f: Footing, host: Host, a: seq<Instr>, b: seq<Instr>)
    requires Keeps(f, host, a) && Keeps(f, host, b)
    ensures Keeps(f, host, a + b)
  {
    hide Standing, Exec;
    forall stack: seq<Value>, st: State | Standing(f, st)
      ensures KeepsOn(f, host, a + b, stack, st)
    {
      ExecConcat(host, a, b, stack, st);
      ExecConcat(Guarded(host, Top(f)), a, b, stack, st);
      assert KeepsOn(f, host, a, stack, st);
      var o := Exec(host, a, stack, st);
      if o.Normal? {
        assert KeepsOn(f, host, b, o.stack, o.st);
      }
    }
  }

  /** One instruction. */
  ghost predicate KeepsInstr(f: Footing, host: Host, i: Instr, stack: seq<Value>, st: State) {
    Kept(f, ExecInstr(host, i, stack, st))
      && ExecInstr(Guarded(host, Top(f)), i, stack, st) == ExecInstr(host, i, stack, st)
  }

  lemma KeepsOne(f: Footing, host: Host, i: Instr)
    requires forall stack: seq<Value>, st: State {:trigger ExecInstr(host, i, stack, st)} :: Standing(f, st) ==>
      KeepsInstr(f, host, i, stack, st)
    ensures Keeps(f, host, [i])
  {
    hide Standing, ExecInstr, Kept;
    forall stack: seq<Value>, st: State | Standing(f, st)
      ensures KeepsOn(f, host, [i], stack, st)
    {
      Single(host, i, stack, st);
      Single(Guarded(host, Top(f)), i, stack, st);
      assert KeepsInstr(f, host, i, stack, st);
    }
  }

  lemma Single(host: Host, i: Instr, stack: seq<Value>, st: State)
    ensures Exec(host, [i], stack, st) == ExecInstr(host, i, stack, st)
  {
    hide ExecInstr;
    assert [i][1..] == [];
  }

  /** Instructions that touch neither globals nor memory, and not the local with the frame's address. */
  predicate Quiet(f: Footing, i: Instr) {
    match i
    case Block(_) => false
    case Loop(_) => false
    case If(_) => false
    case IfElse(_, _, _) => false
    case Return => f.NoFrame?
    case Call(_) => false
    case GlobalSet(_) => false
    case MemStore(_) => false
    case MemStore8 => false
    case LocalSet(x) => f.OwnFrame? ==> x != f.base
    case _ => true
  }

  predicate AllQuiet(f: Footing, code: seq<Instr>) {
    forall j :: 0 <= j < |code| ==> Quiet(f, code[j])
  }

  lemma QuietInstr(f: Footing, host: Host, i: Instr, stack: seq<Value>, st: State)
    requires Quiet(f, i) && Standing(f, st)
    ensures KeepsInstr(f, host, i, stack, st)
  {
    hide ExecNumeric, WordAt, Unop, Binop;
    if i.Numeric? {
      NumericKeepsState(i.opcode, stack, st);
    }
  }

  lemma NumericKeepsState(op: Byte, stack: seq<Value>, st: State)
    ensures var o := ExecNumeric(op, stack, st); o.Normal? ==> o.st == st
    ensures !ExecNumeric(op, stack, st).Branch? && !ExecNumeric(op, stack, st).Returning?
  {
  }

  lemma {:induction false} QuietKeeps(f: Footing, host: Host, code: seq<Instr>)
    requires AllQuiet(f, code)
    ensures Keeps(f, host, code)
    decreases |code|
  {
    hide Keeps, Quiet, KeepsInstr, Standing;
    if code == [] {
      KeepsNothing(f, host);
    } else {
      forall stack: seq<Value>, st: State | Standing(f, st)
        ensures KeepsInstr(f, host, code[0], stack, st)
      {
        QuietInstr(f, host, code[0], stack, st);
      }
      KeepsOne(f, host, code[0]);
      QuietKeeps(f, host, code[1..]);
      KeepsThen(f, host, [code[0]], code[1..]);
      assert [code[0]] + code[1..] == code;
    }
  }

  // ---- calls ---------------------------------------------------------------------------------------

  lemma CallStands(f: Footing, st: State, after: Store)
    requires Standing(f, st) && KeepsFrames(st.store, after)
    ensures KeepsShape(f.entry, after) && FramePointer(after) == Top(f) && CallersKept(f.entry, after)
  {
    assert FramePointer(f.entry) <= FramePointer(st.store);
  }

  lemma CallKeeps(f: Footing, host: Host, callee: nat)
    requires RespectsAt(host, Top(f))
    ensures Keeps(f, host, [Call(callee)])
  {
    forall stack: seq<Value>, st: State | Standing(f, st)
      ensures KeepsInstr(f, host, Call(callee), stack, st)
    {
      CallInstr(f, host, callee, stack, st);
    }
    KeepsOne(f, host, Call(callee));
  }

  lemma CallInstr(f: Footing, host: Host, callee: nat, stack: seq<Value>, st: State)
    requires RespectsAt(host, Top(f)) && Standing(f, st)
    ensures KeepsInstr(f, host, Call(callee), stack, st)
  {
    hide ExpandTypes, Collapse, Slots, SlotTypes, RespectsAt, KeepsFrames, CallersKept, KeepsShape;
    var o := ExecCall(host, callee, stack, st);
    if o.Normal? {
      var sig := host.sigs[callee];
      var args := Collapse(sig.params, stack[|stack| - |ExpandTypes(sig.params)|..]);
      var reply := host.call(st.store, st.trace, callee, args);
      AnswerRespects(host, Top(f), st.store, st.trace, callee, args);
      CallStands(f, st, reply.value.store);
    }
  }

  lemma AnswerRespects(host: Host, top: nat, s: Store, t: M.Trace, f: nat, a: seq<M.Value>)
    requires RespectsAt(host, top) && FramePointer(s) == top && host.call(s, t, f, a).Some?
    ensures KeepsFrames(s, host.call(s, t, f, a).value.store)
  {
  }

  // ---- nested code ---------------------------------------------------------------------------------

  lemma LeaveKeeps(f: Footing, o: Outcome, arity: nat, outer: seq<Value>)
    requires Kept(f, o)
    ensures Kept(f, LeaveBlock(o, arity, outer))
  {
    hide Standing, KeepsFrames;
  }

  lemma BlockKeeps(f: Footing, host: Host, body: seq<Instr>)
    requires Keeps(f, host, body)
    ensures Keeps(f, host, [Block(body)])
  {
    hide Standing, Exec, LeaveBlock, Kept;
    forall stack: seq<Value>, st: State | Standing(f, st)
      ensures KeepsInstr(f, host, Block(body), stack, st)
    {
      assert KeepsOn(f, host, body, [], st);
      LeaveKeeps(f, Exec(host, body, [], st), 0, stack);
    }
    KeepsOne(f, host, Block(body));
  }

  lemma IfKeeps(f: Footing, host: Host, t: Option<ValType>, thn: seq<Instr>, els: seq<Instr>)
    requires Keeps(f, host, thn) && Keeps(f, host, els)
    ensures Keeps(f, host, [If(thn)]) && Keeps(f, host, [IfElse(t, thn, els)])
  {
    hide Standing, Exec, LeaveBlock;
    forall stack: seq<Value>, st: State | Standing(f, st)
      ensures KeepsInstr(f, host, If(thn), stack, st) && KeepsInstr(f, host, IfElse(t, thn, els), stack, st)
    {
      assert KeepsOn(f, host, thn, [], st);
      assert KeepsOn(f, host, els, [], st);
      if |stack| > 0 {
        var outer := stack[..|stack| - 1];
        LeaveKeeps(f, Exec(host, thn, [], st), 0, outer);
        LeaveKeeps(f, Exec(host, thn, [], st), Arity(t), outer);
        LeaveKeeps(f, Exec(host, els, [], st), Arity(t), outer);
      }
    }
    KeepsOne(f, host, If(thn));
    KeepsOne(f, host, IfElse(t, thn, els));
  }

  lemma StandingWithFuel(f: Footing, st: State, fuel: nat)
    requires Standing(f, st)
    ensures Standing(f, st.(fuel := fuel))
  {
    hide KeepsShape, CallersKept;
  }

  lemma {:induction false} LoopTurns(f: Footing, host: Host, body: seq<Instr>, stack: seq<Value>, st: State)
    requires Keeps(f, host, body) && Standing(f, st)
    ensures KeepsInstr(f, host, Loop(body), stack, st)
    decreases st.fuel
  {
    hide Standing, Exec, LeaveBlock;
    assert KeepsOn(f, host, body, [], st);
    var o := Exec(host, body, [], st);
    if o.Branch? && o.depth == 0 {
      if o.st.fuel > 0 {
        StandingWithFuel(f, o.st, o.st.fuel - 1);
        LoopTurns(f, host, body, stack, o.st.(fuel := o.st.fuel - 1));
      }
    } else {
      LeaveKeeps(f, o, 0, stack);
    }
  }

  lemma LoopKeeps(f: Footing, host: Host, body: seq<Instr>)
    requires Keeps(f, host, body)
    ensures Keeps(f, host, [Loop(body)])
  {
    hide Standing, Exec, LeaveBlock, Kept, Keeps;
    forall stack: seq<Value>, st: State | Standing(f, st)
      ensures KeepsInstr(f, host, Loop(body), stack, st)
    {
      LoopTurns(f, host, body, stack, st);
    }
    KeepsOne(f, host, Loop(body));
  }
}
