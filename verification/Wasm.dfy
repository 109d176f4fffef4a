/**
 * A structured WebAssembly machine (sections 4.4.5 to 4.4.7 of the WebAssembly Core
 * Specification 1.0) for the instructions the backend emits in the modelled functions.
 */
module Wasm {
  import opened Words
  import opened Memory
  import Mir

  datatype ValType = TI32 | TI64

  datatype Value = I32V(i32: I32) | I64V(i64: I64)

  /** Blocks, loops and `If` have the empty block type; `If` has no `else`. */
  datatype Instr =
    | Unreachable
    | Block(body: seq<Instr>)
    | Loop(body: seq<Instr>)
    | If(thn: seq<Instr>)
    | IfElse(result: Option<ValType>, thn: seq<Instr>, els: seq<Instr>)
    | Br(depth: nat)
    | BrIf(depth: nat)
    | Return
    | Call(func: nat)
    | Drop
    | LocalGet(index: nat)
    | LocalSet(index: nat)
    | GlobalGet(index: nat)
    | GlobalSet(index: nat)
    | MemLoad(width: ValType)
    | MemStore(width: ValType)
    | MemStore8
    | I32Const(i32: I32)
    | I64Const(i64: I64)
    | Numeric(opcode: Byte)

  function TypeOf(v: Value): ValType {
    match v
    case I32V(_) => TI32
    case I64V(_) => TI64
  }

  function TypesOf(vs: seq<Value>): (ts: seq<ValType>)
    ensures |ts| == |vs|
    ensures forall i :: 0 <= i < |vs| ==> ts[i] == TypeOf(vs[i])
  {
    seq(|vs|, i requires 0 <= i < |vs| => TypeOf(vs[i]))
  }

  // ---- how MIR values occupy WebAssembly values ---------------------------------------

  function SlotTypes(k: Mir.Kind): seq<ValType> {
    match k
    case KI32 => [TI32]
    case KI64 => [TI64]
    case KStr => [TI32, TI32]
  }

  function Slots(v: Mir.Value): seq<Value> {
    match v
    case MI32(n) => [I32V(n)]
    case MI64(n) => [I64V(n)]
    case MStr(p, l) => [I32V(p), I32V(l)]
  }

  function FromSlots(k: Mir.Kind, vs: seq<Value>): Mir.Value
    requires TypesOf(vs) == SlotTypes(k)
  {
    match k
    case KI32 => assert TypesOf(vs)[0] == TI32; Mir.MI32(vs[0].i32)
    case KI64 => assert TypesOf(vs)[0] == TI64; Mir.MI64(vs[0].i64)
    case KStr => assert TypesOf(vs)[0] == TI32 && TypesOf(vs)[1] == TI32; Mir.MStr(vs[0].i32, vs[1].i32)
  }

  function ExpandTypes(ks: seq<Mir.Kind>): seq<ValType> {
    if ks == [] then [] else ExpandTypes(ks[..|ks| - 1]) + SlotTypes(ks[|ks| - 1])
  }

  function Expand(vs: seq<Mir.Value>): seq<Value> {
    if vs == [] then [] else Expand(vs[..|vs| - 1]) + Slots(vs[|vs| - 1])
  }

  /** The MIR values of the given kinds that occupy `vs`. */
  function Collapse(ks: seq<Mir.Kind>, vs: seq<Value>): (r: seq<Mir.Value>)
    requires TypesOf(vs) == ExpandTypes(ks)
    ensures |r| == |ks|
  {
    if ks == [] then []
    else
      var k := ks[|ks| - 1];
      var n := |vs| - |SlotTypes(k)|;
      assert TypesOf(vs)[n..] == SlotTypes(k) && TypesOf(vs)[..n] == ExpandTypes(ks[..|ks| - 1]);
      assert TypesOf(vs[n..]) == TypesOf(vs)[n..];
      assert TypesOf(vs[..n]) == TypesOf(vs)[..n];
      Collapse(ks[..|ks| - 1], vs[..n]) + [FromSlots(k, vs[n..])]
  }

  // ---- numeric instructions -----------------------------------------------------------

  datatype NumResult = Value(v: Value) | NumTrap | NumStuck

  function Flag(b: bool): NumResult {
    Value(I32V(if b then 1 else 0))
  }

  function I32Binop(op: Byte, a: I32, b: I32): NumResult {
    match op
    case 0x46 => Flag(a == b)
    case 0x47 => Flag(a != b)
    case 0x48 => Flag(a < b)
    case 0x49 => Flag(Unsigned(a) < Unsigned(b))
    case 0x4a => Flag(a > b)
    case 0x4c => Flag(a <= b)
    case 0x4e => Flag(a >= b)
    case 0x4f => Flag(Unsigned(a) >= Unsigned(b))
    case 0x6a => Value(I32V(Wrap32(a + b)))
    case 0x6b => Value(I32V(Wrap32(a - b)))
    case 0x6c => Value(I32V(Wrap32(Times(a, b))))
    case 0x6d => if b == 0 || (a == -TWO31 && b == -1) then NumTrap else Value(I32V(Wrap32(TruncDiv(a, b))))
    case 0x6f => if b == 0 then NumTrap else Value(I32V(Wrap32(TruncRem(a, b))))
    case 0x71 => Value(I32V(Wrap32(AndBits(a % TWO32, b % TWO32))))
    case _ => NumStuck
  }

  function I64Binop(op: Byte, a: I64, b: I64): NumResult {
    match op
    case 0x51 => Flag(a == b)
    case 0x52 => Flag(a != b)
    case 0x53 => Flag(a < b)
    case 0x55 => Flag(a > b)
    case 0x57 => Flag(a <= b)
    case 0x59 => Flag(a >= b)
    case 0x7c => Value(I64V(Wrap64(a + b)))
    case 0x7d => Value(I64V(Wrap64(a - b)))
    case 0x7e => Value(I64V(Wrap64(Times(a, b))))
    case 0x7f => if b == 0 || (a == -TWO63 && b == -1) then NumTrap else Value(I64V(Wrap64(TruncDiv(a, b))))
    case 0x81 => if b == 0 then NumTrap else Value(I64V(Wrap64(TruncRem(a, b))))
    case 0x83 => Value(I64V(Wrap64(AndBits(a % TWO64, b % TWO64))))
    case _ => NumStuck
  }

  function Unop(op: Byte, a: Value): NumResult {
    match (op, a)
    case (0x45, I32V(x)) => Flag(x == 0)
    case (0x50, I64V(x)) => Flag(x == 0)
    case (0xa7, I64V(x)) => Value(I32V(Wrap32(x)))
    case (0xac, I32V(x)) => Value(I64V(x))
    case _ => NumStuck
  }

  predicate IsUnop(op: Byte) {
    op == 0x45 || op == 0x50 || op == 0xa7 || op == 0xac
  }

  function Binop(op: Byte, a: Value, b: Value): NumResult {
    match (a, b)
    case (I32V(x), I32V(y)) => I32Binop(op, x, y)
    case (I64V(x), I64V(y)) => I64Binop(op, x, y)
    case _ => NumStuck
  }

  // ---- execution ----------------------------------------------------------------------

  /** `fuel` is how many times a loop may still be entered again. */
  datatype State = State(locals: seq<Value>, trace: Mir.Trace, fuel: nat, store: Store)

  datatype Reply = Reply(payload: (int, int), store: Store)

  /** The functions that can be called: their signatures, and what a call answers and leaves behind;
      None is a trap. */
  datatype Host = Host(
    sigs: seq<Mir.Signature>,
    call: (Store, Mir.Trace, nat, seq<Mir.Value>) -> Option<Reply>)

  ghost predicate LeavesShape(h: Host) {
    forall s, t, f, a :: h.call(s, t, f, a).Some? ==> KeepsShape(s, h.call(s, t, f, a).value.store)
  }

  /** The functions that a MIR function calls, answering as the MIR callees do. */
  function HostOf(fn: Mir.Function, oracle: Mir.Oracle): Host {
    Host(fn.sigs, (s: Store, t: Mir.Trace, f: nat, a: seq<Mir.Value>) =>
      match oracle.reply(t, f, a)
      case None => None
      case Some(payload) => Some(Reply(payload, oracle.effect(s, t, f, a))))
  }

  /** A branch carries the operands of the block it leaves. */
  datatype Outcome =
    | Normal(stack: seq<Value>, st: State)
    | Branch(depth: nat, stack: seq<Value>, st: State)
    | Returning(stack: seq<Value>, st: State)
    | Trap(st: State)
    | Exhausted(st: State)
    | Stuck

  predicate FuelAtMost(o: Outcome, fuel: nat) {
    o.Stuck? || o.st.fuel <= fuel
  }

  function ExecNumeric(op: Byte, stack: seq<Value>, st: State): Outcome {
    var n := |stack|;
    if IsUnop(op) then
      if n < 1 then Stuck
      else match Unop(op, stack[n - 1])
        case Value(v) => Normal(stack[..n - 1] + [v], st)
        case NumTrap => Trap(st)
        case NumStuck => Stuck
    else
      if n < 2 then Stuck
      else match Binop(op, stack[n - 2], stack[n - 1])
        case Value(v) => Normal(stack[..n - 2] + [v], st)
        case NumTrap => Trap(st)
        case NumStuck => Stuck
  }

  function ExecCall(host: Host, f: nat, stack: seq<Value>, st: State): Outcome {
    if f >= |host.sigs| then Stuck
    else
      var sig := host.sigs[f];
      var n := |ExpandTypes(sig.params)|;
      if n > |stack| || TypesOf(stack[|stack| - n..]) != ExpandTypes(sig.params) then Stuck
      else
        var args := Collapse(sig.params, stack[|stack| - n..]);
        var st' := st.(trace := st.trace + [(f, args)]);
        match host.call(st.store, st.trace, f, args)
        case None => Trap(st')
        case Some(reply) =>
          var results := match sig.result case None => [] case Some(k) => Slots(Mir.ValueOf(k, reply.payload));
          Normal(stack[..|stack| - n] + results, st'.(store := reply.store))
  }

  // ---- memory -------------------------------------------------------------------------

  function WidthOf(t: ValType): nat {
    if t == TI32 then 4 else 8
  }

  /** The value a memory word of the given width reads as. */
  function FromWord(t: ValType, w: int): Value {
    if t == TI32 then I32V(Wrap32(w)) else I64V(Wrap64(w))
  }

  function ToWord(v: Value): nat {
    match v
    case I32V(x) => Unsigned(x)
    case I64V(x) => Unsigned64(x)
  }

  function ExecLoad(t: ValType, stack: seq<Value>, st: State): Outcome {
    var n := |stack|;
    if n < 1 || !stack[n - 1].I32V? then Stuck
    else
      var a := Unsigned(stack[n - 1].i32);
      if a + WidthOf(t) > |st.store.memory| then Trap(st)
      else Normal(stack[..n - 1] + [FromWord(t, WordAt(st.store.memory, a, WidthOf(t)))], st)
  }

  function ExecStore(t: ValType, stack: seq<Value>, st: State): Outcome {
    var n := |stack|;
    if n < 2 || !stack[n - 2].I32V? || TypeOf(stack[n - 1]) != t then Stuck
    else
      var a := Unsigned(stack[n - 2].i32);
      if a + WidthOf(t) > |st.store.memory| then Trap(st)
      else
        var memory := Overwrite(st.store.memory, a, WordBytes(ToWord(stack[n - 1]), WidthOf(t)));
        Normal(stack[..n - 2], st.(store := st.store.(memory := memory)))
  }

  /** Only the lowest byte is stored. */
  function ExecStore8(stack: seq<Value>, st: State): Outcome {
    var n := |stack|;
    if n < 2 || !stack[n - 2].I32V? || !stack[n - 1].I32V? then Stuck
    else
      var a := Unsigned(stack[n - 2].i32);
      if a >= |st.store.memory| then Trap(st)
      else
        var memory := st.store.memory[a := Unsigned(stack[n - 1].i32) % 256];
        Normal(stack[..n - 2], st.(store := st.store.(memory := memory)))
  }

  function ExecGlobalSet(x: nat, stack: seq<Value>, st: State): Outcome {
    var n := |stack|;
    if x >= |st.store.globals| || n < 1 || !stack[n - 1].I32V? then Stuck
    else Normal(stack[..n - 1], st.(store := st.store.(globals := st.store.globals[x := stack[n - 1].i32])))
  }

  /** Leaving a block with the given number of results, by its end or by a branch to its label. */
  function LeaveBlock(o: Outcome, arity: nat, outer: seq<Value>): Outcome {
    match o
    case Normal(inner, st) => if |inner| == arity then Normal(outer + inner, st) else Stuck
    case Branch(d, inner, st) =>
      if d > 0 then Branch(d - 1, outer + inner, st)
      else if |inner| < arity then Stuck
      else Normal(outer + inner[|inner| - arity..], st)
    case _ => o
  }

  function Arity(t: Option<ValType>): nat {
    if t.None? then 0 else 1
  }

  function ExecInstr(host: Host, i: Instr, stack: seq<Value>, st: State): (o: Outcome)
    ensures FuelAtMost(o, st.fuel)
    decreases st.fuel, i, 0
  {
    var n := |stack|;
    match i
    case Unreachable => Trap(st)
    case Block(body) => LeaveBlock(Exec(host, body, [], st), 0, stack)
    case Loop(body) =>
      var o := Exec(host, body, [], st);
      if o.Branch? && o.depth == 0 then
        if o.st.fuel == 0 then Exhausted(o.st)
        else ExecInstr(host, i, stack, o.st.(fuel := o.st.fuel - 1))
      else LeaveBlock(o, 0, stack)
    case If(thn) =>
      if n < 1 || !stack[n - 1].I32V? then Stuck
      else if stack[n - 1].i32 != 0 then LeaveBlock(Exec(host, thn, [], st), 0, stack[..n - 1])
      else Normal(stack[..n - 1], st)
    case IfElse(t, thn, els) =>
      if n < 1 || !stack[n - 1].I32V? then Stuck
      else LeaveBlock(Exec(host, if stack[n - 1].i32 != 0 then thn else els, [], st), Arity(t), stack[..n - 1])
    case Br(d) => Branch(d, stack, st)
    case BrIf(d) =>
      if n < 1 || !stack[n - 1].I32V? then Stuck
      else if stack[n - 1].i32 != 0 then Branch(d, stack[..n - 1], st)
      else Normal(stack[..n - 1], st)
    case Return => Returning(stack, st)
    case Call(f) => ExecCall(host, f, stack, st)
    case Drop => if n < 1 then Stuck else Normal(stack[..n - 1], st)
    case LocalGet(x) => if x >= |st.locals| then Stuck else Normal(stack + [st.locals[x]], st)
    case LocalSet(x) =>
      if x >= |st.locals| || n < 1 then Stuck
      else Normal(stack[..n - 1], st.(locals := st.locals[x := stack[n - 1]]))
    case GlobalGet(x) => if x >= |st.store.globals| then Stuck else Normal(stack + [I32V(st.store.globals[x])], st)
    case GlobalSet(x) => ExecGlobalSet(x, stack, st)
    case MemLoad(t) => ExecLoad(t, stack, st)
    case MemStore(t) => ExecStore(t, stack, st)
    case MemStore8 => ExecStore8(stack, st)
    case I32Const(c) => Normal(stack + [I32V(c)], st)
    case I64Const(c) => Normal(stack + [I64V(c)], st)
    case Numeric(op) => ExecNumeric(op, stack, st)
  }

  function Exec(host: Host, code: seq<Instr>, stack: seq<Value>, st: State): (o: Outcome)
    ensures FuelAtMost(o, st.fuel)
    decreases st.fuel, code, 1
  {
    if code == [] then Normal(stack, st)
    else
      match ExecInstr(host, code[0], stack, st)
      case Normal(stack', st') => Exec(host, code[1..], stack', st')
      case o => o
  }

  /** Running a concatenation is running its parts one after the other. */
  lemma {:induction false} ExecConcat(host: Host, a: seq<Instr>, b: seq<Instr>, stack: seq<Value>, st: State)
    ensures Exec(host, a + b, stack, st)
         == match Exec(host, a, stack, st)
            case Normal(stack', st') => Exec(host, b, stack', st')
            case o => o
    decreases |a|
  {
    if a == [] {
      assert a + b == b;
    } else {
      assert (a + b)[0] == a[0] && (a + b)[1..] == a[1..] + b;
      match ExecInstr(host, a[0], stack, st)
      case Normal(stack', st') => ExecConcat(host, a[1..], b, stack', st');
      case _ =>
    }
  }
}
