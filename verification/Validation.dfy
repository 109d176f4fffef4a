/**
 * Validation of expressions (section 3.3 of the WebAssembly Core Specification 1.0), as the
 * algorithm of its appendix runs it: a stack of value types that becomes polymorphic after an
 * instruction that never falls through.
 */
module Validation {
  import opened Words
  import Mir
  import opened Wasm

  type Types = seq<ValType>

  /** `labels` are the label types from the innermost outwards; all globals are mutable and 32-bit. */
  datatype Context = Context(sigs: seq<Mir.Signature>, locals: Types, globals: nat, result: Types, labels: seq<Types>) {
    function Inside(results: Types): Context {
      this.(labels := [results] + labels)
    }
  }

  /** The known operand types; when `poly`, any types may lie below them. */
  datatype Operands = Operands(vals: Types, poly: bool)

  const DEAD := Operands([], true)

  function PopAll(v: Operands, ts: Types): Option<Operands>
    decreases |ts|
  {
    if ts == [] then Some(v)
    else
      var n := |v.vals|;
      var rest := ts[..|ts| - 1];
      if n == 0 then if v.poly then PopAll(v, rest) else None
      else if v.vals[n - 1] != ts[|ts| - 1] then None
      else PopAll(v.(vals := v.vals[..n - 1]), rest)
  }

  function PushAll(v: Operands, ts: Types): Operands {
    v.(vals := v.vals + ts)
  }

  function Apply(v: Operands, pops: Types, pushes: Types): Option<Operands> {
    match PopAll(v, pops)
    case None => None
    case Some(w) => Some(PushAll(w, pushes))
  }

  /** At the `end` of a block exactly the block's results are left. */
  predicate Ends(v: Operands, ts: Types) {
    PopAll(v, ts).Some? && PopAll(v, ts).value.vals == []
  }

  function ResultTypes(t: Option<ValType>): Types {
    match t
    case None => []
    case Some(x) => [x]
  }

  function KindTypes(k: Option<Mir.Kind>): Types {
    match k
    case None => []
    case Some(x) => SlotTypes(x)
  }

  /** Operand types and result type of the numeric instructions that have a meaning in `Wasm`. */
  function NumericType(op: Byte): Option<(Types, ValType)> {
    if op == 0x45 then Some(([TI32], TI32))
    else if op == 0x50 then Some(([TI64], TI32))
    else if op in {0x46, 0x47, 0x48, 0x49, 0x4a, 0x4c, 0x4e, 0x4f} then Some(([TI32, TI32], TI32))
    else if op in {0x51, 0x52, 0x53, 0x55, 0x57, 0x59} then Some(([TI64, TI64], TI32))
    else if op in {0x6a, 0x6b, 0x6c, 0x6d, 0x6f, 0x71} then Some(([TI32, TI32], TI32))
    else if op in {0x7c, 0x7d, 0x7e, 0x7f, 0x81, 0x83} then Some(([TI64, TI64], TI64))
    else if op == 0xa7 then Some(([TI64], TI32))
    else if op == 0xac then Some(([TI32], TI64))
    else None
  }

  function CheckInstr(c: Context, i: Instr, v: Operands): Option<Operands>
    decreases i, 0
  {
    match i
    case Unreachable => Some(DEAD)
    case Block(body) => if BodyOk(c.Inside([]), body, []) then Some(v) else None
    case Loop(body) => if BodyOk(c.Inside([]), body, []) then Some(v) else None
    case If(thn) => if BodyOk(c.Inside([]), thn, []) then PopAll(v, [TI32]) else None
    case IfElse(t, thn, els) =>
      if BodyOk(c.Inside(ResultTypes(t)), thn, ResultTypes(t)) && BodyOk(c.Inside(ResultTypes(t)), els, ResultTypes(t))
      then Apply(v, [TI32], ResultTypes(t)) else None
    case Br(d) => if d >= |c.labels| || PopAll(v, c.labels[d]).None? then None else Some(DEAD)
    case BrIf(d) => if d >= |c.labels| then None else Apply(v, c.labels[d] + [TI32], c.labels[d])
    case Return => if PopAll(v, c.result).None? then None else Some(DEAD)
    case Call(f) => if f >= |c.sigs| then None else Apply(v, ExpandTypes(c.sigs[f].params), KindTypes(c.sigs[f].result))
    case Drop => if v.vals == [] then if v.poly then Some(v) else None else Some(v.(vals := v.vals[..|v.vals| - 1]))
    case LocalGet(x) => if x >= |c.locals| then None else Some(PushAll(v, [c.locals[x]]))
    case LocalSet(x) => if x >= |c.locals| then None else PopAll(v, [c.locals[x]])
    case GlobalGet(x) => if x >= c.globals then None else Some(PushAll(v, [TI32]))
    case GlobalSet(x) => if x >= c.globals then None else PopAll(v, [TI32])
    case MemLoad(t) => Apply(v, [TI32], [t])
    case MemStore(t) => PopAll(v, [TI32, t])
    case MemStore8 => PopAll(v, [TI32, TI32])
    case I32Const(_) => Some(PushAll(v, [TI32]))
    case I64Const(_) => Some(PushAll(v, [TI64]))
    case Numeric(op) => if NumericType(op).None? then None
      else Apply(v, NumericType(op).value.0, [NumericType(op).value.1])
  }

  function Check(c: Context, code: seq<Instr>, v: Operands): Option<Operands>
    decreases code, 2
  {
    if code == [] then Some(v)
    else match CheckInstr(c, code[0], v)
      case None => None
      case Some(w) => Check(c, code[1..], w)
  }

  predicate BodyOk(c: Context, body: seq<Instr>, result: Types)
    decreases body, 3
  {
    var v := Check(c, body, Operands([], false));
    v.Some? && Ends(v.value, result)
  }

  lemma {:induction false} CheckConcat(c: Context, a: seq<Instr>, b: seq<Instr>, v: Operands)
    ensures Check(c, a + b, v) == match Check(c, a, v) case None => None case Some(w) => Check(c, b, w)
    decreases |a|
  {
    hide CheckInstr;
    if a == [] {
      assert a + b == b;
    } else {
      assert (a + b)[0] == a[0] && (a + b)[1..] == a[1..] + b;
      match CheckInstr(c, a[0], v)
      case None =>
      case Some(w) => CheckConcat(c, a[1..], b, w);
    }
  }

  // ---- typing of code fragments -----------------------------------------------------------------

  /** The operands are `ts`, of which those below a polymorphic point are not known. */
  predicate Fits(v: Operands, ts: Types) {
    if v.poly then |v.vals| <= |ts| && ts[|ts| - |v.vals|..] == v.vals else v.vals == ts
  }

  /** Code that turns operands `ps` on top of the stack into `qs`, whatever lies below. */
  ghost predicate Turns(c: Context, code: seq<Instr>, ps: Types, qs: Types) {
    forall v: Operands, ts: Types {:trigger Fits(v, ts + ps)} :: Fits(v, ts + ps) ==> TurnsAt(c, code, v, ts, qs)
  }

  predicate TurnsAt(c: Context, code: seq<Instr>, v: Operands, ts: Types, qs: Types) {
    Check(c, code, v).Some? && Fits(Check(c, code, v).value, ts + qs)
  }

  lemma {:induction false} PopFits(v: Operands, ts: Types, ps: Types)
    requires Fits(v, ts + ps)
    ensures PopAll(v, ps).Some? && Fits(PopAll(v, ps).value, ts) && PopAll(v, ps).value.poly == v.poly
    decreases |ps|
  {
    if ps == [] {
      assert ts + ps == ts;
    } else {
      var front, n := ps[..|ps| - 1], |v.vals|;
      assert (ts + ps)[..|ts + ps| - 1] == ts + front;
      if n == 0 {
        PopFits(v, ts, front);
      } else {
        var w := v.(vals := v.vals[..n - 1]);
        assert v.vals[n - 1] == (ts + ps)[|ts + ps| - 1];
        assert Fits(w, ts + front) by {
          if v.poly {
            var all := ts + ps;
            assert all[|all| - n..][..n - 1] == (ts + front)[|ts + front| - (n - 1)..];
          }
        }
        PopFits(w, ts, front);
      }
    }
  }

  lemma PushFits(v: Operands, ts: Types, qs: Types)
    requires Fits(v, ts)
    ensures Fits(PushAll(v, qs), ts + qs)
  {
    if v.poly {
      var m := |ts| - |v.vals|;
      assert (ts + qs)[m..] == ts[m..] + qs;
    }
  }

  lemma ApplyFits(v: Operands, ts: Types, ps: Types, qs: Types)
    requires Fits(v, ts + ps)
    ensures Apply(v, ps, qs).Some? && Fits(Apply(v, ps, qs).value, ts + qs)
  {
    PopFits(v, ts, ps);
    PushFits(PopAll(v, ps).value, ts, qs);
  }

  lemma DeadFits(ts: Types)
    ensures Fits(DEAD, ts)
  {
  }

  lemma TurnsOne(c: Context, i: Instr, ps: Types, qs: Types)
    requires forall v: Operands, ts: Types {:trigger Fits(v, ts + ps)} ::
      Fits(v, ts + ps) ==> CheckInstr(c, i, v).Some? && Fits(CheckInstr(c, i, v).value, ts + qs)
    ensures Turns(c, [i], ps, qs)
  {
    hide CheckInstr, Fits;
    forall v: Operands, ts: Types {:trigger Fits(v, ts + ps)} | Fits(v, ts + ps)
      ensures TurnsAt(c, [i], v, ts, qs)
    {
      assert [i][1..] == [];
      assert Check(c, [], CheckInstr(c, i, v).value) == CheckInstr(c, i, v);
    }
  }

  /** Fragments compose. */
  lemma TurnsThen(c: Context, a: seq<Instr>, b: seq<Instr>, ps: Types, ms: Types, qs: Types)
    requires Turns(c, a, ps, ms) && Turns(c, b, ms, qs)
    ensures Turns(c, a + b, ps, qs)
  {
    hide Check, Fits;
    forall v: Operands, ts: Types {:trigger Fits(v, ts + ps)} | Fits(v, ts + ps)
      ensures TurnsAt(c, a + b, v, ts, qs)
    {
      assert TurnsAt(c, a, v, ts, ms);
      CheckConcat(c, a, b, v);
      assert TurnsAt(c, b, Check(c, a, v).value, ts, qs);
    }
  }

  /** Operands below those a fragment uses stay as they are. */
  lemma TurnsAbove(c: Context, code: seq<Instr>, below: Types, ps: Types, qs: Types)
    requires Turns(c, code, ps, qs)
    ensures Turns(c, code, below + ps, below + qs)
  {
    hide Check, Fits;
    forall v: Operands, ts: Types {:trigger Fits(v, ts + (below + ps))} | Fits(v, ts + (below + ps))
      ensures TurnsAt(c, code, v, ts, below + qs)
    {
      assert ts + (below + ps) == (ts + below) + ps && ts + (below + qs) == (ts + below) + qs;
      assert TurnsAt(c, code, v, ts + below, qs);
    }
  }

  lemma TurnsNothing(c: Context, ps: Types)
    ensures Turns(c, [], ps, ps)
  {
    hide Fits;
  }

  // ---- single instructions ----------------------------------------------------------------------

  /** An instruction that pops and pushes fixed types. */
  lemma TurnsApply(c: Context, i: Instr, ps: Types, qs: Types)
    requires forall v: Operands {:trigger CheckInstr(c, i, v)} :: CheckInstr(c, i, v) == Apply(v, ps, qs)
    ensures Turns(c, [i], ps, qs)
  {
    hide CheckInstr, Fits, Apply;
    forall v: Operands, ts: Types {:trigger Fits(v, ts + ps)} | Fits(v, ts + ps)
      ensures CheckInstr(c, i, v).Some? && Fits(CheckInstr(c, i, v).value, ts + qs)
    {
      ApplyFits(v, ts, ps, qs);
    }
    TurnsOne(c, i, ps, qs);
  }

  /** An instruction after which nothing is reached. */
  lemma TurnsDead(c: Context, i: Instr, ps: Types, qs: Types)
    requires forall v: Operands {:trigger CheckInstr(c, i, v)} :: PopAll(v, ps).Some? ==>
      CheckInstr(c, i, v) == Some(DEAD)
    ensures Turns(c, [i], ps, qs)
  {
    hide CheckInstr, Fits;
    forall v: Operands, ts: Types {:trigger Fits(v, ts + ps)} | Fits(v, ts + ps)
      ensures CheckInstr(c, i, v).Some? && Fits(CheckInstr(c, i, v).value, ts + qs)
    {
      PopFits(v, ts, ps);
      DeadFits(ts + qs);
    }
    TurnsOne(c, i, ps, qs);
  }

  lemma NoPops(v: Operands)
    ensures Apply(v, [], []) == Some(v)
  {
    assert v.vals + [] == v.vals;
  }

  lemma PushOne(v: Operands, qs: Types)
    ensures Apply(v, [], qs) == Some(PushAll(v, qs))
  {
  }

  lemma PopOnly(v: Operands, ps: Types)
    ensures Apply(v, ps, []) == PopAll(v, ps)
  {
    if PopAll(v, ps).Some? {
      assert PopAll(v, ps).value.vals + [] == PopAll(v, ps).value.vals;
    }
  }

  lemma ConstTurns(c: Context, n: I32, m: I64)
    ensures Turns(c, [I32Const(n)], [], [TI32]) && Turns(c, [I64Const(m)], [], [TI64])
  {
    forall v: Operands
      ensures CheckInstr(c, I32Const(n), v) == Apply(v, [], [TI32])
        && CheckInstr(c, I64Const(m), v) == Apply(v, [], [TI64])
    {
      PushOne(v, [TI32]); PushOne(v, [TI64]);
    }
    TurnsApply(c, I32Const(n), [], [TI32]);
    TurnsApply(c, I64Const(m), [], [TI64]);
  }

  lemma GetTurns(c: Context, x: nat)
    requires x < |c.locals|
    ensures Turns(c, [LocalGet(x)], [], [c.locals[x]])
  {
    forall v: Operands
      ensures CheckInstr(c, LocalGet(x), v) == Apply(v, [], [c.locals[x]])
    {
      PushOne(v, [c.locals[x]]);
    }
    TurnsApply(c, LocalGet(x), [], [c.locals[x]]);
  }

  lemma SetTurns(c: Context, x: nat)
    requires x < |c.locals|
    ensures Turns(c, [LocalSet(x)], [c.locals[x]], [])
  {
    forall v: Operands
      ensures CheckInstr(c, LocalSet(x), v) == Apply(v, [c.locals[x]], [])
    {
      PopOnly(v, [c.locals[x]]);
    }
    TurnsApply(c, LocalSet(x), [c.locals[x]], []);
  }

  lemma GlobalTurns(c: Context, x: nat)
    requires x < c.globals
    ensures Turns(c, [GlobalGet(x)], [], [TI32]) && Turns(c, [GlobalSet(x)], [TI32], [])
  {
    forall v: Operands
      ensures CheckInstr(c, GlobalGet(x), v) == Apply(v, [], [TI32])
        && CheckInstr(c, GlobalSet(x), v) == Apply(v, [TI32], [])
    {
      PushOne(v, [TI32]);
      PopOnly(v, [TI32]);
    }
    TurnsApply(c, GlobalGet(x), [], [TI32]);
    TurnsApply(c, GlobalSet(x), [TI32], []);
  }

  lemma MemoryTurns(c: Context, t: ValType)
    ensures Turns(c, [MemLoad(t)], [TI32], [t]) && Turns(c, [MemStore(t)], [TI32, t], [])
  {
    hide Apply;
    forall v: Operands
      ensures CheckInstr(c, MemStore(t), v) == Apply(v, [TI32, t], [])
    {
      PopOnly(v, [TI32, t]);
    }
    TurnsApply(c, MemLoad(t), [TI32], [t]);
    TurnsApply(c, MemStore(t), [TI32, t], []);
  }

  lemma NumericTurns(c: Context, op: Byte)
    requires NumericType(op).Some?
    ensures Turns(c, [Numeric(op)], NumericType(op).value.0, [NumericType(op).value.1])
  {
    hide Apply, NumericType;
    TurnsApply(c, Numeric(op), NumericType(op).value.0, [NumericType(op).value.1]);
  }

  lemma CallTurns(c: Context, f: nat)
    requires f < |c.sigs|
    ensures Turns(c, [Call(f)], ExpandTypes(c.sigs[f].params), KindTypes(c.sigs[f].result))
  {
    hide Apply, ExpandTypes;
    TurnsApply(c, Call(f), ExpandTypes(c.sigs[f].params), KindTypes(c.sigs[f].result));
  }

  lemma DropTurns(c: Context, t: ValType)
    ensures Turns(c, [Drop], [t], [])
  {
    forall v: Operands, ts: Types {:trigger Fits(v, ts + [t])} | Fits(v, ts + [t])
      ensures CheckInstr(c, Drop, v).Some? && Fits(CheckInstr(c, Drop, v).value, ts + [])
    {
      assert ts + [] == ts;
      PopFits(v, ts, [t]);
      assert PopAll(v, [t]) == CheckInstr(c, Drop, v) by {
        assert [t][..0] == [];
      }
    }
    TurnsOne(c, Drop, [t], []);
  }

  lemma ReturnTurns(c: Context, qs: Types)
    ensures Turns(c, [Return], c.result, qs)
  {
    TurnsDead(c, Return, c.result, qs);
  }

  lemma UnreachableTurns(c: Context, ps: Types, qs: Types)
    ensures Turns(c, [Unreachable], ps, qs)
  {
    TurnsDead(c, Unreachable, ps, qs);
  }

  /** A branch to a label without operands may leave operands behind. */
  lemma BrTurns(c: Context, d: nat, ps: Types, qs: Types)
    requires d < |c.labels| && c.labels[d] == []
    ensures Turns(c, [Br(d)], ps, qs)
  {
    TurnsDead(c, Br(d), ps, qs);
  }

  lemma BrIfTurns(c: Context, d: nat)
    requires d < |c.labels| && c.labels[d] == []
    ensures Turns(c, [BrIf(d)], [TI32], [])
  {
    hide Apply;
    assert [] + [TI32] == [TI32];
    TurnsApply(c, BrIf(d), [TI32], []);
  }

  // ---- blocks -------------------------------------------------------------------------------------

  lemma TurnsBody(c: Context, body: seq<Instr>, result: Types)
    requires Turns(c, body, [], result)
    ensures BodyOk(c, body, result)
  {
    hide Check;
    var v := Operands([], false);
    var none: Types := [];
    assert none + none == none && none + result == result;
    assert Fits(v, none + none);
    assert TurnsAt(c, body, v, none, result);
    PopFits(Check(c, body, v).value, none, result);
  }

  lemma BlockTurns(c: Context, body: seq<Instr>)
    requires Turns(c.Inside([]), body, [], [])
    ensures Turns(c, [Block(body)], [], []) && Turns(c, [Loop(body)], [], [])
  {
    hide BodyOk, Turns;
    TurnsBody(c.Inside([]), body, []);
    forall v: Operands
      ensures CheckInstr(c, Block(body), v) == Apply(v, [], []) && CheckInstr(c, Loop(body), v) == Apply(v, [], [])
    {
      NoPops(v);
    }
    TurnsApply(c, Block(body), [], []);
    TurnsApply(c, Loop(body), [], []);
  }

  lemma IfTurns(c: Context, thn: seq<Instr>)
    requires Turns(c.Inside([]), thn, [], [])
    ensures Turns(c, [If(thn)], [TI32], [])
  {
    hide BodyOk, Turns;
    TurnsBody(c.Inside([]), thn, []);
    forall v: Operands
      ensures CheckInstr(c, If(thn), v) == Apply(v, [TI32], [])
    {
      PopOnly(v, [TI32]);
    }
    TurnsApply(c, If(thn), [TI32], []);
  }

  lemma IfElseTurns(c: Context, t: Option<ValType>, thn: seq<Instr>, els: seq<Instr>)
    requires Turns(c.Inside(ResultTypes(t)), thn, [], ResultTypes(t))
      && Turns(c.Inside(ResultTypes(t)), els, [], ResultTypes(t))
    ensures Turns(c, [IfElse(t, thn, els)], [TI32], ResultTypes(t))
  {
    hide BodyOk, Apply, Turns;
    TurnsBody(c.Inside(ResultTypes(t)), thn, ResultTypes(t));
    TurnsBody(c.Inside(ResultTypes(t)), els, ResultTypes(t));
    TurnsApply(c, IfElse(t, thn, els), [TI32], ResultTypes(t));
  }
}
