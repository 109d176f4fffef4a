/**
 * Conditional branches: how the arms of an `if` are entered and left, and why nothing can
 * leave a short-circuit boolean expression in the middle.
 */
module Branches {
  import opened Words
  import M = Mir
  import W = Wasm
  import opened StackMap
  import opened Emitter
  import opened Tracking
  import opened Slots
  import opened FrameSlots
  import opened Straightline
  import opened Matching

  // ---- taking a conditional branch ------------------------------------------------------

  /** The operands at a conditional branch: `c` is on top of `rest`. */
  ghost predicate Tested(stack: seq<M.Value>, rest: seq<M.Value>, c: I32) {
    stack == rest + [M.MI32(c)]
  }

  lemma BranchStep(fn: M.Function, oracle: M.Oracle, lo: nat, hi: nat, s: nat, ft: nat, stack: seq<M.Value>,
      rest: seq<M.Value>, c: I32, st: M.State)
    requires lo <= s + 1 < hi <= |fn.insts| && s + 1 < ft <= hi && ft < |fn.insts|
    requires fn.insts[s] == M.JumpIfFalse(ft) && Tested(stack, rest, c)
    ensures M.Run(fn, oracle, lo, hi, s, stack, st)
      == if c != 0 then M.Run(fn, oracle, lo, hi, s + 1, rest, st)
         else if ft == hi then M.Exit(hi, rest, st)
         else M.Run(fn, oracle, lo, hi, ft, rest, st)
  {
    hide W.ExecInstr, W.Exec, EmitRange;
    assert stack[..|stack| - 1] == rest && stack[|stack| - 1] == M.MI32(c);
    assert M.Step(fn, oracle, s, stack, st) == M.Goto(if c == 0 then ft else s + 1, rest, st);
  }

  /** The operands of a branch in both machines. */
  lemma TestedSlots(base: seq<M.Value>, stack: seq<M.Value>, ks: Kinds) returns (rest: seq<M.Value>, c: I32)
    requires base <= stack && M.KindsOf(stack) == ks && |ks| > 0 && ks[|ks| - 1] == M.KI32 && |base| <= |ks| - 1
    ensures Tested(stack, rest, c) && base <= rest && M.KindsOf(rest) == ks[..|ks| - 1]
    ensures W.Expand(stack[|base|..]) == W.Expand(rest[|base|..]) + [W.I32V(c)]
  {
    var n := |stack| - 1;
    assert M.KindOf(stack[n]) == M.KI32;
    rest, c := stack[..n], stack[n].i32;
    assert stack == rest + [stack[n]];
    assert stack[|base|..] == rest[|base|..] + [stack[n]];
    ExpandPush(rest[|base|..], stack[n]);
    KindsOfTake(stack, n);
  }

  /** Everything that is known at a conditional branch. */
  lemma BranchEntry(fn: M.Function, k: seq<Kinds>, t: Targets, s: nat, ft: nat, e: nat, base: seq<M.Value>,
      stack: seq<M.Value>, st: M.State, w: W.State)
    returns (rest: seq<M.Value>, c: I32)
    requires Entry(fn, k, t, s, e, base, stack, st, w) && s < e && fn.insts[s] == M.JumpIfFalse(ft)
    ensures |k| == |fn.insts| + 1 && WellFormed(fn, k) && e <= |fn.insts| && ft < |fn.insts|
    ensures |k[s]| > 0 && k[ft] == k[s + 1] == k[s][..|k[s]| - 1]
    ensures TargetsFit(fn, k, t, s, e, |base|) && (s + 1 < ft ==> StaysAbove(fn, k, s + 1, ft, |rest|))
      && StatesMatch(fn, st, w)
    ensures OutsideDiamond(fn, s) && base <= stack && (!IsTruthArm(fn, s + 2) ==> OutsideDiamond(fn, s + 1))
    ensures Tested(stack, rest, c) && base <= rest && M.KindsOf(rest) == k[s + 1]
    ensures W.Expand(stack[|base|..]) == W.Expand(rest[|base|..]) + [W.I32V(c)]
  {
    hide StatesMatch, EmitRange;
    InstAt(fn, k, s);
    assert Low(fn, k, s) >= |base|;
    rest, c := TestedSlots(base, stack, k[s]);
  }

  lemma IfStep(host: W.Host, thn: seq<W.Instr>, outer: seq<W.Value>, c: I32, w: W.State)
    ensures W.Exec(host, [W.If(thn)], outer + [W.I32V(c)], w)
      == if c != 0 then W.LeaveBlock(W.Exec(host, thn, [], w), 0, outer) else W.Normal(outer, w)
  {
    var ws := outer + [W.I32V(c)];
    ExecOne(host, W.If(thn), ws, w);
    assert ws[..|ws| - 1] == outer;
  }

  lemma IfElseStep(host: W.Host, t: Option<W.ValType>, thn: seq<W.Instr>, els: seq<W.Instr>, outer: seq<W.Value>,
      c: I32, w: W.State)
    ensures W.Exec(host, [W.IfElse(t, thn, els)], outer + [W.I32V(c)], w)
      == W.LeaveBlock(W.Exec(host, if c != 0 then thn else els, [], w), W.Arity(t), outer)
  {
    var ws := outer + [W.I32V(c)];
    ExecOne(host, W.IfElse(t, thn, els), ws, w);
    assert ws[..|ws| - 1] == outer;
  }

  /** An arm is entered above all the operands that are there. */
  lemma ArmEntry(fn: M.Function, k: seq<Kinds>, t: Targets, s: nat, e: nat, a: nat, b: nat, height: nat,
      rest: seq<M.Value>, st: M.State, w: W.State)
    requires WellFormed(fn, k) && s < a <= b <= e <= |fn.insts| && a < e && (a < b ==> OutsideDiamond(fn, a))
    requires StaysAbove(fn, k, a, b, |rest|) && TargetsFit(fn, k, t, s, e, height) && height <= |rest|
    requires M.KindsOf(rest) == k[a] && StatesMatch(fn, st, w)
    ensures Entry(fn, k, Nest(t), a, b, rest, rest, st, w) && Lo(Nest(t), a) == a
    ensures Entry(fn, k, t, a, b, rest, rest, st, w) && Lo(t, a) == a
    ensures rest[|rest|..] == [] && W.Expand(rest[|rest|..]) == []
  {
    hide W.ExecInstr, EmitRange, StatesMatch, InstOk;
  }

  /** The arm after the jump that ends the other arm. */
  lemma ElseEntry(fn: M.Function, k: seq<Kinds>, p: nat, merge: nat, height: nat)
    requires WellFormed(fn, k) && p < merge && p < |fn.insts| && fn.insts[p] == M.Jump(merge) && |k[p + 1]| == height
    ensures StaysAbove(fn, k, p + 1, merge, height) && merge < |fn.insts| && k[merge] == k[p]
  {
    hide StaysAbove;
    InstAt(fn, k, p);
  }

  // ---- leaving an arm ---------------------------------------------------------------------

  /** Leaving the block of an arm: the arm keeps no operands of its own, and a branch out of it
      needs no operands above those of the enclosing block. */
  lemma LeaveArm(fn: M.Function, k: seq<Kinds>, t: Targets, s: nat, e: nat, end: nat, base: seq<M.Value>,
      rest: seq<M.Value>, fo: M.Outcome, inner: W.Outcome)
    requires |k| == |fn.insts| + 1 && base <= rest && TargetsFit(fn, k, t, s, e, |base|)
    requires end <= |fn.insts| && |k[end]| == |rest| && Match(fn, k, Nest(t), end, rest, fo, inner)
    ensures Match(fn, k, t, end, base, fo, W.LeaveBlock(inner, 0, W.Expand(rest[|base|..])))
  {
    hide M.Step, W.ExecInstr, EmitRange, WellFormed, StatesMatch;
    if inner.Normal? {
      assert fo.stack == rest;
      assert W.Expand(fo.stack[|rest|..]) == [];
      assert W.Expand(rest[|base|..]) + [] == W.Expand(rest[|base|..]);
    } else if inner.Branch? {
      assert inner.depth > 0 && PcOf(t, inner.depth - 1) == PcOf(Nest(t), inner.depth);
      assert rest == base;
    }
  }

  /** An `if` whose condition is false does nothing. */
  lemma SkipArm(fn: M.Function, k: seq<Kinds>, t: Targets, end: nat, base: seq<M.Value>, rest: seq<M.Value>,
      st: M.State, w: W.State)
    requires |k| == |fn.insts| + 1 && end <= |fn.insts| && base <= rest && M.KindsOf(rest) == k[end]
      && StatesMatch(fn, st, w)
    ensures Match(fn, k, t, end, base, M.Exit(end, rest, st), W.Normal(W.Expand(rest[|base|..]), w))
  {
  }

  /** Falling through to `e` happens in the enclosing range as in the part of it. */
  lemma ArmRun(fn: M.Function, k: seq<Kinds>, oracle: M.Oracle, t: Targets, lo: nat, s: nat, a: nat, b: nat, e: nat,
      rest: seq<M.Value>, st: M.State, inner: W.Outcome)
    requires |k| == |fn.insts| + 1 && lo == Lo(t, s) && s < a <= b <= e <= |fn.insts|
      && TargetsFit(fn, k, t, s, e, |rest|)
    requires Match(fn, k, Nest(t), b, rest, M.Run(fn, oracle, a, b, a, rest, st), inner)
    ensures !inner.Normal? || b == e ==> M.Run(fn, oracle, lo, e, a, rest, st) == M.Run(fn, oracle, a, b, a, rest, st)
    ensures inner.Normal? && b < e ==>
      M.Run(fn, oracle, lo, e, a, rest, st)
        == (var fo := M.Run(fn, oracle, a, b, a, rest, st); M.Run(fn, oracle, lo, e, b, fo.stack, fo.st))
  {
    hide M.Step, W.ExecInstr, EmitRange, WellFormed, StatesMatch;
    if a < b {
      M.RunSplits(fn, oracle, lo, e, a, b, a, rest, st);
    }
    if inner.Branch? {
      assert inner.depth > 0 && PcOf(t, inner.depth - 1) == PcOf(Nest(t), inner.depth);
      LabelOutside(fn, k, t, s, e, |rest|, inner.depth - 1);
    }
  }

  lemma JumpOut(fn: M.Function, oracle: M.Oracle, lo: nat, p: nat, dest: nat, stack: seq<M.Value>, st: M.State)
    requires lo <= p < dest < |fn.insts| && fn.insts[p] == M.Jump(dest)
    ensures M.Run(fn, oracle, lo, dest, p, stack, st) == M.Exit(dest, stack, st)
  {
  }

  // ---- boolean expressions ------------------------------------------------------------------

  /** Flat execution inside a closed region can only leave it at its end. */
  lemma {:induction false} ClosedExit(fn: M.Function, oracle: M.Oracle, o: nat, merge: nat, lo: nat, hi: nat, pc: nat,
      stack: seq<M.Value>, st: M.State)
    requires JumpsClosed(fn, o, merge) && o < lo && o < pc <= hi <= merge && hi <= |fn.insts|
    ensures var r := M.Run(fn, oracle, lo, hi, pc, stack, st); r.Exit? ==> o < r.pc <= merge
    decreases st.fuel, hi - pc
  {
    hide W.ExecInstr, W.Exec, EmitRange;
    if pc < hi {
      M.StepKeepsFuel(fn, oracle, pc, stack, st);
      StepStays(fn, oracle, o, merge, pc, stack, st);
      var g := M.Step(fn, oracle, pc, stack, st);
      if g.Goto? && lo <= g.pc < hi {
        if g.pc > pc {
          ClosedExit(fn, oracle, o, merge, lo, hi, g.pc, g.stack, g.st);
        } else if g.st.fuel > 0 {
          ClosedExit(fn, oracle, o, merge, lo, hi, g.pc, g.stack, g.st.(fuel := g.st.fuel - 1));
        }
      }
    }
  }

  lemma StepStays(fn: M.Function, oracle: M.Oracle, o: nat, merge: nat, pc: nat, stack: seq<M.Value>, st: M.State)
    requires JumpsClosed(fn, o, merge) && o < pc < merge && pc < |fn.insts|
    ensures var g := M.Step(fn, oracle, pc, stack, st); g.Goto? ==> o < g.pc <= merge
  {
    assert JumpStays(fn.insts[pc], o, merge);
  }

  /** A closed region of a boolean expression whose value is pushed at `merge`. */
  ghost predicate BoolRegion(fn: M.Function, k: seq<Kinds>, t: Targets, o: nat, merge: nat, base: seq<M.Value>,
      rest: seq<M.Value>) {
    && |k| == |fn.insts| + 1 && WellFormed(fn, k) && o < merge < |fn.insts| && JumpsClosed(fn, o, merge)
      && TargetsFit(fn, k, t, o, merge, |base|)
    && base <= rest && k[merge] == M.KindsOf(rest) + [M.KI32]
  }

  /** An operand of a boolean expression is left by falling out of it, never by a branch. */
  lemma NoBranch(fn: M.Function, k: seq<Kinds>, oracle: M.Oracle, t: Targets, o: nat, merge: nat, base: seq<M.Value>,
      start: nat, b: nat, stack: seq<M.Value>, st: M.State, wo: W.Outcome)
    requires BoolRegion(fn, k, t, o, merge, base, base) && o < start <= b < merge
    requires Match(fn, k, t, b, base, M.Run(fn, oracle, start, b, start, stack, st), wo)
    ensures !wo.Branch?
  {
    hide M.Step, M.Run, W.Exec, W.ExecInstr, EmitRange, WellFormed, StatesMatch, JumpsClosed;
    ClosedExit(fn, oracle, o, merge, start, b, start, stack, st);
  }

  /** An operand of a boolean expression is entered like any other range. */
  lemma OperandEntry(fn: M.Function, k: seq<Kinds>, t: Targets, o: nat, start: nat, b: nat, merge: nat,
      rest: seq<M.Value>, st: M.State, w: W.State)
    requires BoolRegion(fn, k, t, o, merge, rest, rest) && o < start <= b < merge
      && (start < b ==> OutsideDiamond(fn, start))
    requires StaysAbove(fn, k, start, b, |rest|) && M.KindsOf(rest) == k[start] && StatesMatch(fn, st, w)
    ensures Entry(fn, k, t, start, b, rest, rest, st, w) && Lo(t, start) == start && w.fuel == st.fuel
    ensures rest[|rest|..] == [] && W.Expand(rest[|rest|..]) == []
  {
    hide Held, EmitRange, InstOk;
  }

  /** After an operand its value is on top of the operands below. */
  lemma OperandLeft(fn: M.Function, k: seq<Kinds>, t: Targets, b: nat, rest: seq<M.Value>, fo: M.Outcome,
      wo: W.Outcome) returns (c: I32)
    requires |k| == |fn.insts| + 1 && b < |fn.insts| && |k[b]| == |rest| + 1 && k[b][|rest|] == M.KI32
    requires Match(fn, k, t, b, rest, fo, wo) && wo.Normal?
    ensures fo.Exit? && Tested(fo.stack, rest, c) && wo.stack == W.Expand(fo.stack[|rest|..])
    ensures StatesMatch(fn, fo.st, wo.st) && fo.st.fuel == wo.st.fuel
  {
    hide Held, EmitRange;
    assert M.KindOf(fo.stack[|rest|]) == M.KI32;
    c := fo.stack[|rest|].i32;
  }

  lemma ConstArm(host: W.Host, c: I32, w: W.State)
    ensures W.Exec(host, [W.I32Const(c)], [], w) == W.Normal([W.I32V(c)], w)
  {
    ExecOne(host, W.I32Const(c), [], w);
    assert [] + [W.I32V(c)] == [W.I32V(c)];
  }

  /** Leaving the block of a boolean `if` with its value. */
  lemma LeaveBool(fn: M.Function, k: seq<Kinds>, merge: nat, base: seq<M.Value>, rest: seq<M.Value>, fo: M.Outcome,
      inner: W.Outcome)
    requires |k| == |fn.insts| + 1 && merge <= |fn.insts| && base <= rest && |k[merge]| == |rest| + 1
      && k[merge][|rest|] == M.KI32
    requires Match(fn, k, NO_TARGETS, merge, rest, fo, inner)
    ensures Match(fn, k, NO_TARGETS, merge, base, fo, W.LeaveBlock(inner, 1, W.Expand(rest[|base|..])))
  {
    hide M.Step, W.ExecInstr, EmitRange, WellFormed, StatesMatch;
    if inner.Normal? {
      var v := fo.stack[|rest|];
      assert M.KindOf(v) == M.KI32;
      assert fo.stack[|rest|..] == [] + [v];
      ExpandPush([], v);
      assert inner.stack == [] + W.Slots(v);
      assert fo.stack[|base|..] == rest[|base|..] + [v];
      ExpandPush(rest[|base|..], v);
    }
  }

  /** A constant truth value reached on both sides. */
  lemma BoolPushed(fn: M.Function, k: seq<Kinds>, merge: nat, rest: seq<M.Value>, b: bool, st: M.State, w: W.State)
    requires |k| == |fn.insts| + 1 && merge <= |fn.insts| && StatesMatch(fn, st, w)
      && k[merge] == M.KindsOf(rest) + [M.KI32]
    ensures Match(fn, k, NO_TARGETS, merge, rest, M.Exit(merge, rest + [M.BoolValue(b)], st),
      W.Normal([W.I32V(if b then 1 else 0)], w))
  {
    hide M.Step, W.ExecInstr, EmitRange, WellFormed, StatesMatch;
    var v := M.BoolValue(b);
    assert (rest + [v])[|rest|..] == [] + [v];
    ExpandPush([], v);
    assert M.KindsOf(rest + [v]) == M.KindsOf(rest) + [M.KI32];
  }

  /** `PUSH true; JUMP merge`. */
  lemma TruthArmRun(fn: M.Function, oracle: M.Oracle, lo: nat, merge: nat, p: nat, rest: seq<M.Value>, st: M.State)
    requires lo <= p && p + 2 <= merge < |fn.insts| && fn.insts[p] == M.PushBool(true)
      && fn.insts[p + 1] == M.Jump(merge)
    ensures M.Run(fn, oracle, lo, merge, p, rest, st) == M.Exit(merge, rest + [M.BoolValue(true)], st)
  {
    hide W.ExecInstr, W.Exec, EmitRange;
    assert M.Step(fn, oracle, p, rest, st) == M.Goto(p + 1, rest + [M.BoolValue(true)], st);
  }

  lemma FalseArmRun(fn: M.Function, oracle: M.Oracle, lo: nat, p: nat, rest: seq<M.Value>, st: M.State)
    requires lo <= p + 1 <= |fn.insts| && fn.insts[p] == M.PushBool(false)
    ensures M.Run(fn, oracle, lo, p + 1, p, rest, st) == M.Exit(p + 1, rest + [M.BoolValue(false)], st)
  {
    hide W.ExecInstr, W.Exec, EmitRange;
    assert M.Step(fn, oracle, p, rest, st) == M.Goto(p + 1, rest + [M.BoolValue(false)], st);
  }

  /** An outcome that does not depend on where the run started. */
  lemma SettledRun(fn: M.Function, k: seq<Kinds>, oracle: M.Oracle, lo: nat, a: nat, merge: nat, base: seq<M.Value>,
      stack: seq<M.Value>, st: M.State, wo: W.Outcome)
    requires |k| == |fn.insts| + 1 && lo <= a < merge <= |fn.insts|
    requires Match(fn, k, NO_TARGETS, merge, base, M.Run(fn, oracle, a, merge, a, stack, st), wo)
    ensures M.Run(fn, oracle, lo, merge, a, stack, st) == M.Run(fn, oracle, a, merge, a, stack, st)
  {
    hide M.Step, W.ExecInstr, EmitRange, WellFormed, StatesMatch, W.Exec;
    M.RunSplits(fn, oracle, lo, merge, a, merge, a, stack, st);
  }

  /** The value of a boolean expression, seen from the targets around it. */
  lemma Settled(fn: M.Function, k: seq<Kinds>, t: Targets, merge: nat, base: seq<M.Value>, fo: M.Outcome, wo: W.Outcome)
    requires |k| == |fn.insts| + 1 && Match(fn, k, NO_TARGETS, merge, base, fo, wo)
    ensures Match(fn, k, t, merge, base, fo, wo)
  {
  }

  /** An operand followed by the rest of the chain. */
  lemma ChainJoin(fn: M.Function, k: seq<Kinds>, oracle: M.Oracle, t: Targets, start: nat, b: nat, merge: nat,
      base: seq<M.Value>,
                  cond: seq<W.Instr>, rest: seq<W.Instr>, st: M.State, w: W.State)
    requires |k| == |fn.insts| + 1 && start <= b < merge <= |fn.insts|
    requires var fo := M.Run(fn, oracle, start, b, start, base, st);
      var wo := W.Exec(W.HostOf(fn, oracle), cond, [], w);
      && Match(fn, k, t, b, base, fo, wo) && !wo.Branch?
      && (wo.Normal? ==>
            Match(fn, k, NO_TARGETS, merge, base, M.Run(fn, oracle, start, merge, b, fo.stack, fo.st),
              W.Exec(W.HostOf(fn, oracle), rest, wo.stack, wo.st)))
    ensures Match(fn, k, NO_TARGETS, merge, base, M.Run(fn, oracle, start, merge, start, base, st),
      W.Exec(W.HostOf(fn, oracle), cond + rest, [], w))
  {
    hide M.Step, W.ExecInstr, EmitRange, WellFormed, StatesMatch;
    W.ExecConcat(W.HostOf(fn, oracle), cond, rest, [], w);
    if start < b {
      M.RunSplits(fn, oracle, start, merge, start, b, start, base, st);
    }
  }

  lemma TestedOuter(base: seq<M.Value>, rest: seq<M.Value>, c: I32, stack: seq<M.Value>)
    requires base <= rest && Tested(stack, rest, c)
    ensures W.Expand(stack[|base|..]) == W.Expand(rest[|base|..]) + [W.I32V(c)]
  {
    assert stack[|base|..] == rest[|base|..] + [M.MI32(c)];
    ExpandPush(rest[|base|..], M.MI32(c));
  }

  /** The region of an `or` expression is closed, whatever range it was recognised in. */
  lemma OrEntry(fn: M.Function, k: seq<Kinds>, t: Targets, s: nat, e: nat, base: seq<M.Value>, rest: seq<M.Value>)
    requires WellFormed(fn, k) && s < e <= |fn.insts| && OrShape(fn, s, e).Some? && TargetsFit(fn, k, t, s, e, |base|)
    requires base <= rest && M.KindsOf(rest) == k[s + 1]
    ensures var merge := OrShape(fn, s, e).value.mergeTarget;
      && s + 3 < merge <= e && fn.insts[s] == M.JumpIfFalse(s + 3) && IsTruthArm(fn, s + 2)
        && fn.insts[s + 2] == M.Jump(merge)
      && BoolRegion(fn, k, t, s, merge, base, rest)
  {
    hide EmitRange;
    assert DiamondsClosed(fn, s);
    DiamondKinds(fn, k, s, OrShape(fn, s, e).value.mergeTarget);
  }

  lemma AndEntry(fn: M.Function, k: seq<Kinds>, t: Targets, s: nat, e: nat, height: nat)
    requires WellFormed(fn, k) && s < e <= |fn.insts| && AndShape(fn, s, e).Some? && OrShape(fn, s, e).None?
      && TargetsFit(fn, k, t, s, e, height)
    requires fn.insts[s].JumpIfFalse? && EmitBranch(fn, t, s, e, k[s]).Next?
    ensures |k| == |fn.insts| + 1 && |k[s]| > 0
    ensures var ft := fn.insts[s].dest;
      && s + 1 < ft < e && ft + 1 < |fn.insts| && fn.insts[ft] == M.PushBool(false)
        && fn.insts[ft - 1] == M.Jump(ft + 1)
      && k[ft + 1] == k[s + 1] + [M.KI32] && JumpsClosed(fn, s, ft + 1) && TargetsFit(fn, k, t, s, ft + 1, height)
      && k[s][..|k[s]| - 1] == k[s + 1]
      && EmitBranch(fn, t, s, e, k[s]) == At(EmitAnd(fn, t, s + 1, ft, k[s + 1]), ft + 1)
  {
    hide EmitRange, EmitAnd, EmitBranch;
    var ft := fn.insts[s].dest;
    BranchParts(fn, t, s, e, k[s]);
    assert DiamondsClosed(fn, s);
    InstAt(fn, k, s); InstAt(fn, k, ft - 1); InstAt(fn, k, ft);
  }

  /** Where the next operand of an `or` chain ends, the operands below it are those of the chain. */
  lemma OrOperand(fn: M.Function, k: seq<Kinds>, t: Targets, start: nat, b: nat, merge: nat, height: nat)
    requires WellFormed(fn, k) && 0 < start < merge < |fn.insts| && |k[start]| == height
      && k[merge] == k[start] + [M.KI32]
    requires fn.insts[start - 1].Jump? && !IsTruthArm(fn, start) && StaysAbove(fn, k, start, merge, height)
    requires EmitOrRange(fn, t, start, merge, k[start]).Ok? && !IsOrEnd(fn, start, merge)
      && Some(b) == FindOrOperand(fn, start, merge)
    ensures start <= b && b + 3 < merge && (start < b ==> OutsideDiamond(fn, start))
      && StaysAbove(fn, k, start, b, height)
    ensures fn.insts[b] == M.JumpIfFalse(b + 3) && IsTruthArm(fn, b + 2) && fn.insts[b + 2] == M.Jump(merge)
    ensures |k[b]| == height + 1 && k[b][height] == M.KI32 && k[b + 1] == k[start] && k[b][..height] == k[start]
    ensures EmitRange(fn, t, start, b, k[start]).Ok? && EmitRange(fn, t, start, b, k[start]).stack == k[b]
    ensures EmitOr(fn, t, b + 3, merge, k[b + 1]).Ok?
  {
    hide EmitRange, EmitOr, EmitOrRange;
    OrRangeParts(fn, t, start, merge, k[start]);
    DiamondKinds(fn, k, b, merge);
    InstAt(fn, k, b);
    assert k[b + 1] == k[merge][..|k[merge]| - 1] == k[start];
    RangeTracks(fn, k, t, start, b);
    OrEndsPlainly(fn, t, b + 3, merge, k[b + 1]);
  }

  lemma AndOperand(fn: M.Function, k: seq<Kinds>, t: Targets, start: nat, b: nat, ft: nat, height: nat)
    requires WellFormed(fn, k) && 0 < start < ft && ft + 1 < |fn.insts| && |k[start]| == height
      && k[ft + 1] == k[start] + [M.KI32]
    requires fn.insts[start - 1] == M.JumpIfFalse(ft) && fn.insts[ft] == M.PushBool(false)
      && fn.insts[ft - 1] == M.Jump(ft + 1)
    requires StaysAbove(fn, k, start, ft, height)
    requires EmitAndTail(fn, t, start, ft, k[start]).Ok? && !IsAndEnd(fn, start, ft)
      && Some(b) == FindAndOperand(fn, start, ft)
    ensures start <= b && b + 1 < ft && OutsideDiamond(fn, start) && StaysAbove(fn, k, start, b, height)
      && StaysAbove(fn, k, b + 1, ft, height)
    ensures fn.insts[b] == M.JumpIfFalse(ft)
    ensures |k[b]| == height + 1 && k[b][height] == M.KI32 && k[b + 1] == k[start] && k[b][..height] == k[start]
    ensures EmitRange(fn, t, start, b, k[start]).Ok? && EmitRange(fn, t, start, b, k[start]).stack == k[b]
    ensures EmitAnd(fn, t, b + 1, ft, k[b + 1]).Ok?
  {
    hide EmitRange, EmitAnd, EmitAndTail;
    AndTailParts(fn, t, start, ft, k[start]);
    InstAt(fn, k, start - 1); InstAt(fn, k, ft); InstAt(fn, k, b);
    AndTailTracks(fn, k, t, start, ft);
    RangeTracks(fn, k, t, start, b);
  }
}
