/** What it means for structured code and the flat machine to do the same. */
module Matching {
  import opened Words
  import M = Mir
  import W = Wasm
  import opened StackMap
  import opened Emitter
  import opened Tracking
  import opened Slots
  import opened Straightline
  import opened FrameSlots
  import opened InstSim
  import opened FrameSim

  /** The flat program counter that a branch of the given depth stands for. */
  function PcOf(t: Targets, depth: nat): Option<nat> {
    if t.continue_.Some? && t.continue_.value.depth == depth then Some(t.continue_.value.pc)
    else if t.break_.Some? && t.break_.value.depth == depth then Some(t.break_.value.pc)
    else None
  }

  ghost predicate SameHistory(st: M.State, w: W.State) {
    w.trace == st.trace && w.fuel == st.fuel
  }

  /**
   * `wo` is the outcome of a block entered above the operands `base`, `fo` that of the flat run
   * from the same place: falling out of the block is reaching `e`, a branch is reaching the
   * program counter its label stands for, and so on.
   */
  ghost predicate Match(fn: M.Function, k: seq<Kinds>, t: Targets, e: nat, base: seq<M.Value>, fo: M.Outcome,
      wo: W.Outcome)
    requires |k| == |fn.insts| + 1
  {
    match wo
    case Normal(ws, w) =>
      && fo.Exit? && fo.pc == e <= |fn.insts| && base <= fo.stack && M.KindsOf(fo.stack) == k[e]
      && ws == W.Expand(fo.stack[|base|..]) && StatesMatch(fn, fo.st, w)
    case Branch(depth, _, w) =>
      && fo.Exit? && PcOf(t, depth) == Some(fo.pc) && fo.pc <= |fn.insts| && fo.stack == base
        && M.KindsOf(base) == k[fo.pc]
      && StatesMatch(fn, fo.st, w)
    case Returning(ws, w) =>
      && fo.Finished? && SameHistory(fo.st, w) && fo.result.None? == fn.result.None?
      && (fo.result.Some? ==> ws == W.Slots(fo.result.value))
    case Trap(w) =>
      // falling off a function that must return a value is an explicit trap
      (fo.Crashed? || (fo.Finished? && fo.result.None? && fn.result.Some?)) && SameHistory(fo.st, w)
    case Exhausted(w) => fo.OutOfFuel? && SameHistory(fo.st, w)
    case Stuck => false
  }

  /** Branch targets lie outside the open range (s, e) and need no more operands than `height`. */
  ghost predicate TargetsFit(fn: M.Function, k: seq<Kinds>, t: Targets, s: nat, e: nat, height: nat)
    requires |k| == |fn.insts| + 1
  {
    && (t.continue_.Some? ==> var pc := t.continue_.value.pc;
      (pc <= s || pc >= e) && pc <= |fn.insts| && |k[pc]| <= height)
    && (t.break_.Some? ==> var pc := t.break_.value.pc; pc >= e && pc <= |fn.insts| && |k[pc]| <= height)
    && (t.continue_.Some? && t.break_.Some? ==> t.continue_.value.depth != t.break_.value.depth)
  }

  /** A range that starts at its own continue target is left by a jump back to its start. */
  function Lo(t: Targets, s: nat): nat {
    if t.continue_.Some? && t.continue_.value.pc == s then s + 1 else s
  }

  ghost predicate Entry(fn: M.Function, k: seq<Kinds>, t: Targets, s: nat, e: nat, base: seq<M.Value>,
      stack: seq<M.Value>, st: M.State, w: W.State) {
    && WellFormed(fn, k) && s <= e <= |fn.insts| && (s < e ==> OutsideDiamond(fn, s))
    && StaysAbove(fn, k, s, e, |base|) && TargetsFit(fn, k, t, s, e, |base|)
    && base <= stack && M.KindsOf(stack) == k[s] && StatesMatch(fn, st, w)
  }

  lemma LabelOutside(fn: M.Function, k: seq<Kinds>, t: Targets, s: nat, e: nat, height: nat, depth: nat)
    requires |k| == |fn.insts| + 1 && s < e && TargetsFit(fn, k, t, s, e, height) && PcOf(t, depth).Some?
    ensures var q := PcOf(t, depth).value; q < Lo(t, s) || q >= e
  {
  }

  /** Ranges compose: first [s, m), then [m, e). */
  lemma JoinRanges(fn: M.Function, k: seq<Kinds>, oracle: M.Oracle, t: Targets, s: nat, m: nat, e: nat,
      base: seq<M.Value>,
                   a: seq<W.Instr>, b: seq<W.Instr>, stack: seq<M.Value>, st: M.State, w: W.State)
    requires WellFormed(fn, k) && s < m <= e <= |fn.insts| && base <= stack && TargetsFit(fn, k, t, s, e, |base|)
    requires var fo := M.Run(fn, oracle, Lo(t, s), m, s, stack, st);
      var wo := W.Exec(W.HostOf(fn, oracle), a, W.Expand(stack[|base|..]), w);
      && Match(fn, k, t, m, base, fo, wo)
      && (wo.Normal? ==>
            Match(fn, k, t, e, base, M.Run(fn, oracle, Lo(t, m), e, m, fo.stack, fo.st),
              W.Exec(W.HostOf(fn, oracle), b, wo.stack, wo.st)))
    ensures Match(fn, k, t, e, base, M.Run(fn, oracle, Lo(t, s), e, s, stack, st),
      W.Exec(W.HostOf(fn, oracle), a + b, W.Expand(stack[|base|..]), w))
  {
    var ws := W.Expand(stack[|base|..]);
    var fo := M.Run(fn, oracle, Lo(t, s), m, s, stack, st);
    var wo := W.Exec(W.HostOf(fn, oracle), a, ws, w);
    W.ExecConcat(W.HostOf(fn, oracle), a, b, ws, w);
    M.RunSplits(fn, oracle, Lo(t, s), e, Lo(t, s), m, s, stack, st);
    if wo.Normal? {
      if m < e {
        M.RunSplits(fn, oracle, Lo(t, s), e, m, e, m, fo.stack, fo.st);
        var wo2 := W.Exec(W.HostOf(fn, oracle), b, wo.stack, wo.st);
        if wo2.Branch? {
          LabelOutside(fn, k, t, s, e, |base|, wo2.depth);
        }
      }
    } else if wo.Branch? {
      LabelOutside(fn, k, t, s, e, |base|, wo.depth);
    }
  }

  lemma SingleStep(fn: M.Function, oracle: M.Oracle, lo: nat, s: nat, stack: seq<M.Value>, st: M.State)
    requires s < |fn.insts|
    ensures var m := M.Step(fn, oracle, s, stack, st);
      m.Goto? && (m.pc < lo || m.pc >= s + 1) ==>
        M.Run(fn, oracle, lo, s + 1, s, stack, st) == M.Exit(m.pc, m.stack, m.st)
    ensures var m := M.Step(fn, oracle, s, stack, st);
      && (m.Returned? ==> M.Run(fn, oracle, lo, s + 1, s, stack, st) == M.Finished(m.result, m.st))
      && (m.Trapped? ==> M.Run(fn, oracle, lo, s + 1, s, stack, st) == M.Crashed(m.st))
  {
  }

  lemma LeafSim(fn: M.Function, k: seq<Kinds>, oracle: M.Oracle, t: Targets, s: nat, e: nat, base: seq<M.Value>,
      stack: seq<M.Value>, st: M.State, w: W.State)
    requires Entry(fn, k, t, s, e, base, stack, st, w) && s < e
    requires !fn.insts[s].JumpIfFalse? && EmitLeaf(fn, t, fn.insts[s], k[s]).Ok?
    ensures Match(fn, k, t, s + 1, base, M.Run(fn, oracle, Lo(t, s), s + 1, s, stack, st),
                  W.Exec(W.HostOf(fn, oracle), EmitLeaf(fn, t, fn.insts[s], k[s]).code, W.Expand(stack[|base|..]), w))
  {
    var inst := fn.insts[s];
    InstAt(fn, k, s);
    SingleStep(fn, oracle, Lo(t, s), s, stack, st);
    assert Low(fn, k, s) >= |base|;
    if M.IsControl(inst) {
      ControlSim(fn, k, oracle, t, s, e, base, stack, st, w);
    } else {
      FallSim(fn, oracle, inst, s, base, stack, k[s], st, w);
    }
  }

  lemma ControlSim(fn: M.Function, k: seq<Kinds>, oracle: M.Oracle, t: Targets, s: nat, e: nat, base: seq<M.Value>,
      stack: seq<M.Value>, st: M.State, w: W.State)
    requires Entry(fn, k, t, s, e, base, stack, st, w) && s < e
    requires !fn.insts[s].JumpIfFalse? && M.IsControl(fn.insts[s]) && EmitLeaf(fn, t, fn.insts[s], k[s]).Ok?
    ensures Match(fn, k, t, s + 1, base, M.Run(fn, oracle, Lo(t, s), s + 1, s, stack, st),
                  W.Exec(W.HostOf(fn, oracle), EmitLeaf(fn, t, fn.insts[s], k[s]).code, W.Expand(stack[|base|..]), w))
  {
    hide Held, EmitRange, W.ExecNumeric, W.ExecCall, M.StepSimple;
    InstAt(fn, k, s);
    SingleStep(fn, oracle, Lo(t, s), s, stack, st);
    assert Low(fn, k, s) >= |base|;
    var ws := W.Expand(stack[|base|..]);
    match fn.insts[s]
    case Jump(dest) =>
      ExecOne(W.HostOf(fn, oracle), W.Br(DepthForJump(t, dest).value), ws, w);
      assert stack == base;
    case Return =>
      assert base == [] && stack[0..] == stack;
      ReturnCorrect(fn, oracle, stack, k[s], st, w);
    case ReturnVoid =>
      if fn.result.Some? {
        ExecOne(W.HostOf(fn, oracle), W.Unreachable, ws, w);
      } else {
        ReturnVoidCorrect(fn, oracle, ws, st, w);
      }
  }

  /** A return hands back its operand, converted to the declared result kind. */
  lemma ReturnCorrect(fn: M.Function, oracle: M.Oracle, stack: seq<M.Value>, ks: Kinds, st: M.State, w: W.State)
    requires M.KindsOf(stack) == ks && |ks| == 1 && EmitReturn(fn, ks).Ok? && StatesMatch(fn, st, w)
    ensures fn.result.Some? && M.Coercible(ks[0], fn.result.value)
    ensures var o := W.Exec(W.HostOf(fn, oracle), EmitReturn(fn, ks).code, W.Expand(stack), w);
      o.Returning? && o.stack == W.Slots(M.Coerce(stack[0], fn.result.value)) && SameHistory(st, o.st)
  {
    hide W.Exec, LocalsMatch, FrameOk, Leave, Left;
    var to := fn.result.value;
    var c := M.Coerce(stack[0], to);
    var v := W.Slots(c);
    var host := W.HostOf(fn, oracle);
    assert stack == [] + [stack[0]];
    ExpandPush([], stack[0]);
    AdaptCorrect(host, stack[0], to, [], w);
    assert [] + v == v;
    ExecThen(host, Adapt(M.KindOf(stack[0]), to), Leave(fn, fn.result), W.Expand(stack), w, v, w);
    LeaveCorrect(host, fn, Some(c), [], w);
    LeftHistory(fn, Some(c), w);
  }

  lemma LeftHistory(fn: M.Function, v: Option<M.Value>, w: W.State)
    requires fn.frame.Some? ==>
      FrameBase(fn) < |w.locals| && w.locals[FrameBase(fn)].I32V? && fn.frame.value.pointer < |w.store.globals|
    requires fn.frame.Some? && v.Some? ==> ResultLocal(fn, M.KindOf(v.value)) + |W.Slots(v.value)| <= |w.locals|
    ensures Left(fn, v, w).trace == w.trace && Left(fn, v, w).fuel == w.fuel
  {
  }

  lemma ReturnVoidCorrect(fn: M.Function, oracle: M.Oracle, ws: seq<W.Value>, st: M.State, w: W.State)
    requires fn.result.None? && StatesMatch(fn, st, w)
    ensures var o := W.Exec(W.HostOf(fn, oracle), Leave(fn, None), ws, w);
      o.Returning? && SameHistory(st, o.st)
  {
    hide W.Exec, LocalsMatch, FrameOk, Leave, Left;
    assert ws + [] == ws;
    LeaveCorrect(W.HostOf(fn, oracle), fn, None, ws, w);
    LeftHistory(fn, None, w);
  }

  /** A construct that starts at `s` does what flat execution does up to where the construct ends. */
  ghost predicate ConstructMatch(fn: M.Function, k: seq<Kinds>, oracle: M.Oracle, t: Targets, s: nat, c: Construct,
      base: seq<M.Value>, stack: seq<M.Value>, st: M.State, w: W.State)
    requires |k| == |fn.insts| + 1 && base <= stack && c.Next? && c.pc <= |fn.insts|
  {
    Match(fn, k, t, c.pc, base, M.Run(fn, oracle, Lo(t, s), c.pc, s, stack, st),
      W.Exec(W.HostOf(fn, oracle), c.code, W.Expand(stack[|base|..]), w))
  }
}
