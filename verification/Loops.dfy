/** The passes of a loop: how one pass ends, and how the blocks around a loop are left. */
module Loops {
  import opened Words
  import M = Mir
  import W = Wasm
  import opened StackMap
  import opened Emitter
  import opened Tracking
  import opened Slots
  import opened FrameSlots
  import opened Straightline
  import opened Matching
  import opened Branches

  /** What flat execution does after it jumped back to the header of a loop. */
  function Again(fn: M.Function, oracle: M.Oracle, header: nat, exit: nat, stack: seq<M.Value>, st: M.State): M.Outcome
    requires exit <= |fn.insts|
  {
    if st.fuel == 0 then M.OutOfFuel(st) else M.Run(fn, oracle, header, exit, header, stack, st.(fuel := st.fuel - 1))
  }

  /** One pass through a loop body, `wo`, against the rest of the flat run, `fo`. */
  ghost predicate PassMatch(fn: M.Function, k: seq<Kinds>, oracle: M.Oracle, header: nat, exit: nat,
      stack: seq<M.Value>, fo: M.Outcome, wo: W.Outcome)
    requires |k| == |fn.insts| + 1 && exit <= |fn.insts|
  {
    match wo
    case Branch(depth, _, w) =>
      if depth == 0 then exists st :: StatesMatch(fn, st, w) && fo == Again(fn, oracle, header, exit, stack, st)
      else depth == 1 && fo.Exit? && fo.pc == exit && fo.stack == stack && StatesMatch(fn, fo.st, w)
    case Normal(_, _) => false
    case _ => Match(fn, k, NO_TARGETS, exit, stack, fo, wo)
  }

  lemma TailJoin(fn: M.Function, k: seq<Kinds>, oracle: M.Oracle, header: nat, p: nat, backedge: nat,
      code: seq<W.Instr>, stack: seq<M.Value>, st: M.State, w: W.State)
    requires WellFormed(fn, k) && header <= p <= backedge < |fn.insts| && fn.insts[backedge] == M.Jump(header)
    requires |k[backedge]| == |stack|
    requires var t := LoopTargets(header, backedge + 1);
      Match(fn, k, t, backedge, stack, M.Run(fn, oracle, Lo(t, p), backedge, p, stack, st),
        W.Exec(W.HostOf(fn, oracle), code, [], w))
    ensures PassMatch(fn, k, oracle, header, backedge + 1, stack, M.Run(fn, oracle, header, backedge + 1, p, stack, st),
                      W.Exec(W.HostOf(fn, oracle), code + [W.Br(0)], [], w))
  {
    hide W.ExecNumeric, W.ExecCall, EmitRange, Held, W.Expand;
    var exit := backedge + 1;
    var t := LoopTargets(header, exit);
    var wo := W.Exec(W.HostOf(fn, oracle), code, [], w);
    var fo := M.Run(fn, oracle, Lo(t, p), backedge, p, stack, st);
    W.ExecConcat(W.HostOf(fn, oracle), code, [W.Br(0)], [], w);
    if p < backedge {
      M.RunSplits(fn, oracle, header, exit, Lo(t, p), backedge, p, stack, st);
    }
    if wo.Normal? {
      ExecOne(W.HostOf(fn, oracle), W.Br(0), wo.stack, wo.st);
      assert fo.stack == stack;
      JumpBack(fn, oracle, header, backedge, stack, fo.st);
    } else {
      PassLeft(fn, k, oracle, header, p, backedge, stack, fo, wo);
    }
  }

  /** A pass that does not reach the backedge by falling through. */
  lemma PassLeft(fn: M.Function, k: seq<Kinds>, oracle: M.Oracle, header: nat, p: nat, backedge: nat,
      stack: seq<M.Value>, fo: M.Outcome, wo: W.Outcome)
    requires |k| == |fn.insts| + 1 && header <= p <= backedge < |fn.insts| && !wo.Normal?
    requires Match(fn, k, LoopTargets(header, backedge + 1), backedge, stack, fo, wo)
    ensures PassMatch(fn, k, oracle, header, backedge + 1, stack,
      M.Resume(fn, oracle, header, backedge + 1, Lo(LoopTargets(header, backedge + 1), p), fo), wo)
  {
    hide M.Run, StatesMatch, M.Step;
    if wo.Branch? && wo.depth == 0 {
      assert M.Resume(fn, oracle, header, backedge + 1, Lo(LoopTargets(header, backedge + 1), p), fo)
          == Again(fn, oracle, header, backedge + 1, stack, fo.st);
    }
  }

  lemma JumpBack(fn: M.Function, oracle: M.Oracle, header: nat, backedge: nat, stack: seq<M.Value>, st: M.State)
    requires header <= backedge < |fn.insts| && fn.insts[backedge] == M.Jump(header)
    ensures M.Run(fn, oracle, header, backedge + 1, backedge, stack, st)
      == Again(fn, oracle, header, backedge + 1, stack, st)
  {
  }

  /** Everything the passes of a loop with a condition need to know about it. */
  ghost predicate WhileReady(fn: M.Function, k: seq<Kinds>, r: Region, e: nat) {
    && WellFormed(fn, k) && e <= |fn.insts| && IsRegion(fn, r.header, e, r) && r.exit < |fn.insts|
    && OutsideDiamond(fn, r.header) && OutsideDiamond(fn, r.cond + 1)
      && (r.tail < r.backedge ==> OutsideDiamond(fn, r.tail))
    && StaysAbove(fn, k, r.header, r.backedge, |k[r.header]|)
    && k[r.cond + 1] == k[r.exit] == k[r.backedge] == k[r.header] && |k[r.tail]| == |k[r.header]|
    && |k[r.cond]| == |k[r.header]| + 1 && k[r.cond][|k[r.header]|] == M.KI32
    && EmitRange(fn, NO_TARGETS, r.header, r.cond, k[r.header]).Ok?
    && EmitRange(fn, BodyTargets(r), r.cond + 1, r.tail, k[r.cond + 1]).Ok?
    && EmitRange(fn, LoopTargets(r.header, r.exit), r.tail, r.backedge, k[r.tail]).Ok?
  }

  lemma WhileIsReady(fn: M.Function, k: seq<Kinds>, r: Region, e: nat)
    requires WellFormed(fn, k) && e <= |fn.insts| && IsRegion(fn, r.header, e, r) && OutsideDiamond(fn, r.header)
    requires EmitWhile(fn, r, e, k[r.header]).Ok?
    ensures WhileReady(fn, k, r, e)
    ensures EmitWhile(fn, r, e, k[r.header]).code
      == WhileCode(EmitRange(fn, NO_TARGETS, r.header, r.cond, k[r.header]).code,
                   EmitRange(fn, BodyTargets(r), r.cond + 1, r.tail, k[r.cond + 1]).code,
                   EmitRange(fn, LoopTargets(r.header, r.exit), r.tail, r.backedge, k[r.tail]).code)
  {
    hide EmitRange, EmitWhile, DiamondsClosed;
    WhileTracks(fn, k, r, e);
    WhileParts(fn, r, e, k[r.header]);
    InstAt(fn, k, r.cond);
    InstAt(fn, k, r.backedge);
  }

  /** The code of a pass after its condition held, and the code of a whole pass. */
  function BodyPass(body: seq<W.Instr>, tail: seq<W.Instr>): seq<W.Instr> {
    [W.Block(body)] + (tail + [W.Br(0)])
  }

  function WholePass(cond: seq<W.Instr>, body: seq<W.Instr>, tail: seq<W.Instr>): seq<W.Instr> {
    cond + ([W.Numeric(0x45), W.BrIf(1)] + BodyPass(body, tail))
  }

  lemma BodyEntry(fn: M.Function, k: seq<Kinds>, r: Region, e: nat, stack: seq<M.Value>, st: M.State, w: W.State)
    requires WhileReady(fn, k, r, e) && M.KindsOf(stack) == k[r.header] && StatesMatch(fn, st, w)
    ensures |k| == |fn.insts| + 1 && r.header <= r.cond < r.cond + 1 < r.tail <= r.backedge < r.exit <= |fn.insts|
      && |k[r.tail]| == |stack|
    ensures Entry(fn, k, BodyTargets(r), r.cond + 1, r.tail, stack, stack, st, w)
      && Lo(BodyTargets(r), r.cond + 1) == r.cond + 1
    ensures stack[|stack|..] == [] && W.Expand(stack[|stack|..]) == []
    ensures StaysAbove(fn, k, r.tail, r.backedge, |stack|)
  {
    hide EmitRange, StatesMatch, InstOk;
  }

  /** How the body's block is left: at the start of the tail, or as the whole pass is left. */
  ghost predicate BodyIsLeft(fn: M.Function, k: seq<Kinds>, oracle: M.Oracle, r: Region, stack: seq<M.Value>,
      fo: M.Outcome, left: W.Outcome)
    requires |k| == |fn.insts| + 1 && r.exit <= |fn.insts| && r.tail <= |fn.insts|
  {
    if left.Normal? then
      left.stack == [] && fo.Exit? && fo.pc == r.tail && fo.stack == stack && M.KindsOf(stack) == k[r.tail]
        && StatesMatch(fn, fo.st, left.st)
    else PassMatch(fn, k, oracle, r.header, r.exit, stack, M.Resume(fn, oracle, r.header, r.exit, r.cond + 1, fo), left)
  }

  lemma BodyLeft(fn: M.Function, k: seq<Kinds>, oracle: M.Oracle, r: Region, stack: seq<M.Value>, fo: M.Outcome,
      wo: W.Outcome)
    requires |k| == |fn.insts| + 1 && r.header <= r.cond < r.cond + 1 < r.tail <= r.backedge < r.exit <= |fn.insts|
    requires |k[r.tail]| == |stack| && Match(fn, k, BodyTargets(r), r.tail, stack, fo, wo)
    ensures BodyIsLeft(fn, k, oracle, r, stack, fo, W.LeaveBlock(wo, 0, []))
  {
    hide M.Run, StatesMatch, EmitRange, WellFormed;
    if wo.Normal? {
      assert fo.stack == stack;
      assert W.Expand(stack[|stack|..]) == [];
    } else if wo.Branch? && wo.depth == 1 {
      assert r.tail == r.backedge && fo.pc == r.header && fo.stack == stack;
      assert M.Resume(fn, oracle, r.header, r.exit, r.cond + 1, fo)
        == Again(fn, oracle, r.header, r.exit, stack, fo.st);
    }
  }

  lemma BodyJoin(fn: M.Function, k: seq<Kinds>, oracle: M.Oracle, r: Region, body: seq<W.Instr>, tail: seq<W.Instr>,
      stack: seq<M.Value>, st: M.State, w: W.State)
    requires |k| == |fn.insts| + 1 && r.header <= r.cond < r.cond + 1 < r.tail <= r.backedge < r.exit <= |fn.insts|
    requires var fo := M.Run(fn, oracle, r.cond + 1, r.tail, r.cond + 1, stack, st);
      var left := W.LeaveBlock(W.Exec(W.HostOf(fn, oracle), body, [], w), 0, []);
      && BodyIsLeft(fn, k, oracle, r, stack, fo, left)
      && (left.Normal? ==>
        PassMatch(fn, k, oracle, r.header, r.exit, stack, M.Run(fn, oracle, r.header, r.exit, r.tail, stack, fo.st),
                                     W.Exec(W.HostOf(fn, oracle), tail + [W.Br(0)], [], left.st)))
    ensures PassMatch(fn, k, oracle, r.header, r.exit, stack,
      M.Run(fn, oracle, r.header, r.exit, r.cond + 1, stack, st),
                      W.Exec(W.HostOf(fn, oracle), BodyPass(body, tail), [], w))
  {
    M.RunSplits(fn, oracle, r.header, r.exit, r.cond + 1, r.tail, r.cond + 1, stack, st);
    W.ExecConcat(W.HostOf(fn, oracle), [W.Block(body)], tail + [W.Br(0)], [], w);
    ExecOne(W.HostOf(fn, oracle), W.Block(body), [], w);
  }

  lemma LoopTest(fn: M.Function, oracle: M.Oracle, r: Region, stack: seq<M.Value>, full: seq<M.Value>, st: M.State,
      ws: seq<W.Value>, w: W.State) returns (c: I32)
    requires r.header <= r.cond && r.cond + 1 < r.exit < |fn.insts| && fn.insts[r.cond] == M.JumpIfFalse(r.exit)
    requires stack <= full && |full| == |stack| + 1 && full[|stack|].MI32? && ws == W.Expand(full[|stack|..])
    ensures M.Run(fn, oracle, r.header, r.exit, r.cond, full, st)
      == if c == 0 then M.Exit(r.exit, stack, st) else M.Run(fn, oracle, r.header, r.exit, r.cond + 1, stack, st)
    ensures W.Exec(W.HostOf(fn, oracle), [W.Numeric(0x45), W.BrIf(1)], ws, w) == if c == 0 then W.Branch(1, [], w)
      else W.Normal([], w)
  {
    hide M.Step, M.Run, W.Exec, W.ExecInstr, EmitRange;
    var n := |stack|;
    c := full[n].i32;
    assert full == stack + [full[n]] && full[n..] == [] + [full[n]];
    ExpandPush([], full[n]);
    assert ws == [W.I32V(c)];
    BranchStep(fn, oracle, r.header, r.exit, r.cond, r.exit, full, stack, c, st);
    TestExec(W.HostOf(fn, oracle), c, w);
  }

  /** The loop is left when its condition is zero. */
  lemma TestExec(host: W.Host, c: I32, w: W.State)
    ensures W.Exec(host, [W.Numeric(0x45), W.BrIf(1)], [W.I32V(c)], w) == if c == 0 then W.Branch(1, [], w)
      else W.Normal([], w)
  {
    hide W.ExecCall, W.LeaveBlock, W.Binop;
    var flag := [W.I32V(if c == 0 then 1 else 0)];
    ExecTwo(host, W.Numeric(0x45), W.BrIf(1), [W.I32V(c)], w);
    UnopCorrect(host, 0x45, W.I32V(c), [], w);
    assert [] + [W.I32V(c)] == [W.I32V(c)] && [] + flag == flag;
    ExecOne(host, W.Numeric(0x45), [W.I32V(c)], w);
    assert flag[..0] == [];
  }

  /** A loop instruction is left by a branch to the block around it exactly when the flat loop reaches its exit. */
  ghost predicate LoopMatch(fn: M.Function, k: seq<Kinds>, exit: nat, stack: seq<M.Value>, fo: M.Outcome, wo: W.Outcome)
    requires |k| == |fn.insts| + 1
  {
    match wo
    case Branch(depth, _, w) => depth == 0 && fo.Exit? && fo.pc == exit && fo.stack == stack
      && StatesMatch(fn, fo.st, w)
    case Normal(_, _) => false
    case _ => Match(fn, k, NO_TARGETS, exit, stack, fo, wo)
  }

  /** The state in which the flat run is back at the header after a pass that branches there. */
  lemma JumpsBackTo(fn: M.Function, k: seq<Kinds>, oracle: M.Oracle, header: nat, exit: nat, stack: seq<M.Value>,
      st: M.State, fo: M.Outcome, wo: W.Outcome) returns (back: M.State)
    requires |k| == |fn.insts| + 1 && exit <= |fn.insts| && PassMatch(fn, k, oracle, header, exit, stack, fo, wo)
    ensures wo.Branch? && wo.depth == 0 ==>
      && StatesMatch(fn, back, wo.st) && back.fuel == wo.st.fuel && fo == Again(fn, oracle, header, exit, stack, back)
      && (back.fuel > 0 ==> StatesMatch(fn, back.(fuel := back.fuel - 1), wo.st.(fuel := wo.st.fuel - 1)))
  {
    hide Held, M.Run, EmitRange;
    back := st;
    if wo.Branch? && wo.depth == 0 {
      back :| StatesMatch(fn, back, wo.st) && fo == Again(fn, oracle, header, exit, stack, back);
      if back.fuel > 0 {
        HeldWithFuel(fn, back.locals, wo.st, back.fuel - 1);
      }
    }
  }

  /** One turn of a loop instruction: a pass, and all further turns if the pass jumps back. */
  lemma LoopTurn(fn: M.Function, k: seq<Kinds>, oracle: M.Oracle, header: nat, exit: nat, pass: seq<W.Instr>,
      stack: seq<M.Value>, fo: M.Outcome, back: M.State, w: W.State)
    requires |k| == |fn.insts| + 1 && exit <= |fn.insts|
    requires var wo := W.Exec(W.HostOf(fn, oracle), pass, [], w);
      && PassMatch(fn, k, oracle, header, exit, stack, fo, wo)
      && (wo.Branch? && wo.depth == 0 ==>
            && StatesMatch(fn, back, wo.st) && fo == Again(fn, oracle, header, exit, stack, back)
            && (back.fuel > 0 ==> LoopMatch(fn, k, exit, stack,
              M.Run(fn, oracle, header, exit, header, stack, back.(fuel := back.fuel - 1)),
                                            W.ExecInstr(W.HostOf(fn, oracle), W.Loop(pass), [],
                                              wo.st.(fuel := wo.st.fuel - 1)))))
    ensures LoopMatch(fn, k, exit, stack, fo, W.ExecInstr(W.HostOf(fn, oracle), W.Loop(pass), [], w))
  {
    hide M.Step, M.Run, W.ExecNumeric, W.ExecCall, EmitRange, Held;
  }

  /** The block around a loop: leaving the loop is falling out of the block. */
  lemma LoopBlock(fn: M.Function, k: seq<Kinds>, oracle: M.Oracle, t: Targets, exit: nat, pass: seq<W.Instr>,
      base: seq<M.Value>, stack: seq<M.Value>, fo: M.Outcome, w: W.State)
    requires |k| == |fn.insts| + 1 && exit <= |fn.insts| && base <= stack && M.KindsOf(stack) == k[exit]
    requires LoopMatch(fn, k, exit, stack, fo, W.ExecInstr(W.HostOf(fn, oracle), W.Loop(pass), [], w))
    ensures Match(fn, k, t, exit, base, fo,
      W.Exec(W.HostOf(fn, oracle), [W.Block([W.Loop(pass)])], W.Expand(stack[|base|..]), w))
  {
    var ws := W.Expand(stack[|base|..]);
    ExecOne(W.HostOf(fn, oracle), W.Block([W.Loop(pass)]), ws, w);
    ExecOne(W.HostOf(fn, oracle), W.Loop(pass), [], w);
    assert forall xs: seq<W.Value> :: ws + xs[|xs|..] == ws;
  }
}
