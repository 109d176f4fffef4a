/**
 * Structuring preserves meaning. For every well-formed function, every range of it that is
 * emitted successfully, and every state, the emitted structured code and the flat machine do the
 * same: they leave the range at the same program counter, return the same value, trap, or run out
 * of the same budget of backward jumps, with the same operands, locals and calls made.
 */
module Simulation {
  import opened Words
  import M = Mir
  import W = Wasm
  import opened StackMap
  import opened Emitter
  import opened Tracking
  import opened Slots
  import opened FrameSlots
  import opened Straightline
  import opened Matching
  import opened Loops
  import opened Branches

  lemma {:induction false} RangeSim(fn: M.Function, k: seq<Kinds>, oracle: M.Oracle, t: Targets, s: nat, e: nat,
      base: seq<M.Value>, stack: seq<M.Value>, st: M.State, w: W.State)
    requires Entry(fn, k, t, s, e, base, stack, st, w) && EmitRange(fn, t, s, e, k[s]).Ok?
    ensures Match(fn, k, t, e, base, M.Run(fn, oracle, Lo(t, s), e, s, stack, st),
                  W.Exec(W.HostOf(fn, oracle), EmitRange(fn, t, s, e, k[s]).code, W.Expand(stack[|base|..]), w))
    decreases e - s, st.fuel, 8
  {
    hide M.Step, W.ExecInstr, EmitConstruct, StatesMatch, InstOk;
    if s < e {
      var c := EmitConstruct(fn, t, s, e, k[s]);
      ConstructTracks(fn, k, t, s, e);
      ConstructSim(fn, k, oracle, t, s, e, base, stack, st, w);
      var fo := M.Run(fn, oracle, Lo(t, s), c.pc, s, stack, st);
      var wo := W.Exec(W.HostOf(fn, oracle), c.code, W.Expand(stack[|base|..]), w);
      var rest := EmitRange(fn, t, c.pc, e, c.stack);
      if wo.Normal? {
        RangeSim(fn, k, oracle, t, c.pc, e, base, fo.stack, fo.st, wo.st);
      }
      JoinRanges(fn, k, oracle, t, s, c.pc, e, base, c.code, rest.code, stack, st, w);
    }
  }

  lemma {:induction false} ConstructSim(fn: M.Function, k: seq<Kinds>, oracle: M.Oracle, t: Targets, s: nat, e: nat,
      base: seq<M.Value>, stack: seq<M.Value>, st: M.State, w: W.State)
    requires Entry(fn, k, t, s, e, base, stack, st, w) && s < e && EmitConstruct(fn, t, s, e, k[s]).Next?
    ensures ConstructMatch(fn, k, oracle, t, s, EmitConstruct(fn, t, s, e, k[s]), base, stack, st, w)
    decreases e - s, st.fuel, 7
  {
    match KindAt(fn, t, s, e)
    case AWhile(_) => WhileCase(fn, k, oracle, t, s, e, base, stack, st, w);
    case AForever(_) => ForeverCase(fn, k, oracle, t, s, e, base, stack, st, w);
    case ABranch => BranchSim(fn, k, oracle, t, s, e, base, stack, st, w);
    case ALeaf => LeafCase(fn, k, oracle, t, s, e, base, stack, st, w);
  }

  lemma MapLength(fn: M.Function, k: seq<Kinds>)
    requires WellFormed(fn, k)
    ensures |k| == |fn.insts| + 1
  {
  }

  lemma {:induction false} WhileCase(fn: M.Function, k: seq<Kinds>, oracle: M.Oracle, t: Targets, s: nat, e: nat,
      base: seq<M.Value>, stack: seq<M.Value>, st: M.State, w: W.State)
    requires Entry(fn, k, t, s, e, base, stack, st, w) && s < e && EmitConstruct(fn, t, s, e, k[s]).Next?
      && KindAt(fn, t, s, e).AWhile?
    ensures ConstructMatch(fn, k, oracle, t, s, EmitConstruct(fn, t, s, e, k[s]), base, stack, st, w)
    decreases e - s, st.fuel, 6
  {
    hide M.Run, W.Exec, EmitRange, EmitBranch, EmitWhile, EmitForever, EmitLeaf, WellFormed, StatesMatch, Match,
      KindAt, StaysAbove,
      TargetsFit, OutsideDiamond;
    MapLength(fn, k);
    var r := KindAt(fn, t, s, e).region;
    WhileSim(fn, k, oracle, t, r, e, base, stack, st, w);
    assert EmitConstruct(fn, t, s, e, k[s]) == At(EmitWhile(fn, r, e, k[s]), r.exit);
  }

  lemma {:induction false} ForeverCase(fn: M.Function, k: seq<Kinds>, oracle: M.Oracle, t: Targets, s: nat, e: nat,
      base: seq<M.Value>, stack: seq<M.Value>, st: M.State, w: W.State)
    requires Entry(fn, k, t, s, e, base, stack, st, w) && s < e && EmitConstruct(fn, t, s, e, k[s]).Next?
      && KindAt(fn, t, s, e).AForever?
    ensures ConstructMatch(fn, k, oracle, t, s, EmitConstruct(fn, t, s, e, k[s]), base, stack, st, w)
    decreases e - s, st.fuel, 6
  {
    hide M.Run, W.Exec, EmitRange, EmitBranch, EmitWhile, EmitForever, EmitLeaf, WellFormed, StatesMatch, Match,
      KindAt, StaysAbove,
      TargetsFit, OutsideDiamond;
    MapLength(fn, k);
    var b := KindAt(fn, t, s, e).backedge;
    ForeverSim(fn, k, oracle, t, s, b, e, base, stack, st, w);
    assert EmitConstruct(fn, t, s, e, k[s]) == At(EmitForever(fn, s, b, k[s]), b + 1);
  }

  lemma {:induction false} LeafCase(fn: M.Function, k: seq<Kinds>, oracle: M.Oracle, t: Targets, s: nat, e: nat,
      base: seq<M.Value>, stack: seq<M.Value>, st: M.State, w: W.State)
    requires Entry(fn, k, t, s, e, base, stack, st, w) && s < e && EmitConstruct(fn, t, s, e, k[s]).Next?
      && KindAt(fn, t, s, e).ALeaf?
    ensures ConstructMatch(fn, k, oracle, t, s, EmitConstruct(fn, t, s, e, k[s]), base, stack, st, w)
    decreases e - s, st.fuel, 6
  {
    hide M.Run, W.Exec, EmitRange, EmitBranch, EmitWhile, EmitForever, EmitLeaf, WellFormed, StatesMatch, Match,
      KindAt, StaysAbove,
      TargetsFit, OutsideDiamond;
    MapLength(fn, k);
    LeafSim(fn, k, oracle, t, s, e, base, stack, st, w);
    assert EmitConstruct(fn, t, s, e, k[s]) == At(EmitLeaf(fn, t, fn.insts[s], k[s]), s + 1);
  }

  /** The end of a pass: the code of [p, backedge) and the branch back to the header. */
  lemma {:induction false} TailSim(fn: M.Function, k: seq<Kinds>, oracle: M.Oracle, header: nat, p: nat, backedge: nat,
      stack: seq<M.Value>, st: M.State, w: W.State)
    requires WellFormed(fn, k) && header <= p <= backedge < |fn.insts| && fn.insts[backedge] == M.Jump(header)
    requires p < backedge ==> OutsideDiamond(fn, p)
    requires StaysAbove(fn, k, p, backedge, |stack|) && M.KindsOf(stack) == k[p] && StatesMatch(fn, st, w)
    requires k[backedge] == k[p] == k[header] && |k[backedge + 1]| == |stack|
    requires EmitRange(fn, LoopTargets(header, backedge + 1), p, backedge, k[p]).Ok?
    ensures PassMatch(fn, k, oracle, header, backedge + 1, stack, M.Run(fn, oracle, header, backedge + 1, p, stack, st),
                      W.Exec(W.HostOf(fn, oracle),
                        EmitRange(fn, LoopTargets(header, backedge + 1), p, backedge, k[p]).code + [W.Br(0)], [], w))
    decreases backedge - p, st.fuel, 9
  {
    var t := LoopTargets(header, backedge + 1);
    assert stack[|stack|..] == [];
    RangeSim(fn, k, oracle, t, p, backedge, stack, stack, st, w);
    TailJoin(fn, k, oracle, header, p, backedge, EmitRange(fn, t, p, backedge, k[p]).code, stack, st, w);
  }

  lemma {:induction false} BodySim(fn: M.Function, k: seq<Kinds>, oracle: M.Oracle, r: Region, e: nat,
      stack: seq<M.Value>, st: M.State, w: W.State)
    requires WhileReady(fn, k, r, e) && M.KindsOf(stack) == k[r.header] && StatesMatch(fn, st, w)
    ensures PassMatch(fn, k, oracle, r.header, r.exit, stack,
      M.Run(fn, oracle, r.header, r.exit, r.cond + 1, stack, st),
                      W.Exec(W.HostOf(fn, oracle),
                        BodyPass(EmitRange(fn, BodyTargets(r), r.cond + 1, r.tail, k[r.cond + 1]).code,
                                                       EmitRange(fn, LoopTargets(r.header, r.exit), r.tail, r.backedge,
                                                         k[r.tail]).code), [], w))
    decreases r.exit - r.header, st.fuel, 1
  {
    hide M.Step, M.Run, W.ExecInstr, W.Exec, EmitConstruct, EmitRange, Match, PassMatch, StatesMatch;
    BodyEntry(fn, k, r, e, stack, st, w);
    var body := EmitRange(fn, BodyTargets(r), r.cond + 1, r.tail, k[r.cond + 1]).code;
    var tail := EmitRange(fn, LoopTargets(r.header, r.exit), r.tail, r.backedge, k[r.tail]).code;
    RangeSim(fn, k, oracle, BodyTargets(r), r.cond + 1, r.tail, stack, stack, st, w);
    var fo := M.Run(fn, oracle, r.cond + 1, r.tail, r.cond + 1, stack, st);
    var wo := W.Exec(W.HostOf(fn, oracle), body, [], w);
    BodyLeft(fn, k, oracle, r, stack, fo, wo);
    var left := W.LeaveBlock(wo, 0, []);
    if left.Normal? {
      TailSim(fn, k, oracle, r.header, r.tail, r.backedge, stack, fo.st, left.st);
    }
    BodyJoin(fn, k, oracle, r, body, tail, stack, st, w);
  }

  /** A whole pass: the condition, and the rest of the pass when it holds. */
  lemma {:induction false} PassSim(fn: M.Function, k: seq<Kinds>, oracle: M.Oracle, r: Region, e: nat,
      stack: seq<M.Value>, st: M.State, w: W.State)
    requires WhileReady(fn, k, r, e) && M.KindsOf(stack) == k[r.header] && StatesMatch(fn, st, w)
    ensures PassMatch(fn, k, oracle, r.header, r.exit, stack, M.Run(fn, oracle, r.header, r.exit, r.header, stack, st),
                      W.Exec(W.HostOf(fn, oracle),
                        WholePass(EmitRange(fn, NO_TARGETS, r.header, r.cond, k[r.header]).code,
                                                        EmitRange(fn, BodyTargets(r), r.cond + 1, r.tail,
                                                          k[r.cond + 1]).code,
                                                        EmitRange(fn, LoopTargets(r.header, r.exit), r.tail,
                                                          r.backedge, k[r.tail]).code), [], w))
    decreases r.exit - r.header, st.fuel, 2
  {
    hide M.Step, W.ExecInstr, EmitRange, EmitConstruct, Held, InstOk;
    var cond := EmitRange(fn, NO_TARGETS, r.header, r.cond, k[r.header]).code;
    var rest := BodyPass(EmitRange(fn, BodyTargets(r), r.cond + 1, r.tail, k[r.cond + 1]).code,
                         EmitRange(fn, LoopTargets(r.header, r.exit), r.tail, r.backedge, k[r.tail]).code);
    var test := [W.Numeric(0x45), W.BrIf(1)];
    assert stack[|stack|..] == [];
    RangeSim(fn, k, oracle, NO_TARGETS, r.header, r.cond, stack, stack, st, w);
    var fo := M.Run(fn, oracle, r.header, r.cond, r.header, stack, st);
    var wo := W.Exec(W.HostOf(fn, oracle), cond, [], w);
    M.RunSplits(fn, oracle, r.header, r.exit, r.header, r.cond, r.header, stack, st);
    W.ExecConcat(W.HostOf(fn, oracle), cond, test + rest, [], w);
    if wo.Normal? {
      assert M.KindOf(fo.stack[|stack|]) == M.KI32;
      var c := LoopTest(fn, oracle, r, stack, fo.stack, fo.st, wo.stack, wo.st);
      W.ExecConcat(W.HostOf(fn, oracle), test, rest, wo.stack, wo.st);
      if c != 0 {
        BodySim(fn, k, oracle, r, e, stack, fo.st, wo.st);
      }
    }
  }

  lemma {:induction false} WhileLoopSim(fn: M.Function, k: seq<Kinds>, oracle: M.Oracle, r: Region, e: nat,
      pass: seq<W.Instr>, stack: seq<M.Value>, st: M.State, w: W.State)
    requires WhileReady(fn, k, r, e) && M.KindsOf(stack) == k[r.header] && StatesMatch(fn, st, w)
    requires pass == WholePass(EmitRange(fn, NO_TARGETS, r.header, r.cond, k[r.header]).code,
                               EmitRange(fn, BodyTargets(r), r.cond + 1, r.tail, k[r.cond + 1]).code,
                               EmitRange(fn, LoopTargets(r.header, r.exit), r.tail, r.backedge, k[r.tail]).code)
    ensures LoopMatch(fn, k, r.exit, stack, M.Run(fn, oracle, r.header, r.exit, r.header, stack, st),
                      W.ExecInstr(W.HostOf(fn, oracle), W.Loop(pass), [], w))
    decreases r.exit - r.header, st.fuel, 3
  {
    hide M.Step, M.Run, W.ExecInstr, W.Exec, EmitRange, EmitConstruct, Held, PassMatch, LoopMatch, Again;
    PassSim(fn, k, oracle, r, e, stack, st, w);
    var wo := W.Exec(W.HostOf(fn, oracle), pass, [], w);
    var fo := M.Run(fn, oracle, r.header, r.exit, r.header, stack, st);
    var back := JumpsBackTo(fn, k, oracle, r.header, r.exit, stack, st, fo, wo);
    if wo.Branch? && wo.depth == 0 {
      if back.fuel > 0 {
        WhileLoopSim(fn, k, oracle, r, e, pass, stack, back.(fuel := back.fuel - 1), wo.st.(fuel := wo.st.fuel - 1));
      }
    }
    LoopTurn(fn, k, oracle, r.header, r.exit, pass, stack, fo, back, w);
  }

  lemma {:induction false} WhileSim(fn: M.Function, k: seq<Kinds>, oracle: M.Oracle, t: Targets, r: Region, e: nat,
      base: seq<M.Value>, stack: seq<M.Value>, st: M.State, w: W.State)
    requires Entry(fn, k, t, r.header, e, base, stack, st, w) && IsRegion(fn, r.header, e, r)
      && EmitWhile(fn, r, e, k[r.header]).Ok?
    requires !(t.continue_.Some? && t.continue_.value.pc == r.header)
    ensures Match(fn, k, t, r.exit, base, M.Run(fn, oracle, Lo(t, r.header), r.exit, r.header, stack, st),
                  W.Exec(W.HostOf(fn, oracle), EmitWhile(fn, r, e, k[r.header]).code, W.Expand(stack[|base|..]), w))
    decreases e - r.header, st.fuel, 4
  {
    hide M.Run, W.Exec, W.ExecInstr, EmitRange, EmitConstruct, StatesMatch, Match, LoopMatch, InstOk;
    WhileIsReady(fn, k, r, e);
    var cond := EmitRange(fn, NO_TARGETS, r.header, r.cond, k[r.header]).code;
    var body := EmitRange(fn, BodyTargets(r), r.cond + 1, r.tail, k[r.cond + 1]).code;
    var tail := EmitRange(fn, LoopTargets(r.header, r.exit), r.tail, r.backedge, k[r.tail]).code;
    var pass := WholePass(cond, body, tail);
    assert WhileCode(cond, body, tail) == [W.Block([W.Loop(pass)])] by {
      assert cond + [W.Numeric(0x45), W.BrIf(1)] + [W.Block(body)] + tail + [W.Br(0)] == pass;
    }
    WhileLoopSim(fn, k, oracle, r, e, pass, stack, st, w);
    LoopBlock(fn, k, oracle, t, r.exit, pass, base, stack, M.Run(fn, oracle, r.header, r.exit, r.header, stack, st), w);
  }

  lemma SameFuel(fn: M.Function, st: M.State, w: W.State)
    requires StatesMatch(fn, st, w)
    ensures st.fuel == w.fuel
  {
  }

  lemma {:induction false} ForeverLoopSim(fn: M.Function, k: seq<Kinds>, oracle: M.Oracle, header: nat, backedge: nat,
      pass: seq<W.Instr>, stack: seq<M.Value>, st: M.State, w: W.State)
    requires WellFormed(fn, k) && header < backedge < |fn.insts| && fn.insts[backedge] == M.Jump(header)
      && OutsideDiamond(fn, header)
    requires StaysAbove(fn, k, header, backedge, |stack|) && M.KindsOf(stack) == k[header] && StatesMatch(fn, st, w)
    requires k[backedge] == k[header] && |k[backedge + 1]| == |stack|
    requires EmitRange(fn, LoopTargets(header, backedge + 1), header, backedge, k[header]).Ok?
    requires pass == EmitRange(fn, LoopTargets(header, backedge + 1), header, backedge, k[header]).code + [W.Br(0)]
    ensures LoopMatch(fn, k, backedge + 1, stack, M.Run(fn, oracle, header, backedge + 1, header, stack, st),
                      W.ExecInstr(W.HostOf(fn, oracle), W.Loop(pass), [], w))
    decreases backedge + 1 - header, st.fuel, 3
  {
    hide M.Step, M.Run, W.ExecInstr, W.Exec, EmitRange, WellFormed, StatesMatch, PassMatch, LoopMatch, Again,
      StaysAbove, OutsideDiamond,
      LoopTargets, EmitConstruct;
    MapLength(fn, k);
    SameFuel(fn, st, w);
    TailSim(fn, k, oracle, header, header, backedge, stack, st, w);
    var exit := backedge + 1;
    var wo := W.Exec(W.HostOf(fn, oracle), pass, [], w);
    var fo := M.Run(fn, oracle, header, exit, header, stack, st);
    var back := JumpsBackTo(fn, k, oracle, header, exit, stack, st, fo, wo);
    if wo.Branch? && wo.depth == 0 {
      if back.fuel > 0 {
        ForeverLoopSim(fn, k, oracle, header, backedge, pass, stack, back.(fuel := back.fuel - 1),
          wo.st.(fuel := wo.st.fuel - 1));
      }
    }
    LoopTurn(fn, k, oracle, header, exit, pass, stack, fo, back, w);
  }

  lemma {:induction false} ForeverSim(fn: M.Function, k: seq<Kinds>, oracle: M.Oracle, t: Targets, s: nat,
      backedge: nat, e: nat, base: seq<M.Value>, stack: seq<M.Value>, st: M.State, w: W.State)
    requires Entry(fn, k, t, s, e, base, stack, st, w) && s < backedge < e && fn.insts[backedge] == M.Jump(s)
      && EmitForever(fn, s, backedge, k[s]).Ok?
    requires !(t.continue_.Some? && t.continue_.value.pc == s) && FindLoop(fn, s, e).None?
    ensures Match(fn, k, t, backedge + 1, base, M.Run(fn, oracle, Lo(t, s), backedge + 1, s, stack, st),
                  W.Exec(W.HostOf(fn, oracle), EmitForever(fn, s, backedge, k[s]).code, W.Expand(stack[|base|..]), w))
    decreases e - s, st.fuel, 4
  {
    hide M.Run, W.Exec, W.ExecInstr, EmitConstruct, StatesMatch, Match, LoopMatch;
    ForeverTracks(fn, k, s, backedge, e);
    InstAt(fn, k, backedge);
    var pass := EmitRange(fn, LoopTargets(s, backedge + 1), s, backedge, k[s]).code + [W.Br(0)];
    ForeverLoopSim(fn, k, oracle, s, backedge, pass, stack, st, w);
    LoopBlock(fn, k, oracle, t, backedge + 1, pass, base, stack, M.Run(fn, oracle, s, backedge + 1, s, stack, st), w);
  }

  // ---- conditional branches ---------------------------------------------------------------

  lemma {:induction false} BranchSim(fn: M.Function, k: seq<Kinds>, oracle: M.Oracle, t: Targets, s: nat, e: nat,
      base: seq<M.Value>, stack: seq<M.Value>, st: M.State, w: W.State)
    requires Entry(fn, k, t, s, e, base, stack, st, w) && s < e && fn.insts[s].JumpIfFalse?
      && EmitBranch(fn, t, s, e, k[s]).Next?
    ensures ConstructMatch(fn, k, oracle, t, s, EmitBranch(fn, t, s, e, k[s]), base, stack, st, w)
    decreases e - s, st.fuel, 6
  {
    hide M.Step, M.Run, W.Exec, W.ExecInstr, EmitRange, Match, StatesMatch;
    InstAt(fn, k, s);
    BranchParts(fn, t, s, e, k[s]);
    var ft := fn.insts[s].dest;
    if OrShape(fn, s, e).Some? {
      OrCase(fn, k, oracle, t, s, e, base, stack, st, w);
    } else if AndShape(fn, s, e).Some? {
      AndCase(fn, k, oracle, t, s, e, base, stack, st, w);
    } else {
      if IsTruthArm(fn, s + 2) {
        DiamondIsNotAnIf(fn, k, t, s, e);
        assert false;
      }
      match ShapeOfBranch(fn, t, ft, e)
      case OnlyThen => IfSim(fn, k, oracle, t, s, ft, e, base, stack, st, w);
      case ThenElse(merge) => IfElseSim(fn, k, oracle, t, s, ft, merge, e, base, stack, st, w);
    }
  }

  lemma {:induction false} IfSim(fn: M.Function, k: seq<Kinds>, oracle: M.Oracle, t: Targets, s: nat, ft: nat, e: nat,
      base: seq<M.Value>, stack: seq<M.Value>, st: M.State, w: W.State)
    requires Entry(fn, k, t, s, e, base, stack, st, w) && s + 1 < ft <= e && fn.insts[s] == M.JumpIfFalse(ft)
    requires !IsTruthArm(fn, s + 2) && EmitIf(fn, t, s, ft, k[s + 1]).Ok?
    ensures Match(fn, k, t, ft, base, M.Run(fn, oracle, Lo(t, s), ft, s, stack, st),
                  W.Exec(W.HostOf(fn, oracle), EmitIf(fn, t, s, ft, k[s + 1]).code, W.Expand(stack[|base|..]), w))
    decreases e - s, st.fuel, 5
  {
    hide M.Step, M.Run, W.Exec, W.ExecInstr, EmitRange, EmitConstruct, WellFormed, StatesMatch, Match, Entry,
      StaysAbove;
    var rest, c := BranchEntry(fn, k, t, s, ft, e, base, stack, st, w);
    BranchStep(fn, oracle, Lo(t, s), ft, s, ft, stack, rest, c, st);
    var thn := EmitRange(fn, Nest(t), s + 1, ft, k[s + 1]).code;
    IfStep(W.HostOf(fn, oracle), thn, W.Expand(rest[|base|..]), c, w);
    if c != 0 {
      ArmEntry(fn, k, t, s, e, s + 1, ft, |base|, rest, st, w);
      RangeSim(fn, k, oracle, Nest(t), s + 1, ft, rest, rest, st, w);
      var inner := W.Exec(W.HostOf(fn, oracle), thn, [], w);
      ArmRun(fn, k, oracle, t, Lo(t, s), s, s + 1, ft, ft, rest, st, inner);
      LeaveArm(fn, k, t, s, e, ft, base, rest, M.Run(fn, oracle, s + 1, ft, s + 1, rest, st), inner);
    } else {
      SkipArm(fn, k, t, ft, base, rest, st, w);
    }
  }

  lemma {:induction false} IfElseSim(fn: M.Function, k: seq<Kinds>, oracle: M.Oracle, t: Targets, s: nat, ft: nat,
      merge: nat, e: nat, base: seq<M.Value>, stack: seq<M.Value>, st: M.State, w: W.State)
    requires Entry(fn, k, t, s, e, base, stack, st, w) && s + 1 < ft < merge <= e && fn.insts[s] == M.JumpIfFalse(ft)
      && fn.insts[ft - 1] == M.Jump(merge)
    requires !IsTruthArm(fn, s + 2) && EmitIfElse(fn, t, s, ft, merge, k[s + 1]).Ok?
    ensures Match(fn, k, t, merge, base, M.Run(fn, oracle, Lo(t, s), merge, s, stack, st),
                  W.Exec(W.HostOf(fn, oracle), EmitIfElse(fn, t, s, ft, merge, k[s + 1]).code,
                    W.Expand(stack[|base|..]), w))
    decreases e - s, st.fuel, 5
  {
    hide M.Step, M.Run, W.Exec, W.ExecInstr, EmitRange, EmitConstruct, WellFormed, StatesMatch, Match, Entry,
      StaysAbove;
    var rest, c := BranchEntry(fn, k, t, s, ft, e, base, stack, st, w);
    ElseEntry(fn, k, ft - 1, merge, |k[ft]|);
    IfElseTracks(fn, k, t, s, ft, merge);
    BranchStep(fn, oracle, Lo(t, s), merge, s, ft, stack, rest, c, st);
    var thn := EmitRange(fn, Nest(t), s + 1, ft - 1, k[s + 1]).code;
    var els := EmitRange(fn, Nest(t), ft, merge, k[ft]).code;
    IfElseStep(W.HostOf(fn, oracle), None, thn, els, W.Expand(rest[|base|..]), c, w);
    if c != 0 {
      ThenArm(fn, k, oracle, t, s, ft, merge, e, base, rest, st, w);
    } else {
      ArmEntry(fn, k, t, s, e, ft, merge, |base|, rest, st, w);
      RangeSim(fn, k, oracle, Nest(t), ft, merge, rest, rest, st, w);
      var inner := W.Exec(W.HostOf(fn, oracle), els, [], w);
      ArmRun(fn, k, oracle, t, Lo(t, s), s, ft, merge, merge, rest, st, inner);
      LeaveArm(fn, k, t, s, e, merge, base, rest, M.Run(fn, oracle, ft, merge, ft, rest, st), inner);
    }
  }

  /** What holds of a range holds of a shorter one, above more operands. */
  lemma Narrower(fn: M.Function, k: seq<Kinds>, t: Targets, s: nat, merge: nat, e: nat, low: nat, high: nat, ft: nat)
    requires |k| == |fn.insts| + 1 && s + 1 < ft < merge <= e && low <= high
    requires TargetsFit(fn, k, t, s, e, low) && StaysAbove(fn, k, s + 1, ft, high)
    ensures TargetsFit(fn, k, t, s, merge, high) && StaysAbove(fn, k, s + 1, ft - 1, high)
  {
  }

  /** The arm that ends in the jump over the other arm. */
  lemma {:induction false} ThenArm(fn: M.Function, k: seq<Kinds>, oracle: M.Oracle, t: Targets, s: nat, ft: nat,
      merge: nat, e: nat, base: seq<M.Value>, rest: seq<M.Value>, st: M.State, w: W.State)
    requires WellFormed(fn, k) && s + 1 < ft < merge <= e <= |fn.insts| && fn.insts[ft - 1] == M.Jump(merge)
      && TargetsFit(fn, k, t, s, e, |base|)
    requires OutsideDiamond(fn, s + 1) && StaysAbove(fn, k, s + 1, ft, |rest|) && base <= rest
      && M.KindsOf(rest) == k[s + 1] && StatesMatch(fn, st, w)
    requires k[ft - 1] == k[s + 1] == k[merge] && EmitRange(fn, Nest(t), s + 1, ft - 1, k[s + 1]).Ok?
      && merge < |fn.insts|
    ensures Match(fn, k, t, merge, base, M.Run(fn, oracle, Lo(t, s), merge, s + 1, rest, st),
                  W.LeaveBlock(W.Exec(W.HostOf(fn, oracle), EmitRange(fn, Nest(t), s + 1, ft - 1, k[s + 1]).code, [],
                    w), 0, W.Expand(rest[|base|..])))
    decreases e - s, st.fuel, 4
  {
    hide M.Step, M.Run, W.Exec, W.ExecInstr, EmitRange, StatesMatch, InstOk, DiamondsClosed, StaysAbove,
      OutsideDiamond, TargetsFit, W.Expand, W.LeaveBlock;
    Narrower(fn, k, t, s, merge, e, |base|, |rest|, ft);
    ArmEntry(fn, k, t, s, e, s + 1, ft - 1, |base|, rest, st, w);
    RangeSim(fn, k, oracle, Nest(t), s + 1, ft - 1, rest, rest, st, w);
    var inner := W.Exec(W.HostOf(fn, oracle), EmitRange(fn, Nest(t), s + 1, ft - 1, k[s + 1]).code, [], w);
    var fo := M.Run(fn, oracle, s + 1, ft - 1, s + 1, rest, st);
    ArmRun(fn, k, oracle, t, Lo(t, s), s, s + 1, ft - 1, merge, rest, st, inner);
    LeaveArm(fn, k, t, s, e, ft - 1, base, rest, fo, inner);
    if inner.Normal? {
      JumpOut(fn, oracle, Lo(t, s), ft - 1, merge, fo.stack, fo.st);
    }
  }

  // ---- boolean expressions ------------------------------------------------------------------

  lemma {:induction false} OrCase(fn: M.Function, k: seq<Kinds>, oracle: M.Oracle, t: Targets, s: nat, e: nat,
      base: seq<M.Value>, stack: seq<M.Value>, st: M.State, w: W.State)
    requires Entry(fn, k, t, s, e, base, stack, st, w) && s < e && fn.insts[s].JumpIfFalse?
      && EmitBranch(fn, t, s, e, k[s]).Next? && OrShape(fn, s, e).Some?
    ensures ConstructMatch(fn, k, oracle, t, s, EmitBranch(fn, t, s, e, k[s]), base, stack, st, w)
    decreases e - s, st.fuel, 5
  {
    hide M.Step, M.Run, W.Exec, W.ExecInstr, EmitRange, EmitConstruct, EmitOr, StatesMatch, Match, StaysAbove, Entry,
      WellFormed;
    var rest, c := BranchEntry(fn, k, t, s, s + 3, e, base, stack, st, w);
    var merge := OrShape(fn, s, e).value.mergeTarget;
    OrEntry(fn, k, t, s, e, base, rest);
    BranchParts(fn, t, s, e, k[s]);
    OrSim(fn, k, oracle, t, s, Lo(t, s), s, merge, base, rest, c, stack, st, w);
    Settled(fn, k, t, merge, base, M.Run(fn, oracle, Lo(t, s), merge, s, stack, st),
            W.Exec(W.HostOf(fn, oracle), EmitOr(fn, t, s + 3, merge, k[s + 1]).code, W.Expand(stack[|base|..]), w));
  }

  /** An operand of an `or` chain has been evaluated; the rest of the chain follows if it is false. */
  lemma {:induction false} OrSim(fn: M.Function, k: seq<Kinds>, oracle: M.Oracle, t: Targets, o: nat, lo: nat, s: nat,
      merge: nat,
                                 base: seq<M.Value>, rest: seq<M.Value>, c: I32, stack: seq<M.Value>, st: M.State,
                                   w: W.State)
    requires BoolRegion(fn, k, t, o, merge, base, rest) && o <= s && lo <= s + 1 && s + 3 < merge
    requires fn.insts[s] == M.JumpIfFalse(s + 3) && IsTruthArm(fn, s + 2) && fn.insts[s + 2] == M.Jump(merge)
    requires Tested(stack, rest, c) && M.KindsOf(rest) == k[s + 1] && StatesMatch(fn, st, w)
      && EmitOr(fn, t, s + 3, merge, k[s + 1]).Ok?
    ensures Match(fn, k, NO_TARGETS, merge, base, M.Run(fn, oracle, lo, merge, s, stack, st),
                  W.Exec(W.HostOf(fn, oracle), EmitOr(fn, t, s + 3, merge, k[s + 1]).code, W.Expand(stack[|base|..]),
                    w))
    decreases merge - s, st.fuel, 4
  {
    hide M.Step, M.Run, W.Exec, W.ExecInstr, EmitRange, EmitConstruct, EmitOr, EmitOrRange, StatesMatch, Match,
      StaysAbove, WellFormed, OrShape, JumpsClosed;
    DiamondKinds(fn, k, s, merge);
    ElseEntry(fn, k, s + 2, merge, |rest|);
    OrParts(fn, t, s + 3, merge, k[s + 1]);
    var els := EmitOrRange(fn, t, s + 3, merge, k[s + 1]).code;
    TestedOuter(base, rest, c, stack);
    BranchStep(fn, oracle, lo, merge, s, s + 3, stack, rest, c, st);
    IfElseStep(W.HostOf(fn, oracle), Some(W.TI32), [W.I32Const(1)], els, W.Expand(rest[|base|..]), c, w);
    if c != 0 {
      TruthArmRun(fn, oracle, lo, merge, s + 1, rest, st);
      ConstArm(W.HostOf(fn, oracle), 1, w);
      BoolPushed(fn, k, merge, rest, true, st, w);
      LeaveBool(fn, k, merge, base, rest, M.Exit(merge, rest + [M.BoolValue(true)], st), W.Normal([W.I32V(1)], w));
    } else {
      OrRangeSim(fn, k, oracle, t, o, s + 3, merge, rest, st, w);
      var inner := W.Exec(W.HostOf(fn, oracle), els, [], w);
      SettledRun(fn, k, oracle, lo, s + 3, merge, rest, rest, st, inner);
      LeaveBool(fn, k, merge, base, rest, M.Run(fn, oracle, s + 3, merge, s + 3, rest, st), inner);
    }
  }

  lemma {:induction false} OrRangeSim(fn: M.Function, k: seq<Kinds>, oracle: M.Oracle, t: Targets, o: nat, start: nat,
      merge: nat, rest: seq<M.Value>, st: M.State, w: W.State)
    requires BoolRegion(fn, k, t, o, merge, rest, rest) && o < start < merge && fn.insts[start - 1].Jump?
      && !IsTruthArm(fn, start)
    requires StaysAbove(fn, k, start, merge, |rest|) && M.KindsOf(rest) == k[start] && StatesMatch(fn, st, w)
      && EmitOrRange(fn, t, start, merge, k[start]).Ok?
    ensures Match(fn, k, NO_TARGETS, merge, rest, M.Run(fn, oracle, start, merge, start, rest, st),
                  W.Exec(W.HostOf(fn, oracle), EmitOrRange(fn, t, start, merge, k[start]).code, [], w))
    decreases merge - start, st.fuel, 6
  {
    hide M.Step, M.Run, W.Exec, W.ExecInstr, EmitRange, EmitConstruct, EmitOr, StatesMatch, Match, WellFormed, OrShape,
      JumpsClosed;
    if IsOrEnd(fn, start, merge) {
      FalseArmRun(fn, oracle, start, start, rest, st);
      ConstArm(W.HostOf(fn, oracle), 0, w);
      BoolPushed(fn, k, merge, rest, false, st, w);
    } else {
      OrStep(fn, k, oracle, t, o, start, merge, rest, st, w);
    }
  }

  lemma {:induction false} OrStep(fn: M.Function, k: seq<Kinds>, oracle: M.Oracle, t: Targets, o: nat, start: nat,
      merge: nat, rest: seq<M.Value>, st: M.State, w: W.State)
    requires BoolRegion(fn, k, t, o, merge, rest, rest) && o < start < merge && fn.insts[start - 1].Jump?
      && !IsTruthArm(fn, start)
    requires StaysAbove(fn, k, start, merge, |rest|) && M.KindsOf(rest) == k[start] && StatesMatch(fn, st, w)
    requires !IsOrEnd(fn, start, merge) && EmitOrRange(fn, t, start, merge, k[start]).Ok?
    ensures Match(fn, k, NO_TARGETS, merge, rest, M.Run(fn, oracle, start, merge, start, rest, st),
                  W.Exec(W.HostOf(fn, oracle), EmitOrRange(fn, t, start, merge, k[start]).code, [], w))
    decreases merge - start, st.fuel, 5
  {
    hide M.Step, M.Run, W.Exec, W.ExecInstr, EmitRange, EmitConstruct, EmitOr, EmitOrRange, StatesMatch, Match,
      WellFormed, OrShape, JumpsClosed, Entry, Low;
    OrRangeParts(fn, t, start, merge, k[start]);
    var b := FindOrOperand(fn, start, merge).value;
    OrOperand(fn, k, t, start, b, merge, |rest|);
    var cond := EmitRange(fn, t, start, b, k[start]).code;
    OperandEntry(fn, k, t, o, start, b, merge, rest, st, w);
    RangeSim(fn, k, oracle, t, start, b, rest, rest, st, w);
    var fo := M.Run(fn, oracle, start, b, start, rest, st);
    var wo := W.Exec(W.HostOf(fn, oracle), cond, [], w);
    NoBranch(fn, k, oracle, t, o, merge, rest, start, b, rest, st, wo);
    if wo.Normal? {
      var c := OperandLeft(fn, k, t, b, rest, fo, wo);
      OrSim(fn, k, oracle, t, o, start, b, merge, rest, rest, c, fo.stack, fo.st, wo.st);
    }
    ChainJoin(fn, k, oracle, t, start, b, merge, rest, cond, EmitOr(fn, t, b + 3, merge, k[b + 1]).code, st, w);
  }

  lemma {:induction false} AndCase(fn: M.Function, k: seq<Kinds>, oracle: M.Oracle, t: Targets, s: nat, e: nat,
      base: seq<M.Value>, stack: seq<M.Value>, st: M.State, w: W.State)
    requires s < e <= |fn.insts| && Entry(fn, k, t, s, e, base, stack, st, w) && fn.insts[s].JumpIfFalse?
      && EmitBranch(fn, t, s, e, k[s]).Next? && OrShape(fn, s, e).None? && AndShape(fn, s, e).Some?
    ensures ConstructMatch(fn, k, oracle, t, s, EmitBranch(fn, t, s, e, k[s]), base, stack, st, w)
    decreases e - s, st.fuel, 5
  {
    hide M.Step, M.Run, W.Exec, W.ExecInstr, EmitRange, EmitConstruct, EmitAnd, EmitBranch, StatesMatch, Match,
      StaysAbove, Entry, WellFormed, AndShape, OrShape, JumpsClosed;
    var ft := fn.insts[s].dest;
    var rest, c := BranchEntry(fn, k, t, s, ft, e, base, stack, st, w);
    AndEntry(fn, k, t, s, e, |base|);
    AndSim(fn, k, oracle, t, s, Lo(t, s), s, ft, base, rest, c, stack, st, w);
    Settled(fn, k, t, ft + 1, base, M.Run(fn, oracle, Lo(t, s), ft + 1, s, stack, st),
            W.Exec(W.HostOf(fn, oracle), EmitAnd(fn, t, s + 1, ft, k[s + 1]).code, W.Expand(stack[|base|..]), w));
  }

  /** An operand of an `and` chain has been evaluated; the rest of the chain follows if it is true. */
  lemma {:induction false} AndSim(fn: M.Function, k: seq<Kinds>, oracle: M.Oracle, t: Targets, o: nat, lo: nat, s: nat,
      ft: nat,
                                  base: seq<M.Value>, rest: seq<M.Value>, c: I32, stack: seq<M.Value>, st: M.State,
                                    w: W.State)
    requires BoolRegion(fn, k, t, o, ft + 1, base, rest) && o <= s && lo <= s + 1 && s + 1 < ft
    requires fn.insts[s] == M.JumpIfFalse(ft) && fn.insts[ft] == M.PushBool(false) && fn.insts[ft - 1] == M.Jump(ft + 1)
    requires StaysAbove(fn, k, s + 1, ft, |rest|)
    requires Tested(stack, rest, c) && M.KindsOf(rest) == k[s + 1] && StatesMatch(fn, st, w)
      && EmitAnd(fn, t, s + 1, ft, k[s + 1]).Ok?
    ensures Match(fn, k, NO_TARGETS, ft + 1, base, M.Run(fn, oracle, lo, ft + 1, s, stack, st),
                  W.Exec(W.HostOf(fn, oracle), EmitAnd(fn, t, s + 1, ft, k[s + 1]).code, W.Expand(stack[|base|..]), w))
    decreases ft + 1 - s, st.fuel, 4
  {
    hide M.Step, M.Run, W.Exec, W.ExecInstr, EmitRange, EmitConstruct, EmitAnd, EmitAndTail, StatesMatch, Match,
      StaysAbove, WellFormed, AndShape, JumpsClosed;
    var merge := ft + 1;
    AndParts(fn, t, s + 1, ft, k[s + 1]);
    var thn := EmitAndTail(fn, t, s + 1, ft, k[s + 1]).code;
    TestedOuter(base, rest, c, stack);
    BranchStep(fn, oracle, lo, merge, s, ft, stack, rest, c, st);
    IfElseStep(W.HostOf(fn, oracle), Some(W.TI32), thn, [W.I32Const(0)], W.Expand(rest[|base|..]), c, w);
    if c == 0 {
      FalseArmRun(fn, oracle, lo, ft, rest, st);
      ConstArm(W.HostOf(fn, oracle), 0, w);
      BoolPushed(fn, k, merge, rest, false, st, w);
      LeaveBool(fn, k, merge, base, rest, M.Exit(merge, rest + [M.BoolValue(false)], st), W.Normal([W.I32V(0)], w));
    } else {
      AndTailSim(fn, k, oracle, t, o, s + 1, ft, rest, st, w);
      var inner := W.Exec(W.HostOf(fn, oracle), thn, [], w);
      SettledRun(fn, k, oracle, lo, s + 1, merge, rest, rest, st, inner);
      LeaveBool(fn, k, merge, base, rest, M.Run(fn, oracle, s + 1, merge, s + 1, rest, st), inner);
    }
  }

  lemma {:induction false} AndTailSim(fn: M.Function, k: seq<Kinds>, oracle: M.Oracle, t: Targets, o: nat, start: nat,
      ft: nat, rest: seq<M.Value>, st: M.State, w: W.State)
    requires BoolRegion(fn, k, t, o, ft + 1, rest, rest) && o < start < ft
    requires fn.insts[start - 1] == M.JumpIfFalse(ft) && fn.insts[ft] == M.PushBool(false)
      && fn.insts[ft - 1] == M.Jump(ft + 1)
    requires StaysAbove(fn, k, start, ft, |rest|) && M.KindsOf(rest) == k[start] && StatesMatch(fn, st, w)
      && EmitAndTail(fn, t, start, ft, k[start]).Ok?
    ensures Match(fn, k, NO_TARGETS, ft + 1, rest, M.Run(fn, oracle, start, ft + 1, start, rest, st),
                  W.Exec(W.HostOf(fn, oracle), EmitAndTail(fn, t, start, ft, k[start]).code, [], w))
    decreases ft + 1 - start, st.fuel, 6
  {
    hide M.Step, M.Run, W.Exec, W.ExecInstr, EmitRange, EmitConstruct, EmitAnd, EmitAndTail, StatesMatch, Match,
      WellFormed, AndShape, JumpsClosed;
    AndTailParts(fn, t, start, ft, k[start]);
    if IsAndEnd(fn, start, ft) {
      TruthArmRun(fn, oracle, start, ft + 1, start, rest, st);
      ConstArm(W.HostOf(fn, oracle), 1, w);
      BoolPushed(fn, k, ft + 1, rest, true, st, w);
    } else {
      AndStep(fn, k, oracle, t, o, start, ft, rest, st, w);
    }
  }

  lemma {:induction false} AndStep(fn: M.Function, k: seq<Kinds>, oracle: M.Oracle, t: Targets, o: nat, start: nat,
      ft: nat, rest: seq<M.Value>, st: M.State, w: W.State)
    requires BoolRegion(fn, k, t, o, ft + 1, rest, rest) && o < start < ft
    requires fn.insts[start - 1] == M.JumpIfFalse(ft) && fn.insts[ft] == M.PushBool(false)
      && fn.insts[ft - 1] == M.Jump(ft + 1)
    requires StaysAbove(fn, k, start, ft, |rest|) && M.KindsOf(rest) == k[start] && StatesMatch(fn, st, w)
    requires !IsAndEnd(fn, start, ft) && EmitAndTail(fn, t, start, ft, k[start]).Ok?
    ensures Match(fn, k, NO_TARGETS, ft + 1, rest, M.Run(fn, oracle, start, ft + 1, start, rest, st),
                  W.Exec(W.HostOf(fn, oracle), EmitAndTail(fn, t, start, ft, k[start]).code, [], w))
    decreases ft + 1 - start, st.fuel, 5
  {
    hide M.Step, M.Run, W.Exec, W.ExecInstr, EmitRange, EmitConstruct, EmitAnd, EmitAndTail, StatesMatch, Match,
      WellFormed, AndShape, JumpsClosed, Entry, Low;
    AndTailParts(fn, t, start, ft, k[start]);
    var b := FindAndOperand(fn, start, ft).value;
    AndOperand(fn, k, t, start, b, ft, |rest|);
    var merge := ft + 1;
    var cond := EmitRange(fn, t, start, b, k[start]).code;
    OperandEntry(fn, k, t, o, start, b, merge, rest, st, w);
    RangeSim(fn, k, oracle, t, start, b, rest, rest, st, w);
    var fo := M.Run(fn, oracle, start, b, start, rest, st);
    var wo := W.Exec(W.HostOf(fn, oracle), cond, [], w);
    NoBranch(fn, k, oracle, t, o, merge, rest, start, b, rest, st, wo);
    if wo.Normal? {
      var c := OperandLeft(fn, k, t, b, rest, fo, wo);
      AndSim(fn, k, oracle, t, o, start, b, ft, rest, rest, c, fo.stack, fo.st, wo.st);
    }
    ChainJoin(fn, k, oracle, t, start, b, merge, rest, cond, EmitAnd(fn, t, b + 1, ft, k[b + 1]).code, st, w);
  }
}
