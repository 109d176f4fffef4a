/**
 * The emitter tracks operand kinds while it emits. On a well-formed function what it tracks
 * is the function's own stack map, whatever the nesting of the constructs it recognises.
 */
module Tracking {
  import opened Words
  import Mir
  import opened StackMap
  import opened Wasm
  import opened Emitter

  // ---- a recognised range does not end in a conditional branch --------------------------

  lemma {:induction false} RangeEndsPlainly(fn: Mir.Function, t: Targets, s: nat, e: nat, ks: Kinds)
    requires s < e <= |fn.insts| && EmitRange(fn, t, s, e, ks).Ok?
    ensures !fn.insts[e - 1].JumpIfFalse?
    decreases e - s, 4
  {
    var c := EmitConstruct(fn, t, s, e, ks);
    ConstructEndsPlainly(fn, t, s, e, ks);
    if c.pc < e {
      RangeEndsPlainly(fn, t, c.pc, e, c.stack);
    }
  }

  lemma {:induction false} ConstructEndsPlainly(fn: Mir.Function, t: Targets, s: nat, e: nat, ks: Kinds)
    requires s < e <= |fn.insts| && EmitConstruct(fn, t, s, e, ks).Next?
    ensures !fn.insts[EmitConstruct(fn, t, s, e, ks).pc - 1].JumpIfFalse?
    decreases e - s, 3
  {
    hide EmitRange, OrShape, AndShape, EmitBranch;
    match KindAt(fn, t, s, e)
    case ABranch => BranchEndsPlainly(fn, t, s, e, ks);
    case _ =>
  }

  lemma {:induction false} BranchEndsPlainly(fn: Mir.Function, t: Targets, s: nat, e: nat, ks: Kinds)
    requires s < e <= |fn.insts| && fn.insts[s].JumpIfFalse? && EmitBranch(fn, t, s, e, ks).Next?
    ensures !fn.insts[EmitBranch(fn, t, s, e, ks).pc - 1].JumpIfFalse?
    decreases e - s, 2
  {
    var ft := fn.insts[s].dest;
    var ks' := ks[..|ks| - 1];
    if OrShape(fn, s, e).Some? {
      OrEndsPlainly(fn, t, s + 3, OrShape(fn, s, e).value.mergeTarget, ks');
    } else if AndShape(fn, s, e).Some? {
    } else {
      match ShapeOfBranch(fn, t, ft, e)
      case OnlyThen => RangeEndsPlainly(fn, Nest(t), s + 1, ft, ks');
      case ThenElse(merge) =>
        RangeEndsPlainly(fn, Nest(t), ft, merge, EmitRange(fn, Nest(t), s + 1, ft - 1, ks').stack);
    }
  }

  lemma {:induction false} OrEndsPlainly(fn: Mir.Function, t: Targets, start: nat, merge: nat, ks: Kinds)
    requires merge <= |fn.insts| && EmitOr(fn, t, start, merge, ks).Ok?
    ensures start < merge && !fn.insts[merge - 1].JumpIfFalse?
    decreases if start < merge then merge - start else 0
  {
    var ks0 := ElseStack(BoolConst(ks, true), |ks|);
    if start + 1 == merge && fn.insts[start] == Mir.PushBool(false) {
    } else {
      var b := FindOrOperand(fn, start, merge).value;
      var ks1 := EmitRange(fn, t, start, b, ks0).stack;
      OrEndsPlainly(fn, t, b + 3, merge, ks1[..|ks1| - 1]);
    }
  }

  // ---- straight-line instructions ------------------------------------------------------

  lemma SimpleTracks(fn: Mir.Function, inst: Mir.Inst, ks: Kinds)
    requires EmitSimple(fn, inst, ks).Ok? && KindsAfter(fn, inst, ks).Some?
    ensures EmitSimple(fn, inst, ks).stack == KindsAfter(fn, inst, ks).value
  {
    hide EmitCall, EmitUnary, EmitBinary, UnaryKind, BinaryKind, CanCast, ArgKindsOk;
    var n := |ks|;
    match inst
    case CallFn(f, argc) => CallTracks(fn, f, argc, ks);
    case Unary(tok) => UnaryTracks(tok, ks[n - 1], ks[..n - 1]);
    case Binary(tok) => BinaryTracks(tok, ks[n - 2], ks[n - 1], ks[..n - 2]);
    case _ =>
  }

  lemma CallTracks(fn: Mir.Function, f: nat, argc: nat, ks: Kinds)
    requires EmitCall(fn, f, argc, ks).Ok?
    ensures argc <= |ks| && f < |fn.sigs|
    ensures EmitCall(fn, f, argc, ks).stack == ks[..|ks| - argc] + ResultKinds(fn.sigs[f].result)
  {
    hide PlanArgs, ReloadArgs;
    assert ks[..|ks| - argc] + [] == ks[..|ks| - argc];
  }

  lemma UnaryTracks(tok: Mir.Token, k: Mir.Kind, rest: Kinds)
    requires EmitUnary(tok, k, rest).Ok? && UnaryKind(tok, k).Some?
    ensures EmitUnary(tok, k, rest).stack == rest + [UnaryKind(tok, k).value]
  {
  }

  lemma BinaryTracks(tok: Mir.Token, a: Mir.Kind, b: Mir.Kind, rest: Kinds)
    requires EmitBinary(tok, a, b, rest).Ok? && BinaryKind(tok, a, b).Some?
    ensures EmitBinary(tok, a, b, rest).stack == rest + [BinaryKind(tok, a, b).value]
  {
  }

  lemma FallTracks(fn: Mir.Function, inst: Mir.Inst, ks: Kinds)
    requires EmitFall(fn, inst, ks).Ok? && KindsAfter(fn, inst, ks).Some?
    ensures EmitFall(fn, inst, ks).stack == KindsAfter(fn, inst, ks).value
  {
    hide LoadFrame, StoreFrame, ZeroFrame, CompareStrings, EmitCall;
    if fn.frame.None? || !(inst.LocalLoad? || inst.LocalStore? || inst.LocalZero? || inst.Binary?) {
      SimpleTracks(fn, inst, ks);
    }
  }

  // ---- ranges --------------------------------------------------------------------------

  /** `pc` is not the second or third instruction of a boolean diamond. */
  predicate OutsideDiamond(fn: Mir.Function, pc: nat) {
    !IsTruthArm(fn, pc) && !IsTruthArm(fn, pc + 1)
  }

  /** When a range of a well-formed function is emitted from its own operand kinds, the tracked
      kinds at the end of the range are the function's kinds there. */
  lemma {:induction false} RangeTracks(fn: Mir.Function, k: seq<Kinds>, t: Targets, s: nat, e: nat)
    requires WellFormed(fn, k) && s <= e <= |fn.insts| && (s < e ==> OutsideDiamond(fn, s))
    requires EmitRange(fn, t, s, e, k[s]).Ok?
    ensures EmitRange(fn, t, s, e, k[s]).stack == k[e]
    decreases e - s, 4
  {
    if s < e {
      ConstructTracks(fn, k, t, s, e);
      RangeTracks(fn, k, t, EmitConstruct(fn, t, s, e, k[s]).pc, e);
    }
  }

  lemma {:induction false} ConstructTracks(fn: Mir.Function, k: seq<Kinds>, t: Targets, s: nat, e: nat)
    requires WellFormed(fn, k) && s < e <= |fn.insts| && OutsideDiamond(fn, s)
    requires EmitConstruct(fn, t, s, e, k[s]).Next?
    ensures var c := EmitConstruct(fn, t, s, e, k[s]); c.stack == k[c.pc] && OutsideDiamond(fn, c.pc)
    decreases e - s, 3
  {
    hide EmitWhile, EmitForever, EmitBranch, EmitLeaf, InstOk, DiamondsClosed;
    ConstructEndsPlainly(fn, t, s, e, k[s]);
    match KindAt(fn, t, s, e)
    case AWhile(r) => WhileTracks(fn, k, r, e);
    case AForever(backedge) => ForeverTracks(fn, k, s, backedge, e);
    case ABranch => BranchTracks(fn, k, t, s, e);
    case ALeaf => LeafTracks(fn, k, t, s);
  }

  lemma LeafTracks(fn: Mir.Function, k: seq<Kinds>, t: Targets, s: nat)
    requires WellFormed(fn, k) && s < |fn.insts| && !IsTruthArm(fn, s) && !fn.insts[s].JumpIfFalse?
    requires EmitLeaf(fn, t, fn.insts[s], k[s]).Ok?
    ensures EmitLeaf(fn, t, fn.insts[s], k[s]).stack == k[s + 1]
  {
    InstAt(fn, k, s);
    if !Mir.IsControl(fn.insts[s]) {
      FallTracks(fn, fn.insts[s], k[s]);
    }
  }

  lemma {:induction false} WhileTracks(fn: Mir.Function, k: seq<Kinds>, r: Region, e: nat)
    requires WellFormed(fn, k) && e <= |fn.insts| && IsRegion(fn, r.header, e, r) && OutsideDiamond(fn, r.header)
    requires EmitWhile(fn, r, e, k[r.header]).Ok?
    ensures EmitWhile(fn, r, e, k[r.header]).stack == k[r.exit] == k[r.header]
    ensures EmitRange(fn, NO_TARGETS, r.header, r.cond, k[r.header]).stack == k[r.cond]
    ensures EmitRange(fn, BodyTargets(r), r.cond + 1, r.tail, k[r.cond + 1]).Ok?
    ensures EmitRange(fn, BodyTargets(r), r.cond + 1, r.tail, k[r.cond + 1]).stack == k[r.tail]
    ensures EmitRange(fn, LoopTargets(r.header, r.exit), r.tail, r.backedge, k[r.tail]).Ok?
    ensures !IsTruthArm(fn, r.backedge) && OutsideDiamond(fn, r.cond + 1)
    ensures r.tail < r.backedge ==> OutsideDiamond(fn, r.tail)
    ensures |k[r.tail]| == |k[r.header]| && k[r.backedge] == k[r.header]
    decreases e - r.header, 2
  {
    hide EmitRange;
    WhileParts(fn, r, e, k[r.header]);
    InstAt(fn, k, r.cond);
    InstAt(fn, k, r.backedge);
    RangeTracks(fn, k, NO_TARGETS, r.header, r.cond);
    WhileBodyTracks(fn, k, r, e);
  }

  lemma {:induction false} WhileBodyTracks(fn: Mir.Function, k: seq<Kinds>, r: Region, e: nat)
    requires WellFormed(fn, k) && e <= |fn.insts| && IsRegion(fn, r.header, e, r)
    requires |k[r.cond + 1]| == |k[r.header]|
    requires EmitRange(fn, BodyTargets(r), r.cond + 1, r.tail, k[r.cond + 1]).Ok?
    requires var ks2 := EmitRange(fn, BodyTargets(r), r.cond + 1, r.tail, k[r.cond + 1]).stack;
      && |ks2| == |k[r.header]|
      && EmitRange(fn, LoopTargets(r.header, r.exit), r.tail, r.backedge, ks2).Ok?
      && |EmitRange(fn, LoopTargets(r.header, r.exit), r.tail, r.backedge, ks2).stack| == |k[r.header]|
    ensures EmitRange(fn, BodyTargets(r), r.cond + 1, r.tail, k[r.cond + 1]).stack == k[r.tail]
    ensures EmitRange(fn, LoopTargets(r.header, r.exit), r.tail, r.backedge, k[r.tail]).stack == k[r.backedge]
    ensures !IsTruthArm(fn, r.backedge) && OutsideDiamond(fn, r.cond + 1)
    ensures r.tail < r.backedge ==> OutsideDiamond(fn, r.tail)
    decreases e - r.header, 1
  {
    hide EmitRange, DiamondsClosed;
    InstAt(fn, k, r.cond);
    BodyStart(fn, k, r, e);
    RangeTracks(fn, k, BodyTargets(r), r.cond + 1, r.tail);
    if r.tail < r.backedge {
      var j :| r.cond < j < r.backedge && fn.insts[j] == Mir.Jump(r.tail);
      AfterRange(fn, k, BodyTargets(r), r.cond + 1, r.tail, k[r.cond + 1], j);
    }
    RangeTracks(fn, k, LoopTargets(r.header, r.exit), r.tail, r.backedge);
    if IsTruthArm(fn, r.backedge) {
      InstAt(fn, k, r.backedge - 2); InstAt(fn, k, r.backedge - 1);
    }
  }

  lemma BodyStart(fn: Mir.Function, k: seq<Kinds>, r: Region, e: nat)
    requires WellFormed(fn, k) && e <= |fn.insts| && IsRegion(fn, r.header, e, r)
    requires var b := EmitRange(fn, BodyTargets(r), r.cond + 1, r.tail, k[r.cond + 1]);
      b.Ok? && |b.stack| == |k[r.cond + 1]|
    ensures OutsideDiamond(fn, r.cond + 1)
  {
    if IsTruthArm(fn, r.cond + 2) {
      // the body would be a lone PUSH, which the stack check refuses
      LonePushFails(fn, k, BodyTargets(r), r.cond + 1);
      assert false;
    }
  }

  /** A jump target at the end of an emitted range is outside all diamonds. */
  lemma AfterRange(fn: Mir.Function, k: seq<Kinds>, t: Targets, s: nat, e: nat, ks: Kinds, j: nat)
    requires WellFormed(fn, k) && s < e <= |fn.insts| && EmitRange(fn, t, s, e, ks).Ok?
    requires j < |fn.insts| && fn.insts[j] == Mir.Jump(e)
    ensures OutsideDiamond(fn, e)
  {
    RangeEndsPlainly(fn, t, s, e, ks);
    InstAt(fn, k, j);
  }

  lemma LonePushFails(fn: Mir.Function, k: seq<Kinds>, t: Targets, s: nat)
    requires WellFormed(fn, k) && s < |fn.insts| && fn.insts[s] == Mir.PushBool(true)
    requires EmitRange(fn, t, s, s + 1, k[s]).Ok?
    ensures |EmitRange(fn, t, s, s + 1, k[s]).stack| == |k[s]| + 1
  {
    FindLoopFromBounds(fn, s, s + 1, s);
    FindBackedgeBounds(fn, s, s + 1);
    var c := EmitConstruct(fn, t, s, s + 1, k[s]);
    assert EmitRange(fn, t, s + 1, s + 1, c.stack) == Ok([], c.stack);
  }

  lemma {:induction false} NoLoopBranch(fn: Mir.Function, start: nat, end: nat, pc: nat, j: nat)
    requires end <= |fn.insts| && pc <= j < end && FindLoopFrom(fn, start, end, pc).None?
    ensures !IsLoopBranch(fn, start, end, j)
    decreases end - pc
  {
    if pc < j {
      NoLoopBranch(fn, start, end, pc + 1, j);
    }
  }

  lemma {:induction false} ForeverTracks(fn: Mir.Function, k: seq<Kinds>, header: nat, backedge: nat, e: nat)
    requires WellFormed(fn, k) && header < backedge < e <= |fn.insts| && OutsideDiamond(fn, header)
    requires FindLoop(fn, header, e).None? && fn.insts[backedge] == Mir.Jump(header)
    requires EmitForever(fn, header, backedge, k[header]).Ok?
    ensures !IsTruthArm(fn, backedge)
    ensures EmitForever(fn, header, backedge, k[header]).stack == k[backedge] == k[backedge + 1] == k[header]
    decreases backedge + 1 - header, 2
  {
    InstAt(fn, k, backedge);
    if IsTruthArm(fn, backedge) {
      // its branch would have made this a loop with a condition
      NoLoopBranch(fn, header, e, header, backedge - 2);
      assert false;
    }
    RangeTracks(fn, k, LoopTargets(header, backedge + 1), header, backedge);
  }

  // ---- conditional branches ------------------------------------------------------------

  /** A diamond that is not a boolean expression is refused. */
  lemma DiamondIsNotAnIf(fn: Mir.Function, k: seq<Kinds>, t: Targets, s: nat, e: nat)
    requires WellFormed(fn, k) && s < e <= |fn.insts| && IsTruthArm(fn, s + 2)
    requires OrShape(fn, s, e).None? && AndShape(fn, s, e).None?
    ensures EmitBranch(fn, t, s, e, k[s]).Fail?
  {
    InstAt(fn, k, s); InstAt(fn, k, s + 1); InstAt(fn, k, s + 2);
    var ft := s + 3;
    if ft <= e && ShapeOfBranch(fn, t, ft, e).OnlyThen? && EmitIf(fn, t, s, ft, k[s + 1]).Ok? {
      PushThenJump(fn, Nest(t), s + 1, k[s + 1]);
      assert false;
    }
  }

  lemma PushThenJump(fn: Mir.Function, t: Targets, s: nat, ks: Kinds)
    requires s + 1 < |fn.insts| && fn.insts[s] == Mir.PushBool(true) && fn.insts[s + 1].Jump?
      && fn.insts[s + 1].dest != s
    requires EmitRange(fn, t, s, s + 2, ks).Ok?
    ensures |EmitRange(fn, t, s, s + 2, ks).stack| == |ks| + 1
  {
    FindLoopFromBounds(fn, s, s + 2, s);
    FindBackedgeBounds(fn, s, s + 2);
    FindLoopFromBounds(fn, s + 1, s + 2, s + 1);
    FindBackedgeBounds(fn, s + 1, s + 2);
    var c1 := EmitConstruct(fn, t, s, s + 2, ks);
    assert c1.Next? && c1.pc == s + 1;
    var c2 := EmitConstruct(fn, t, s + 1, s + 2, c1.stack);
    assert c2.Next? && c2.pc == s + 2;
    assert EmitRange(fn, t, s + 1, s + 2, c1.stack).Ok?;
    assert EmitRange(fn, t, s + 2, s + 2, c2.stack) == Ok([], c2.stack);
  }

  lemma {:induction false} BranchTracks(fn: Mir.Function, k: seq<Kinds>, t: Targets, s: nat, e: nat)
    requires WellFormed(fn, k) && s < e <= |fn.insts| && OutsideDiamond(fn, s)
    requires fn.insts[s].JumpIfFalse? && EmitBranch(fn, t, s, e, k[s]).Next?
    ensures var c := EmitBranch(fn, t, s, e, k[s]); c.stack == k[c.pc] && !IsTruthArm(fn, c.pc)
    decreases e - s, 2
  {
    hide EmitOr, EmitAnd, EmitIf, EmitIfElse, DiamondsClosed, StaysAbove;
    InstAt(fn, k, s);
    BranchParts(fn, t, s, e, k[s]);
    var ft := fn.insts[s].dest;
    if OrShape(fn, s, e).Some? {
      var merge := OrShape(fn, s, e).value.mergeTarget;
      DiamondKinds(fn, k, s, merge);
      OrTracks(fn, k, t, s + 3, merge);
    } else if AndShape(fn, s, e).Some? {
      InstAt(fn, k, ft - 1);
      AndTracks(fn, k, t, s + 1, ft);
    } else {
      if IsTruthArm(fn, s + 2) {
        DiamondIsNotAnIf(fn, k, t, s, e);
        assert false;
      }
      match ShapeOfBranch(fn, t, ft, e)
      case OnlyThen => IfTracks(fn, k, t, s, ft);
      case ThenElse(merge) =>
        InstAt(fn, k, ft - 1);
        IfElseTracks(fn, k, t, s, ft, merge);
    }
  }

  /** The kinds around a diamond: its arms start alike, and they join with one more i32. */
  lemma DiamondKinds(fn: Mir.Function, k: seq<Kinds>, s: nat, merge: nat)
    requires WellFormed(fn, k) && IsTruthArm(fn, s + 2) && fn.insts[s + 2] == Mir.Jump(merge)
    ensures merge < |fn.insts| && k[s + 3] == k[s + 1] && k[merge] == k[s + 1] + [Mir.KI32]
    ensures !IsTruthArm(fn, merge) && !IsTruthArm(fn, s + 3)
    ensures |k[s]| > 0 && k[s + 1] == k[s][..|k[s]| - 1]
  {
    InstAt(fn, k, s); InstAt(fn, k, s + 1); InstAt(fn, k, s + 2);
  }

  lemma {:induction false} IfTracks(fn: Mir.Function, k: seq<Kinds>, t: Targets, s: nat, ft: nat)
    requires WellFormed(fn, k) && s + 1 < ft < |fn.insts| && fn.insts[s] == Mir.JumpIfFalse(ft)
      && OutsideDiamond(fn, s + 1)
    requires EmitIf(fn, t, s, ft, k[s + 1]).Ok?
    ensures EmitIf(fn, t, s, ft, k[s + 1]).stack == k[ft]
    decreases ft - s, 1
  {
    RangeTracks(fn, k, Nest(t), s + 1, ft);
  }

  lemma {:induction false} IfElseTracks(fn: Mir.Function, k: seq<Kinds>, t: Targets, s: nat, ft: nat, merge: nat)
    requires WellFormed(fn, k) && s + 1 < ft < merge < |fn.insts| && OutsideDiamond(fn, s + 1)
    requires fn.insts[s] == Mir.JumpIfFalse(ft) && fn.insts[ft - 1] == Mir.Jump(merge)
    requires EmitIfElse(fn, t, s, ft, merge, k[s + 1]).Ok?
    ensures EmitIfElse(fn, t, s, ft, merge, k[s + 1]).stack == k[merge]
    ensures EmitRange(fn, Nest(t), ft, merge, k[ft]).Ok? && OutsideDiamond(fn, ft)
    ensures EmitRange(fn, Nest(t), s + 1, ft - 1, k[s + 1]).stack == k[ft] == k[ft - 1] == k[s + 1]
    decreases merge - s, 1
  {
    hide WellFormed, InstOk, EmitRange, EmitBranch, StaysAbove, DiamondsClosed;
    ArmEnds(fn, k, s, ft, merge);
    RangeTracks(fn, k, Nest(t), s + 1, ft - 1);
    RangeTracks(fn, k, Nest(t), ft, merge);
  }

  /** The operands where the arms of an `if` and an `else` begin and end. */
  lemma ArmEnds(fn: Mir.Function, k: seq<Kinds>, s: nat, ft: nat, merge: nat)
    requires WellFormed(fn, k) && s + 1 < ft < merge < |fn.insts| && OutsideDiamond(fn, s + 1)
    requires fn.insts[s] == Mir.JumpIfFalse(ft) && fn.insts[ft - 1] == Mir.Jump(merge)
    ensures k[ft] == k[s + 1] && k[merge] == k[ft - 1] && OutsideDiamond(fn, ft)
    ensures k[ft - 1] == k[ft] || k[ft - 1] == k[ft] + [Mir.KI32]
  {
    hide StaysAbove, DiamondsClosed;
    InstAt(fn, k, s); InstAt(fn, k, ft - 1);
    if IsTruthArm(fn, ft - 1) {
      // the then arm would end with the diamond's PUSH
      InstAt(fn, k, ft - 3); InstAt(fn, k, ft - 2);
    }
  }

  // ---- boolean expressions -------------------------------------------------------------

  lemma {:induction false} AndTracks(fn: Mir.Function, k: seq<Kinds>, t: Targets, start: nat, ft: nat)
    requires WellFormed(fn, k) && 0 < start <= ft && ft + 1 < |fn.insts|
    requires fn.insts[start - 1] == Mir.JumpIfFalse(ft) && fn.insts[ft] == Mir.PushBool(false)
      && fn.insts[ft - 1] == Mir.Jump(ft + 1)
    requires EmitAnd(fn, t, start, ft, k[start]).Ok?
    ensures EmitAnd(fn, t, start, ft, k[start]).stack == k[ft + 1] == k[start] + [Mir.KI32]
    ensures k[start] == k[ft]
    decreases if start < ft then ft - start else 0, 6
  {
    InstAt(fn, k, start - 1); InstAt(fn, k, ft);
    AndTailTracks(fn, k, t, start, ft);
    assert k[ft + 1][..|k[start]|] == k[ft];
  }

  lemma {:induction false} AndTailTracks(fn: Mir.Function, k: seq<Kinds>, t: Targets, start: nat, ft: nat)
    requires WellFormed(fn, k) && 0 < start <= ft && ft + 1 < |fn.insts|
    requires fn.insts[start - 1] == Mir.JumpIfFalse(ft) && fn.insts[ft] == Mir.PushBool(false)
      && fn.insts[ft - 1] == Mir.Jump(ft + 1)
    requires EmitAndTail(fn, t, start, ft, k[start]).Ok?
    ensures EmitAndTail(fn, t, start, ft, k[start]).stack == k[ft + 1]
    ensures !IsAndEnd(fn, start, ft) ==> OutsideDiamond(fn, start)
    decreases if start < ft then ft - start else 0, 5
  {
    hide EmitRange, EmitAnd, StaysAbove, DiamondsClosed;
    InstAt(fn, k, start - 1); InstAt(fn, k, ft);
    if !IsAndEnd(fn, start, ft) {
      var b := FindAndOperand(fn, start, ft).value;
      assert OutsideDiamond(fn, start) by {
        if IsTruthArm(fn, start + 1) {
          assert false;
        }
      }
      InstAt(fn, k, b);
      RangeTracks(fn, k, t, start, b);
      AndTracks(fn, k, t, b + 1, ft);
    }
  }

  lemma {:induction false} OrTracks(fn: Mir.Function, k: seq<Kinds>, t: Targets, start: nat, merge: nat)
    requires WellFormed(fn, k) && 0 < start <= merge < |fn.insts|
    requires fn.insts[start - 1].Jump? && !IsTruthArm(fn, start) && k[merge] == k[start] + [Mir.KI32]
    requires EmitOr(fn, t, start, merge, k[start]).Ok?
    ensures EmitOr(fn, t, start, merge, k[start]).stack == k[merge]
    decreases if start < merge then merge - start else 0, 6
  {
    OrParts(fn, t, start, merge, k[start]);
    OrRangeTracks(fn, k, t, start, merge);
  }

  lemma {:induction false} OrRangeTracks(fn: Mir.Function, k: seq<Kinds>, t: Targets, start: nat, merge: nat)
    requires WellFormed(fn, k) && 0 < start <= merge < |fn.insts|
    requires fn.insts[start - 1].Jump? && !IsTruthArm(fn, start) && k[merge] == k[start] + [Mir.KI32]
    requires EmitOrRange(fn, t, start, merge, k[start]).Ok?
    ensures EmitOrRange(fn, t, start, merge, k[start]).stack == k[merge]
    decreases if start < merge then merge - start else 0, 5
  {
    hide EmitRange, EmitOr, DiamondsClosed;
    if !IsOrEnd(fn, start, merge) {
      OrRangeParts(fn, t, start, merge, k[start]);
      var b := FindOrOperand(fn, start, merge).value;
      DiamondKinds(fn, k, b, merge);
      RangeTracks(fn, k, t, start, b);
      OrTracks(fn, k, t, b + 3, merge);
    }
  }
}
