/**
 * What emission accepts at all: when a range is emitted, every jump in it stays inside the range or goes
 * to a label that is there, whatever function it is.
 */
module Jumps {
  import Mir
  import opened Words
  import opened StackMap
  import opened Wasm
  import opened Emitter

  predicate HasLabel(t: Targets, pc: nat) {
    || (t.continue_.Some? && t.continue_.value.pc == pc)
    || (t.break_.Some? && t.break_.value.pc == pc)
  }

  /** A jump goes to [lo, hi] or to a label; a conditional one goes forward, no further than `hi`. */
  predicate JumpIn(fn: Mir.Function, t: Targets, pc: nat, lo: nat, hi: nat)
    requires pc < |fn.insts|
  {
    match fn.insts[pc]
    case Jump(x) => lo <= x <= hi || HasLabel(t, x)
    case JumpIfFalse(x) => pc < x <= hi
    case _ => true
  }

  predicate JumpsIn(fn: Mir.Function, t: Targets, a: nat, b: nat, lo: nat, hi: nat) {
    forall pc :: a <= pc < b && pc < |fn.insts| ==> JumpIn(fn, t, pc, lo, hi)
  }

  /** Labels of inner targets that lie inside are no labels any more. */
  lemma Wider(fn: Mir.Function, inner: Targets, outer: Targets, a: nat, b: nat, lo: nat, hi: nat, lo2: nat, hi2: nat)
    requires JumpsIn(fn, inner, a, b, lo, hi) && lo2 <= lo && hi <= hi2
    requires forall x: nat :: HasLabel(inner, x) ==> lo2 <= x <= hi2 || HasLabel(outer, x)
    ensures JumpsIn(fn, outer, a, b, lo2, hi2)
  {
    hide HasLabel;
    forall pc | a <= pc < b && pc < |fn.insts|
      ensures JumpIn(fn, outer, pc, lo2, hi2)
    {
      assert JumpIn(fn, inner, pc, lo, hi);
    }
  }

  lemma NestLabels(t: Targets, x: nat)
    ensures HasLabel(Nest(t), x) == HasLabel(t, x) && (DepthForJump(t, x).Some? <==> HasLabel(t, x))
  {
  }

  lemma Joined(fn: Mir.Function, t: Targets, a: nat, b: nat, c: nat, lo: nat, hi: nat)
    requires JumpsIn(fn, t, a, b, lo, hi) && JumpsIn(fn, t, b, c, lo, hi)
    ensures JumpsIn(fn, t, a, c, lo, hi)
  {
    hide JumpIn;
  }

  lemma OneIn(fn: Mir.Function, t: Targets, pc: nat, lo: nat, hi: nat)
    requires pc < |fn.insts| && JumpIn(fn, t, pc, lo, hi)
    ensures JumpsIn(fn, t, pc, pc + 1, lo, hi)
  {
    hide JumpIn;
  }

  lemma {:induction false} RangeJumps(fn: Mir.Function, t: Targets, s: nat, e: nat, ks: Kinds)
    requires e <= |fn.insts| && EmitRange(fn, t, s, e, ks).Ok?
    ensures JumpsIn(fn, t, s, e, s, e)
    decreases if s < e then e - s else 0, 4
  {
    hide EmitConstruct, JumpIn;
    if s < e {
      var c := EmitConstruct(fn, t, s, e, ks);
      ConstructJumps(fn, t, s, e, ks);
      RangeJumps(fn, t, c.pc, e, c.stack);
      Wider(fn, t, t, c.pc, e, c.pc, e, s, e);
      Wider(fn, t, t, s, c.pc, if IsLoop(fn, t, s, e) then s else s + 1, e, s, e);
      Joined(fn, t, s, c.pc, e, s, e);
    }
  }

  predicate IsLoop(fn: Mir.Function, t: Targets, s: nat, e: nat)
    requires s < e <= |fn.insts|
  {
    KindAt(fn, t, s, e).AWhile? || KindAt(fn, t, s, e).AForever?
  }

  /** Only a loop is jumped back to. */
  lemma {:induction false} ConstructJumps(fn: Mir.Function, t: Targets, s: nat, e: nat, ks: Kinds)
    requires s < e <= |fn.insts| && EmitConstruct(fn, t, s, e, ks).Next?
    ensures JumpsIn(fn, t, s, EmitConstruct(fn, t, s, e, ks).pc, if IsLoop(fn, t, s, e) then s else s + 1, e)
    decreases if s < e then e - s else 0, 3
  {
    hide EmitRange, EmitWhile, EmitForever, EmitBranch, EmitLeaf, JumpsIn;
    match KindAt(fn, t, s, e)
    case AWhile(r) => WhileJumps(fn, t, r, e, ks);
    case AForever(b) => ForeverJumps(fn, t, s, b, e, ks);
    case ABranch => BranchJumps(fn, t, s, e, ks);
    case ALeaf => LeafJumps(fn, t, s, e, ks);
  }

  lemma LeafJumps(fn: Mir.Function, t: Targets, s: nat, e: nat, ks: Kinds)
    requires s < e <= |fn.insts| && !fn.insts[s].JumpIfFalse? && EmitLeaf(fn, t, fn.insts[s], ks).Ok?
    ensures JumpsIn(fn, t, s, s + 1, s + 1, e)
  {
    hide EmitReturn, EmitReturnVoid, EmitFall;
    if fn.insts[s].Jump? {
      NestLabels(t, fn.insts[s].dest);
    }
  }

  lemma {:induction false} WhileJumps(fn: Mir.Function, t: Targets, r: Region, e: nat, ks: Kinds)
    requires e <= |fn.insts| && IsRegion(fn, r.header, e, r) && EmitWhile(fn, r, e, ks).Ok?
    ensures JumpsIn(fn, t, r.header, r.exit, r.header, e)
    decreases e - r.header, 2
  {
    hide EmitRange, EmitWhile, JumpsIn;
    WhileParts(fn, r, e, ks);
    var c := EmitRange(fn, NO_TARGETS, r.header, r.cond, ks);
    var b := EmitRange(fn, BodyTargets(r), r.cond + 1, r.tail, c.stack[..|ks|]);
    RangeJumps(fn, NO_TARGETS, r.header, r.cond, ks);
    RangeJumps(fn, BodyTargets(r), r.cond + 1, r.tail, c.stack[..|ks|]);
    RangeJumps(fn, LoopTargets(r.header, r.exit), r.tail, r.backedge, b.stack);
    Wider(fn, NO_TARGETS, t, r.header, r.cond, r.header, r.cond, r.header, e);
    Wider(fn, BodyTargets(r), t, r.cond + 1, r.tail, r.cond + 1, r.tail, r.header, e);
    Wider(fn, LoopTargets(r.header, r.exit), t, r.tail, r.backedge, r.tail, r.backedge, r.header, e);
    OneIn(fn, t, r.cond, r.header, e);
    OneIn(fn, t, r.backedge, r.header, e);
    Joined(fn, t, r.header, r.cond, r.cond + 1, r.header, e);
    Joined(fn, t, r.header, r.cond + 1, r.tail, r.header, e);
    Joined(fn, t, r.header, r.tail, r.backedge, r.header, e);
    Joined(fn, t, r.header, r.backedge, r.exit, r.header, e);
  }

  lemma {:induction false} ForeverJumps(fn: Mir.Function, t: Targets, s: nat, b: nat, e: nat, ks: Kinds)
    requires s < b < e <= |fn.insts| && fn.insts[b] == Mir.Jump(s) && EmitForever(fn, s, b, ks).Ok?
    ensures JumpsIn(fn, t, s, b + 1, s, e)
    decreases e - s, 2
  {
    hide EmitRange, JumpsIn;
    RangeJumps(fn, LoopTargets(s, b + 1), s, b, ks);
    Wider(fn, LoopTargets(s, b + 1), t, s, b, s, b, s, e);
    OneIn(fn, t, b, s, e);
    Joined(fn, t, s, b, b + 1, s, e);
  }

  lemma {:induction false} ArmJumps(fn: Mir.Function, t: Targets, a: nat, b: nat, ks: Kinds, lo: nat, hi: nat)
    requires a <= b <= |fn.insts| && b <= hi && lo <= a && EmitRange(fn, Nest(t), a, b, ks).Ok?
    ensures JumpsIn(fn, t, a, b, lo, hi)
    decreases b - a, 5
  {
    hide EmitRange, JumpsIn, HasLabel;
    RangeJumps(fn, Nest(t), a, b, ks);
    forall x: nat
      ensures HasLabel(Nest(t), x) == HasLabel(t, x)
    {
      NestLabels(t, x);
    }
    Wider(fn, Nest(t), t, a, b, a, b, lo, hi);
  }

  lemma {:induction false} BranchJumps(fn: Mir.Function, t: Targets, s: nat, e: nat, ks: Kinds)
    requires s < e <= |fn.insts| && fn.insts[s].JumpIfFalse? && EmitBranch(fn, t, s, e, ks).Next?
    ensures JumpsIn(fn, t, s, EmitBranch(fn, t, s, e, ks).pc, s + 1, e)
    decreases e - s, 2
  {
    hide EmitRange, EmitBranch, EmitAnd, EmitOr, JumpsIn;
    BranchParts(fn, t, s, e, ks);
    var ft, ks' := fn.insts[s].dest, ks[..|ks| - 1];
    if OrShape(fn, s, e).Some? {
      var merge := OrShape(fn, s, e).value.mergeTarget;
      OrJumps(fn, t, s + 3, merge, ks');
      Wider(fn, t, t, s + 3, merge, s + 3, merge, s + 1, e);
      OneIn(fn, t, s, s + 1, e); OneIn(fn, t, s + 1, s + 1, e); OneIn(fn, t, s + 2, s + 1, e);
      Joined(fn, t, s, s + 1, s + 2, s + 1, e);
      Joined(fn, t, s, s + 2, s + 3, s + 1, e);
      Joined(fn, t, s, s + 3, merge, s + 1, e);
    } else if AndShape(fn, s, e).Some? {
      AndJumps(fn, t, s + 1, ft, ks');
      Wider(fn, t, t, s + 1, ft, s + 1, ft + 1, s + 1, e);
      OneIn(fn, t, s, s + 1, e); OneIn(fn, t, ft, s + 1, e);
      Joined(fn, t, s, s + 1, ft, s + 1, e);
      Joined(fn, t, s, ft, ft + 1, s + 1, e);
    } else {
      OneIn(fn, t, s, s + 1, e);
      match ShapeOfBranch(fn, t, ft, e)
      case OnlyThen =>
        ArmJumps(fn, t, s + 1, ft, ks', s + 1, e);
        Joined(fn, t, s, s + 1, ft, s + 1, e);
      case ThenElse(merge) =>
        ArmJumps(fn, t, s + 1, ft - 1, ks', s + 1, e);
        ArmJumps(fn, t, ft, merge, EmitRange(fn, Nest(t), s + 1, ft - 1, ks').stack, s + 1, e);
        OneIn(fn, t, ft - 1, s + 1, e);
        Joined(fn, t, s, s + 1, ft - 1, s + 1, e);
        Joined(fn, t, s, ft - 1, ft, s + 1, e);
        Joined(fn, t, s, ft, merge, s + 1, e);
    }
  }

  lemma {:induction false} AndJumps(fn: Mir.Function, t: Targets, start: nat, ft: nat, ks: Kinds)
    requires ft <= |fn.insts| && EmitAnd(fn, t, start, ft, ks).Ok?
    ensures JumpsIn(fn, t, start, ft, start, ft + 1)
    decreases if start < ft then ft - start else 0, 6
  {
    hide EmitAnd, EmitAndTail, EmitRange, JumpsIn;
    AndParts(fn, t, start, ft, ks);
    AndTailParts(fn, t, start, ft, ks);
    if IsAndEnd(fn, start, ft) {
      OneIn(fn, t, start, start, ft + 1); OneIn(fn, t, start + 1, start, ft + 1);
      Joined(fn, t, start, start + 1, ft, start, ft + 1);
    } else {
      var b := FindAndOperand(fn, start, ft).value;
      var c := EmitRange(fn, t, start, b, ks);
      RangeJumps(fn, t, start, b, ks);
      AndJumps(fn, t, b + 1, ft, c.stack[..|c.stack| - 1]);
      Wider(fn, t, t, start, b, start, b, start, ft + 1);
      Wider(fn, t, t, b + 1, ft, b + 1, ft + 1, start, ft + 1);
      OneIn(fn, t, b, start, ft + 1);
      Joined(fn, t, start, b, b + 1, start, ft + 1);
      Joined(fn, t, start, b + 1, ft, start, ft + 1);
    }
  }

  lemma {:induction false} OrJumps(fn: Mir.Function, t: Targets, start: nat, merge: nat, ks: Kinds)
    requires merge <= |fn.insts| && EmitOr(fn, t, start, merge, ks).Ok?
    ensures JumpsIn(fn, t, start, merge, start, merge)
    decreases if start < merge then merge - start else 0, 6
  {
    hide EmitOr, EmitOrRange, EmitRange, JumpsIn;
    OrParts(fn, t, start, merge, ks);
    if IsOrEnd(fn, start, merge) {
      OneIn(fn, t, start, start, merge);
    } else {
      OrRangeParts(fn, t, start, merge, ks);
      var b := FindOrOperand(fn, start, merge).value;
      var c := EmitRange(fn, t, start, b, ks);
      RangeJumps(fn, t, start, b, ks);
      OrJumps(fn, t, b + 3, merge, c.stack[..|c.stack| - 1]);
      Wider(fn, t, t, start, b, start, b, start, merge);
      Wider(fn, t, t, b + 3, merge, b + 3, merge, start, merge);
      OneIn(fn, t, b, start, merge); OneIn(fn, t, b + 1, start, merge); OneIn(fn, t, b + 2, start, merge);
      Joined(fn, t, start, b, b + 1, start, merge);
      Joined(fn, t, start, b + 1, b + 2, start, merge);
      Joined(fn, t, start, b + 2, b + 3, start, merge);
      Joined(fn, t, start, b + 3, merge, start, merge);
    }
  }

  // ---- refusals -----------------------------------------------------------------------------------------

  lemma JumpsOfAccepted(fn: Mir.Function, t: Targets, s: nat, e: nat, ks: Kinds, pc: nat)
    requires s <= pc < e <= |fn.insts|
    ensures EmitRange(fn, t, s, e, ks).Ok? ==> JumpIn(fn, t, pc, s, e)
  {
    hide EmitRange, JumpIn;
    if EmitRange(fn, t, s, e, ks).Ok? {
      RangeJumps(fn, t, s, e, ks);
    }
  }

  /** A range is refused if it has a jump back before it that no label stands for. */
  lemma RefusedBack(fn: Mir.Function, t: Targets, s: nat, e: nat, ks: Kinds, pc: nat)
    requires s <= pc < e <= |fn.insts| && fn.insts[pc].Jump? && fn.insts[pc].dest < s
      && !HasLabel(t, fn.insts[pc].dest)
    ensures EmitRange(fn, t, s, e, ks).Err?
  {
    hide EmitRange;
    JumpsOfAccepted(fn, t, s, e, ks, pc);
  }

  /** And if it has a conditional jump beyond its end. */
  lemma RefusedBeyond(fn: Mir.Function, t: Targets, s: nat, e: nat, ks: Kinds, pc: nat)
    requires s <= pc < e <= |fn.insts| && fn.insts[pc].JumpIfFalse? && fn.insts[pc].dest > e
    ensures EmitRange(fn, t, s, e, ks).Err?
  {
    hide EmitRange;
    JumpsOfAccepted(fn, t, s, e, ks, pc);
  }

  /** And if it has a jump back to its start, which is no loop and for which there is no label. */
  lemma RefusedToStart(fn: Mir.Function, t: Targets, s: nat, e: nat, ks: Kinds, pc: nat)
    requires s < pc < e <= |fn.insts| && fn.insts[pc] == Mir.Jump(s) && !HasLabel(t, s)
    requires match KindAt(fn, t, s, e) case AWhile(r) => r.exit <= pc case AForever(b) => b < pc case _ => true
    ensures EmitRange(fn, t, s, e, ks).Err?
  {
    hide EmitRange, EmitConstruct, EmitWhile, EmitForever, EmitBranch, EmitLeaf;
    StartStep(fn, t, s, e, ks);
    var c := EmitConstruct(fn, t, s, e, ks);
    if c.Next? {
      if c.pc <= pc {
        RefusedBack(fn, t, c.pc, e, c.stack, pc);
      } else {
        ConstructJumps(fn, t, s, e, ks);
        ConstructEnds(fn, t, s, e, ks);
        assert JumpIn(fn, t, pc, s + 1, e);
      }
    }
  }

  lemma ConstructEnds(fn: Mir.Function, t: Targets, s: nat, e: nat, ks: Kinds)
    requires s < e <= |fn.insts| && EmitConstruct(fn, t, s, e, ks).Next?
    ensures match KindAt(fn, t, s, e)
      case AWhile(r) => EmitConstruct(fn, t, s, e, ks).pc == r.exit
      case AForever(b) => EmitConstruct(fn, t, s, e, ks).pc == b + 1
      case _ => true
  {
    hide EmitWhile, EmitForever, EmitBranch, EmitLeaf;
  }

  lemma StartStep(fn: Mir.Function, t: Targets, s: nat, e: nat, ks: Kinds)
    requires s < e <= |fn.insts|
    ensures var c := EmitConstruct(fn, t, s, e, ks);
      (c.Fail? || EmitRange(fn, t, c.pc, e, c.stack).Err? ==> EmitRange(fn, t, s, e, ks).Err?)
  {
    hide EmitConstruct;
  }
}
