/**
 * Where code stands when the emitter reaches it, what is claimed of it there, and how branches of statements
 * are cut into arms.
 */
module Placement {
  import opened Words
  import opened StackMap
  import opened Emitter
  import opened Recognition
  import opened Structured
  import opened Expressions
  import opened Statements
  import opened LoopShapes
  import opened Jumps
  import Mir

  // ---- where code stands ---------------------------------------------------------------------------

  /** The emitter's labels: `mark` for `continue`, the exit of the loop for `break`. */
  predicate Labelled(t: Targets, x: Exits, mark: Option<nat>) {
    && (t.continue_.Some? <==> mark.Some?) && (mark.Some? ==> t.continue_.value.pc == mark.value)
    && (t.break_.Some? <==> x.InLoop?) && (x.InLoop? ==> t.break_.value.pc == x.out)
  }

  /** Labels and exits are not inside [at, end), and a `continue` that goes forward has its label. */
  predicate Room(x: Exits, mark: Option<nat>, at: nat, end: nat, loops: bool, cont: bool) {
    && (mark.Some? ==> mark.value <= at || mark.value >= end)
    && (at < end && mark == Some(at) ==> !loops && x.InLoop? && x.next == at)
    && (x.InLoop? ==>
          && x.out > end && (x.next <= at || x.next >= end)
          && (at < end && x.next == at ==> mark == Some(at))
          && (at < end && cont && x.next >= end ==> mark == Some(x.next)))
  }

  ghost predicate Placed(fn: Mir.Function, k: seq<Kinds>, t: Targets, code: seq<Stmt>, at: nat, e: nat, x: Exits,
      mark: Option<nat>)
  {
    && Ready(fn, k) && Stands(fn, code, at, x) && Settled(k, code, at) && at + Size(code) <= e <= |fn.insts|
    && Labelled(t, x, mark) && Room(x, mark, at, at + Size(code), LeadHasLoop(code), HasContinue(code))
    && Quiet(fn, t, at, at + Size(code), at + Size(code), e)
  }

  ghost predicate StmtPlaced(fn: Mir.Function, k: seq<Kinds>, t: Targets, s: Stmt, at: nat, e: nat, x: Exits,
      mark: Option<nat>)
  {
    && Ready(fn, k) && StmtStands(fn, s, at, x) && at + StmtSize(s) <= e <= |fn.insts|
    && |k| == |fn.insts| + 1 && StmtSettled(k, s, at) && k[at] == [] && k[at + StmtSize(s)] == []
    && Labelled(t, x, mark) && Room(x, mark, at, at + StmtSize(s), LeadStmtHasLoop(s), StmtHasContinue(s))
    && Quiet(fn, t, at, at + StmtSize(s), at + StmtSize(s), e)
  }

  /** Code in [at, end) that fits is emitted, whatever follows it; other code is refused. */
  predicate Verdict(fn: Mir.Function, k: seq<Kinds>, t: Targets, at: nat, end: nat, e: nat, fits: bool) {
    && at <= end <= e <= |fn.insts| && |k| == |fn.insts| + 1
    && (fits ==> Like(EmitRange(fn, t, at, e, k[at]), EmitRange(fn, t, end, e, k[end])))
    && (!fits ==> EmitRange(fn, t, at, e, k[at]).Err?)
  }

  lemma VerdictJoin(fn: Mir.Function, k: seq<Kinds>, t: Targets, a: nat, b: nat, c: nat, e: nat,
      f1: bool, f2: bool)
    requires Verdict(fn, k, t, a, b, e, f1) && Verdict(fn, k, t, b, c, e, f2)
    ensures Verdict(fn, k, t, a, c, e, f1 && f2)
  {
    hide EmitRange;
  }

  lemma VerdictEmpty(fn: Mir.Function, k: seq<Kinds>, t: Targets, a: nat, e: nat)
    requires a <= e <= |fn.insts| && |k| == |fn.insts| + 1
    ensures Verdict(fn, k, t, a, a, e, true)
  {
    hide EmitRange;
  }

  /** What a verdict on a whole range says. */
  lemma VerdictWhole(fn: Mir.Function, k: seq<Kinds>, t: Targets, a: nat, b: nat, fits: bool)
    requires Verdict(fn, k, t, a, b, b, fits)
    ensures |k| == |fn.insts| + 1
    ensures fits ==> EmitRange(fn, t, a, b, k[a]).Ok? && EmitRange(fn, t, a, b, k[a]).stack == k[b]
    ensures !fits ==> EmitRange(fn, t, a, b, k[a]).Err?
  {
    EmptyRange(fn, t, b, k[b]);
  }

  lemma RoomPart(x: Exits, mark: Option<nat>, at: nat, end: nat, loops: bool, cont: bool, at2: nat, end2: nat,
      loops2: bool, cont2: bool)
    requires Room(x, mark, at, end, loops, cont) && at <= at2 <= end2 <= end
    requires (at == at2 < end2 && loops2 ==> loops) && (cont2 ==> cont)
    ensures Room(x, mark, at2, end2, loops2, cont2)
  {
  }

  /** Jumps of code behind [lo, hi) do not go back into it. */
  lemma QuietCode(fn: Mir.Function, k: seq<Kinds>, t: Targets, x: Exits, mark: Option<nat>, lo: nat, hi: nat, end: nat,
      loops: bool, cont: bool, a: nat, b: nat, lo2: nat, hi2: nat, loops2: bool, cont2: bool)
    requires |k| == |fn.insts| + 1 && CodeJumps(fn, k, a, b, lo2, hi2, x, loops2, cont2)
    requires Labelled(t, x, mark) && Room(x, mark, lo, end, loops, cont) && lo <= hi <= lo2 <= a && hi <= end
    ensures Quiet(fn, t, lo, hi, a, b)
  {
    forall pc | a <= pc < b && pc < |fn.insts|
      ensures QuietAt(fn, t, lo, hi, pc)
    {
      assert CodeJump(fn, k, lo2, hi2, x, loops2, cont2, pc);
    }
  }

  lemma {:induction false} HeadPlaced(fn: Mir.Function, k: seq<Kinds>, t: Targets, code: seq<Stmt>, at: nat, e: nat,
      x: Exits, mark: Option<nat>)
    requires Placed(fn, k, t, code, at, e, x, mark) && code != []
    ensures StmtPlaced(fn, k, t, code[0], at, e, x, mark)
    ensures Placed(fn, k, t, code[1..], at + StmtSize(code[0]), e, x, mark)
  {
    hide Ready, StmtStands, StmtSettled, Quiet, Room, Labelled, HasLoop, LeadStmtHasLoop, StmtHasContinue, CodeJumps;
    var mid, end := at + StmtSize(code[0]), at + Size(code);
    var loops, cont := LeadHasLoop(code), HasContinue(code);
    Lengths(fn, k);
    JumpsOfCode(fn, k, code[1..], mid, x);
    RoomPart(x, mark, at, end, loops, cont, at, mid, LeadStmtHasLoop(code[0]), StmtHasContinue(code[0]));
    RoomPart(x, mark, at, end, loops, cont, mid, end, LeadHasLoop(code[1..]), HasContinue(code[1..]));
    QuietCode(fn, k, t, x, mark, at, mid, end, loops, cont, mid, end, mid, end, HasLoop(code[1..]),
              HasContinue(code[1..]));
    QuietPart(fn, t, at, end, at, mid, end, e);
    QuietPart(fn, t, at, end, mid, end, end, e);
    QuietJoin(fn, t, at, mid, mid, end, e);
  }

  // ---- jumps out of a loop -------------------------------------------------------------------------

  lemma JumpEmitted(fn: Mir.Function, k: seq<Kinds>, t: Targets, at: nat, e: nat, d: nat)
    requires at < e <= |fn.insts| && |k| == |fn.insts| + 1 && InstIs(fn, at, Mir.Jump(d)) && k[at] == k[at + 1]
    requires Quiet(fn, t, at, at + 1, at + 1, e) && (d == at ==> ContinuesAt(t, at))
    ensures Verdict(fn, k, t, at, at + 1, e, HasLabel(t, d))
  {
    hide EmitRange, KindAt;
    assert Quiet(fn, t, at, at + 1, at, e);
    NotALoop(fn, t, at, e);
    StepOn(fn, t, at, e, k[at]);
    NestLabels(t, d);
  }

  lemma BackKinds(fn: Mir.Function, k: seq<Kinds>, pc: nat, h: nat)
    requires Ready(fn, k) && InstIs(fn, pc, Mir.Jump(h))
    ensures |k| == |fn.insts| + 1 && h < |k| && k[pc] == k[h]
  {
    hide Low, DiamondsClosed;
    ReadyAt(fn, k, pc);
  }

  // ---- branches ------------------------------------------------------------------------------------

  /** A branch that is not an operator is cut where its first arm ends. */
  lemma BranchCut(fn: Mir.Function, t: Targets, b: nat, f: nat, e: nat, ks: Kinds)
    requires b < f <= e <= |fn.insts| && KindAt(fn, t, b, e) == ABranch && InstIs(fn, b, Mir.JumpIfFalse(f))
    requires OrShape(fn, b, e).None? && AndShape(fn, b, e).None? && |ks| > 0 && ks[|ks| - 1] == Mir.KI32
    ensures EmitConstruct(fn, t, b, e, ks) ==
      if f == b + 1 then Fail(ControlFlowShape)
      else
        match ShapeOfBranch(fn, t, f, e)
        case BadShape => Fail(ControlFlowShape)
        case OnlyThen => At(EmitIf(fn, t, b, f, ks[..|ks| - 1]), f)
        case ThenElse(merge) => At(EmitIfElse(fn, t, b, f, merge, ks[..|ks| - 1]), merge)
  {
    hide KindAt, EmitIf, EmitIfElse, EmitOr, EmitAnd, OrShape, AndShape;
  }

  /** Where no operands are pending at the ends of both arms, there is no operator. */
  lemma NoOperator(fn: Mir.Function, k: seq<Kinds>, b: nat, f: nat, e: nat)
    requires Ready(fn, k) && b < f <= e <= |fn.insts| && InstIs(fn, b, Mir.JumpIfFalse(f))
    requires |k| == |fn.insts| + 1 && k[b + 1] == []
    requires fn.insts[f - 1].Jump? && b + 1 < f ==> k[f - 1] == [] || fn.insts[f - 1].dest <= f
    ensures OrShape(fn, b, e).None? && AndShape(fn, b, e).None?
  {
    hide Ready, Low, DiamondsClosed;
    if OrShape(fn, b, e).Some? {
      ReadyAt(fn, k, b + 1);
    }
    if AndShape(fn, b, e).Some? {
      BackKinds(fn, k, f - 1, f + 1);
      ReadyAt(fn, k, f);
    }
  }

  /** An arm that is not left by a jump to its join is an `if` of its own. */
  lemma ArmShape(fn: Mir.Function, k: seq<Kinds>, t: Targets, x: Exits, mark: Option<nat>, at: nat, a: nat, f: nat,
      e: nat,
      loops: bool, cont: bool)
    requires |k| == |fn.insts| + 1 && at <= a < f <= e <= |fn.insts| && CodeJumps(fn, k, a, f, a, f, x, loops, cont)
    requires Labelled(t, x, mark) && Room(x, mark, at, f, loops, cont)
    ensures ShapeOfBranch(fn, t, f, e).OnlyThen?
    ensures fn.insts[f - 1].Jump? ==> k[f - 1] == [] || fn.insts[f - 1].dest <= f
  {
    assert CodeJump(fn, k, a, f, x, loops, cont, f - 1);
  }

  lemma NestLabelled(t: Targets, x: Exits, mark: Option<nat>)
    requires Labelled(t, x, mark)
    ensures Labelled(Nest(t), x, mark)
  {
  }

  /** Code that starts a range of its own. */
  lemma WholePlaced(fn: Mir.Function, k: seq<Kinds>, t: Targets, code: seq<Stmt>, at: nat, x: Exits, mark: Option<nat>)
    requires Ready(fn, k) && Stands(fn, code, at, x) && Settled(k, code, at)
    requires Labelled(t, x, mark) && Room(x, mark, at, at + Size(code), LeadHasLoop(code), HasContinue(code))
    ensures Placed(fn, k, t, code, at, at + Size(code), x, mark)
  {
    hide Ready, Stands, Settled, CodeJumps;
    Lengths(fn, k);
    JumpsOfCode(fn, k, code, at, x);
  }

  lemma CondEmitted(fn: Mir.Function, k: seq<Kinds>, t: Targets, c: seq<Term>, at: nat, e: nat, f: nat)
    requires Ready(fn, k) && TermsStand(fn, c, at) && at + Len(c) < e <= |fn.insts|
    requires InstIs(fn, at + Len(c), Mir.JumpIfFalse(f)) && Quiet(fn, t, at, at + Len(c) + 1, at + Len(c), e)
    ensures Verdict(fn, k, t, at, at + Len(c), e, TermsFit(c))
    ensures KindAt(fn, t, at + Len(c), e) == ABranch
  {
    hide Ready, EmitRange, KindAt, Quiet, Like;
    var b := at + Len(c);
    QuietPart(fn, t, at, b + 1, at, b, b, e);
    QuietPart(fn, t, at, b + 1, b, b + 1, b, e);
    TermsEmitted(fn, k, t, c, at, e);
    NotALoop(fn, t, b, e);
  }

  lemma QuietBranch(fn: Mir.Function, t: Targets, lo: nat, b: nat)
    requires b < |fn.insts| && fn.insts[b].JumpIfFalse?
    ensures Quiet(fn, t, lo, b + 1, b, b + 1)
  {
  }

  lemma SettledStart(k: seq<Kinds>, code: seq<Stmt>, at: nat)
    requires Settled(k, code, at)
    ensures at < |k| && k[at] == []
  {
  }

  lemma QuietForward(fn: Mir.Function, t: Targets, lo: nat, hi: nat, pc: nat, d: nat)
    requires InstIs(fn, pc, Mir.Jump(d)) && hi <= d
    ensures Quiet(fn, t, lo, hi, pc, pc + 1)
  {
  }

  lemma QuietMark(fn: Mir.Function, t: Targets, lo: nat, hi: nat, pc: nat)
    requires pc < |fn.insts| && fn.insts[pc].Jump? && ContinuesAt(t, fn.insts[pc].dest)
    ensures Quiet(fn, t, lo, hi, pc, pc + 1)
  {
  }

  /** How an `if` with `else` is cut. */
  predicate CutAs(c: Construct, fn: Mir.Function, t: Targets, b: nat, f: nat, e: nat, ks: Kinds)
    requires b < f <= e <= |fn.insts|
  {
    c == match ShapeOfBranch(fn, t, f, e)
      case BadShape => Fail(ControlFlowShape)
      case OnlyThen => if b + 1 < f then At(EmitIf(fn, t, b, f, ks), f) else Fail(ControlFlowShape)
      case ThenElse(merge) =>
        if b + 1 < f < merge <= |fn.insts| then At(EmitIfElse(fn, t, b, f, merge, ks), merge)
          else Fail(ControlFlowShape)
  }

  lemma IfElseCut(fn: Mir.Function, k: seq<Kinds>, t: Targets, s: Stmt, at: nat, e: nat, x: Exits)
    requires s.IfElse? && Ready(fn, k) && StmtStands(fn, s, at, x) && StmtSettled(k, s, at)
    requires at + StmtSize(s) <= e <= |fn.insts| && NonePending(k, at + StmtSize(s))
    requires KindAt(fn, t, at + Len(s.cond), e) == ABranch
    ensures |k| == |fn.insts| + 1
    ensures var b := at + Len(s.cond);
      var f := b + 1 + Size(s.thn) + 1;
      CutAs(EmitConstruct(fn, t, b, e, k[b]), fn, t, b, f, e, k[b + 1]) && k[b + 1] == k[f - 1] == k[f] == []
  {
    hide Ready, TermsStand, Stands, Len, Size, HasLoop, HasContinue, KindAt, Quiet, Settled, EmitRange, OrShape,
      AndShape, EmitConstruct, EmitIf, EmitIfElse;
    var b := at + Len(s.cond);
    var f := b + 1 + Size(s.thn) + 1;
    BranchKinds(fn, k, b, f);
    SettledStart(k, s.thn, b + 1); SettledEnd(k, s.thn, b + 1);
    NoOperator(fn, k, b, f, e);
    BranchCut(fn, t, b, f, e, k[b]);
  }

  lemma QuietSome(fn: Mir.Function, t: Targets, lo: nat, hi: nat, a: nat, b: nat, b2: nat)
    requires Quiet(fn, t, lo, hi, a, b) && b2 <= b
    ensures Quiet(fn, t, lo, hi, a, b2)
  {
  }
}
