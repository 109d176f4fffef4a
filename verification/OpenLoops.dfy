/**
 * Endless loops that begin where another endless loop does. The emitter sees one loop: it has no label for the
 * end of the inner one, and reads an `if` that ends in `break` together with what follows as `if` and `else`.
 */
module OpenLoops {
  import opened Words
  import opened StackMap
  import opened Emitter
  import opened Recognition
  import opened Structured
  import opened Expressions
  import opened Statements
  import opened LoopShapes
  import opened Jumps
  import opened Placement
  import Mir

  /** An empty loop there is read as an `if` that continues. */
  lemma OpenWhile(fn: Mir.Function, k: seq<Kinds>, t: Targets, s: Stmt, at: nat, e: nat, x: Exits, mark: Option<nat>)
    requires s.While? && StmtPlaced(fn, k, t, s, at, e, x, mark) && mark == Some(at)
    ensures Verdict(fn, k, t, at, at + StmtSize(s), e, TermsFit(s.cond)) && Size(s.body) + Len(s.post) == 0
  {
    hide Ready, TermsStand, Stands, Len, Size, Quiet, Settled, Verdict, KindAt, TermsFit;
    var b, end := at + Len(s.cond), at + StmtSize(s);
    QuietPart(fn, t, at, end, at, b + 1, end, e);
    QuietBranch(fn, t, at, b);
    QuietMark(fn, t, at, b + 1, end - 1);
    QuietJoin(fn, t, at, b + 1, b, b + 1, end);
    QuietJoin(fn, t, at, b + 1, b, end, e);
    CondEmitted(fn, k, t, s.cond, at, e, end);
    OpenWhileBranch(fn, k, t, s, at, e, x, mark);
    VerdictJoin(fn, k, t, at, b, end, e, TermsFit(s.cond), true);
  }

  lemma OpenWhileBranch(fn: Mir.Function, k: seq<Kinds>, t: Targets, s: Stmt, at: nat, e: nat, x: Exits,
      mark: Option<nat>)
    requires s.While? && StmtPlaced(fn, k, t, s, at, e, x, mark) && mark == Some(at)
    requires KindAt(fn, t, at + Len(s.cond), e) == ABranch
    ensures Verdict(fn, k, t, at + Len(s.cond), at + StmtSize(s), e, true)
  {
    hide Ready, TermsStand, Stands, Len, Size, Quiet, Settled, KindAt, EmitRange, EmitConstruct, OrShape, AndShape;
    var b, end := at + Len(s.cond), at + StmtSize(s);
    BranchKinds(fn, k, b, end);
    SettledStart(k, s.body, b + 1);
    NoOperator(fn, k, b, end, e);
    BranchCut(fn, t, b, end, e, k[b]);
    NothingBehind(fn, Nest(t), b + 1, end, end);
    JumpEmitted(fn, k, Nest(t), b + 1, end, at);
    NestLabels(t, at);
    VerdictWhole(fn, k, Nest(t), b + 1, end, true);
    StepOn(fn, t, b, e, k[b]);
  }

  /** The body of an endless loop at the header `h` of the loop around it; `out` is where it ends. */
  ghost predicate OpenPlaced(fn: Mir.Function, k: seq<Kinds>, t: Targets, code: seq<Stmt>, at: nat, e: nat, x: Exits,
      h: nat, out: nat)
  {
    && Ready(fn, k) && Stands(fn, code, at, InLoop(h, out)) && Settled(k, code, at) && at + Size(code) + 1 == out
    && InstIs(fn, out - 1, Mir.Jump(h)) && NonePending(k, h) && NonePending(k, out) && out <= e <= |fn.insts|
    && x.InLoop? && x.next == h <= at && x.out > out && Labelled(t, x, Some(h)) && (at == h ==> !LeadHasLoop(code))
    && Quiet(fn, t, at, out, out, e)
  }

  lemma HeadStands(fn: Mir.Function, code: seq<Stmt>, at: nat, x: Exits)
    requires Stands(fn, code, at, x) && code != []
    ensures StmtStands(fn, code[0], at, x) && Stands(fn, code[1..], at + StmtSize(code[0]), x)
  {
  }

  lemma HeadSettled(k: seq<Kinds>, code: seq<Stmt>, at: nat)
    requires Settled(k, code, at) && code != []
    ensures NonePending(k, at) && StmtSettled(k, code[0], at) && Settled(k, code[1..], at + StmtSize(code[0]))
    ensures NonePending(k, at + StmtSize(code[0]))
  {
  }

  lemma NotEmpty(code: seq<Stmt>)
    requires HasBreak(code)
    ensures Size(code) > 0
  {
    if code != [] && !StmtHasBreak(code[0]) {
      NotEmpty(code[1..]);
    }
  }

  /** No jump of what follows in the loop goes back into its front. */
  lemma OpenTailQuiet(fn: Mir.Function, k: seq<Kinds>, t: Targets, code: seq<Stmt>, at: nat, e: nat, x: Exits, h: nat,
      out: nat, lo: nat, a: nat)
    requires OpenPlaced(fn, k, t, code, lo, e, x, h, out) && lo <= at <= a <= out - 1
    requires |k| == |fn.insts| + 1
    requires CodeJumps(fn, k, a, out - 1, a, out - 1, InLoop(h, out), true, true)
    ensures Quiet(fn, t, lo, at, a, e)
  {
    hide Ready, Stands, Settled, LeadHasLoop, Size;
    forall pc | a <= pc < e && pc < |fn.insts|
      ensures QuietAt(fn, t, lo, at, pc)
    {
      if pc < out - 1 {
        assert CodeJump(fn, k, a, out - 1, InLoop(h, out), true, true, pc);
      } else if pc >= out {
        assert QuietAt(fn, t, lo, out, pc);
      }
    }
  }

  lemma OpenTail(fn: Mir.Function, k: seq<Kinds>, t: Targets, code: seq<Stmt>, at: nat, e: nat, x: Exits, h: nat,
      out: nat)
    requires OpenPlaced(fn, k, t, code, at, e, x, h, out) && code != []
    ensures OpenPlaced(fn, k, t, code[1..], at + StmtSize(code[0]), e, x, h, out)
    ensures Quiet(fn, t, at, at + StmtSize(code[0]), at + StmtSize(code[0]), e)
  {
    hide Ready, StmtStands, StmtSettled, Quiet, HasLoop, LeadStmtHasLoop, CodeJumps;
    var mid := at + StmtSize(code[0]);
    Lengths(fn, k);
    QuietPart(fn, t, at, out, mid, out, out, e);
    JumpsOfCode(fn, k, code[1..], mid, InLoop(h, out));
    JumpsWiden(fn, k, mid, out - 1, mid, out - 1, InLoop(h, out), HasLoop(code[1..]), HasContinue(code[1..]),
               mid, out - 1, true, true);
    OpenTailQuiet(fn, k, t, code, mid, e, x, h, out, at, mid);
  }

  lemma OpenHead(fn: Mir.Function, k: seq<Kinds>, t: Targets, code: seq<Stmt>, at: nat, e: nat, x: Exits, h: nat,
      out: nat)
    requires OpenPlaced(fn, k, t, code, at, e, x, h, out) && code != [] && !StmtHasBreak(code[0])
    requires Quiet(fn, t, at, at + StmtSize(code[0]), at + StmtSize(code[0]), e)
    ensures StmtPlaced(fn, k, t, code[0], at, e, x, Some(h))
  {
    hide Ready, StmtStands, StmtSettled, Quiet, HasLoop, LeadStmtHasLoop, StmtHasBreak, StmtHasContinue;
    Lengths(fn, k);
    RestandStmt(fn, code[0], at, InLoop(h, out), x);
    HeadSettled(k, code, at);
  }

  /** The condition of the first statement is followed by its branch, and nothing goes back to either. */
  lemma OpenQuiet(fn: Mir.Function, k: seq<Kinds>, t: Targets, code: seq<Stmt>, at: nat, e: nat, x: Exits, h: nat,
      out: nat)
    requires OpenPlaced(fn, k, t, code, at, e, x, h, out) && code != [] && code[0].IfThen?
    ensures var b := at + Len(code[0].cond); Quiet(fn, t, at, b + 1, b, e)
  {
    hide Ready, Stands, Settled, Quiet, LeadHasLoop, CodeJumps, TermsStand, Len, Size, HasLoop, HasContinue;
    var s := code[0];
    var b, mid := at + Len(s.cond), at + StmtSize(s);
    Lengths(fn, k);
    HeadStands(fn, code, at, InLoop(h, out));
    HeadSettled(k, code, at);
    OpenTail(fn, k, t, code, at, e, x, h, out);
    JumpsOfCode(fn, k, s.thn, b + 1, InLoop(h, out));
    QuietArm(fn, k, t, at, b + 1, mid, b + 1, mid, x, h, out, HasLoop(s.thn), HasContinue(s.thn));
    QuietPart(fn, t, at, mid, at, b + 1, mid, e);
    QuietBranch(fn, t, at, b);
    QuietJoin(fn, t, at, b + 1, b, b + 1, mid);
    QuietJoin(fn, t, at, b + 1, b, mid, e);
  }

  /** Jumps of an arm in such a loop. */
  lemma QuietArm(fn: Mir.Function, k: seq<Kinds>, t: Targets, lo: nat, a: nat, b: nat, lo2: nat, hi2: nat, x: Exits,
      h: nat, out: nat, loops: bool, cont: bool)
    requires |k| == |fn.insts| + 1 && CodeJumps(fn, k, a, b, lo2, hi2, InLoop(h, out), loops, cont)
    requires Labelled(t, x, Some(h)) && lo <= a <= lo2 && a <= out && h <= lo
    ensures Quiet(fn, t, lo, a, a, b)
  {
    forall pc | a <= pc < b && pc < |fn.insts|
      ensures QuietAt(fn, t, lo, a, pc)
    {
      assert CodeJump(fn, k, lo2, hi2, InLoop(h, out), loops, cont, pc);
    }
  }

  /** A jump out of a range for which there is no label. */
  lemma RefusedOut(fn: Mir.Function, t: Targets, s: nat, e: nat, ks: Kinds, pc: nat)
    requires s <= pc < e <= |fn.insts| && fn.insts[pc].Jump? && fn.insts[pc].dest > e
      && !HasLabel(t, fn.insts[pc].dest)
    ensures EmitRange(fn, t, s, e, ks).Err?
  {
    hide EmitRange;
    JumpsOfAccepted(fn, t, s, e, ks, pc);
  }

  /** How the branch of an `if` with a `break` is cut. */
  predicate IsCut(fn: Mir.Function, k: seq<Kinds>, t: Targets, s: Stmt, at: nat, e: nat)
    requires s.IfThen? && at + StmtSize(s) <= e <= |fn.insts| && |k| == |fn.insts| + 1 && Size(s.thn) > 0
  {
    var b, f := at + Len(s.cond), at + StmtSize(s);
    CutAs(EmitConstruct(fn, t, b, e, k[b]), fn, t, b, f, e, k[b + 1])
  }

  lemma BreakCut(fn: Mir.Function, k: seq<Kinds>, t: Targets, code: seq<Stmt>, at: nat, e: nat, x: Exits, h: nat,
      out: nat)
    requires OpenPlaced(fn, k, t, code, at, e, x, h, out) && code != [] && code[0].IfThen? && StmtHasBreak(code[0])
    requires KindAt(fn, t, at + Len(code[0].cond), e) == ABranch
    ensures |k| == |fn.insts| + 1 && Size(code[0].thn) > 0 && at + StmtSize(code[0]) <= e
    ensures IsCut(fn, k, t, code[0], at, e)
    ensures var f := at + StmtSize(code[0]);
      f < out && (fn.insts[f - 1] != Mir.Jump(out) ==> ShapeOfBranch(fn, t, f, e).OnlyThen?)
  {
    hide Ready, Stands, Settled, Quiet, LeadHasLoop, CodeJumps, TermsStand, Len, Size, HasLoop, HasContinue, KindAt,
      EmitConstruct, OrShape, AndShape, EmitIf, EmitIfElse, HasBreak;
    var s := code[0];
    var b, f := at + Len(s.cond), at + StmtSize(s);
    Lengths(fn, k);
    HeadStands(fn, code, at, InLoop(h, out));
    HeadSettled(k, code, at);
    SettledStart(k, s.thn, b + 1);
    NotEmpty(s.thn);
    TailSize(code);
    JumpsOfCode(fn, k, s.thn, b + 1, InLoop(h, out));
    JumpThere(fn, k, b + 1, f, b + 1, f, InLoop(h, out), HasLoop(s.thn), HasContinue(s.thn), f - 1);
    BranchKinds(fn, k, b, f);
    NoOperator(fn, k, b, f, e);
    BranchCut(fn, t, b, f, e, k[b]);
  }

  lemma TailSize(code: seq<Stmt>)
    requires code != []
    ensures StmtSize(code[0]) <= Size(code)
  {
  }

  /** A `break` that does not end the `if`. */
  lemma IfBreakRefused(fn: Mir.Function, k: seq<Kinds>, t: Targets, code: seq<Stmt>, at: nat, e: nat, x: Exits, h: nat,
      out: nat)
    requires OpenPlaced(fn, k, t, code, at, e, x, h, out) && code != [] && code[0].IfThen? && StmtHasBreak(code[0])
    requires |k| == |fn.insts| + 1 && Size(code[0].thn) > 0 && at + StmtSize(code[0]) <= e
    requires IsCut(fn, k, t, code[0], at, e)
    requires ShapeOfBranch(fn, t, at + StmtSize(code[0]), e).OnlyThen? && at + StmtSize(code[0]) < out
    requires fn.insts[at + StmtSize(code[0]) - 1] != Mir.Jump(out)
    ensures !BreakFits(code[0].thn, at + Len(code[0].cond) + 1, x, Some(h))
    ensures Verdict(fn, k, t, at + Len(code[0].cond), out, e, false)
  {
    hide Ready, Stands, Settled, Quiet, LeadHasLoop, TermsStand, Len, Size, EmitConstruct, EmitRange, HasBreak,
      ShapeOfBranch, BreakFits;
    var s := code[0];
    var b, f := at + Len(s.cond), at + StmtSize(s);
    HeadStands(fn, code, at, InLoop(h, out));
    var pc := FindBreak(fn, s.thn, b + 1, InLoop(h, out));
    NestLabels(t, out);
    RefusedOut(fn, Nest(t), b + 1, f, k[b + 1], pc);
    StepOn(fn, t, b, e, k[b]);
    if BreakFits(s.thn, b + 1, x, Some(h)) {
      BreakFitsEnds(fn, s.thn, b + 1, InLoop(h, out), x, Some(h));
    }
  }

  lemma {:induction false} BreakFitsEnds(fn: Mir.Function, code: seq<Stmt>, at: nat, y: Exits, x: Exits,
      mark: Option<nat>)
    requires Stands(fn, code, at, y) && BreakFits(code, at, x, mark) && y.InLoop?
    ensures Size(code) > 0 && InstIs(fn, at + Size(code) - 1, Mir.Jump(y.out))
    decreases code
  {
    hide StmtStands, StmtFits;
    HeadStands(fn, code, at, y);
    if !code[0].Break? {
      BreakFitsEnds(fn, code[1..], at + StmtSize(code[0]), y, x, mark);
    } else {
      BreakStands(fn, at, y);
    }
  }

  lemma BreakStands(fn: Mir.Function, at: nat, y: Exits)
    requires StmtStands(fn, Break, at, y)
    ensures y.InLoop? && InstIs(fn, at, Mir.Jump(y.out))
  {
  }

  /** A `break` in an `if` with `else`, or by itself. */
  lemma StrayRefused(fn: Mir.Function, k: seq<Kinds>, t: Targets, code: seq<Stmt>, at: nat, e: nat, x: Exits, h: nat,
      out: nat)
    requires OpenPlaced(fn, k, t, code, at, e, x, h, out) && code != [] && StmtHasBreak(code[0]) && !code[0].IfThen?
    ensures Verdict(fn, k, t, at, out, e, false)
  {
    hide Ready, StmtStands, StmtSettled, Quiet, LeadHasLoop, EmitRange, HasBreak, Size;
    var s := code[0];
    Lengths(fn, k);
    HeadStands(fn, code, at, InLoop(h, out));
    HeadSettled(k, code, at);
    OpenTail(fn, k, t, code, at, e, x, h, out);
    if s.Break? {
      BreakStands(fn, at, InLoop(h, out));
      JumpEmitted(fn, k, t, at, e, out);
    } else {
      StrayElse(fn, k, t, code, at, e, x, h, out);
    }
  }

  lemma StrayElse(fn: Mir.Function, k: seq<Kinds>, t: Targets, code: seq<Stmt>, at: nat, e: nat, x: Exits, h: nat,
      out: nat)
    requires OpenPlaced(fn, k, t, code, at, e, x, h, out) && code != [] && StmtHasBreak(code[0]) && code[0].IfElse?
    requires Quiet(fn, t, at, at + StmtSize(code[0]), at + StmtSize(code[0]), e)
    ensures Verdict(fn, k, t, at, out, e, false)
  {
    hide Ready, Stands, Settled, Quiet, LeadHasLoop, EmitRange, HasBreak, Len, Size, TermsStand, TermsFit, KindAt,
      CodeJumps, HasLoop, HasContinue, LeadStmtHasLoop;
    var s := code[0];
    var b, mid := at + Len(s.cond), at + StmtSize(s);
    var f := b + 1 + Size(s.thn) + 1;
    Lengths(fn, k);
    HeadStands(fn, code, at, InLoop(h, out));
    HeadSettled(k, code, at);
    TailSize(code);
    JumpsOfCode(fn, k, s.thn, b + 1, InLoop(h, out));
    JumpsOfCode(fn, k, s.els, f, InLoop(h, out));
    QuietArm(fn, k, t, at, b + 1, f - 1, b + 1, f - 1, x, h, out, HasLoop(s.thn), HasContinue(s.thn));
    QuietLater(fn, k, t, at, b + 1, f, mid, f, mid, x, h, out, HasLoop(s.els), HasContinue(s.els));
    QuietForward(fn, t, at, b + 1, f - 1, mid);
    QuietPart(fn, t, at, mid, at, b + 1, mid, e);
    QuietBranch(fn, t, at, b);
    QuietJoin(fn, t, at, b + 1, b, b + 1, f - 1);
    QuietJoin(fn, t, at, b + 1, b, f - 1, f);
    QuietJoin(fn, t, at, b + 1, b, f, mid);
    QuietJoin(fn, t, at, b + 1, b, mid, e);
    CondEmitted(fn, k, t, s.cond, at, e, f);
    StrayArms(fn, k, t, s, at, e, x, h, out);
  }

  lemma QuietLater(fn: Mir.Function, k: seq<Kinds>, t: Targets, lo: nat, hi: nat, a: nat, b: nat, lo2: nat, hi2: nat,
      x: Exits, h: nat, out: nat, loops: bool, cont: bool)
    requires |k| == |fn.insts| + 1 && CodeJumps(fn, k, a, b, lo2, hi2, InLoop(h, out), loops, cont)
    requires Labelled(t, x, Some(h)) && lo <= hi <= a <= lo2 && hi <= out && h <= lo
    ensures Quiet(fn, t, lo, hi, a, b)
  {
    forall pc | a <= pc < b && pc < |fn.insts|
      ensures QuietAt(fn, t, lo, hi, pc)
    {
      assert CodeJump(fn, k, lo2, hi2, InLoop(h, out), loops, cont, pc);
    }
  }

  lemma StrayArms(fn: Mir.Function, k: seq<Kinds>, t: Targets, s: Stmt, at: nat, e: nat, x: Exits, h: nat, out: nat)
    requires s.IfElse? && Ready(fn, k) && StmtStands(fn, s, at, InLoop(h, out)) && StmtSettled(k, s, at)
    requires StmtHasBreak(s) && at + StmtSize(s) < out <= e <= |fn.insts| && NonePending(k, at + StmtSize(s))
    requires KindAt(fn, t, at + Len(s.cond), e) == ABranch
    requires x.InLoop? && x.next == h <= at && x.out > out && Labelled(t, x, Some(h))
    ensures |k| == |fn.insts| + 1 && EmitRange(fn, t, at + Len(s.cond), e, k[at + Len(s.cond)]).Err?
  {
    hide Ready, Stands, Settled, EmitRange, HasBreak, Len, Size, TermsStand, KindAt, EmitConstruct;
    var b, end := at + Len(s.cond), at + StmtSize(s);
    var f := b + 1 + Size(s.thn) + 1;
    IfElseCut(fn, k, t, s, at, e, InLoop(h, out));
    NestLabels(t, out);
    assert !HasLabel(t, out) && !HasLabel(t, end);
    if HasBreak(s.thn) {
      var pc := FindBreak(fn, s.thn, b + 1, InLoop(h, out));
      RefusedOut(fn, Nest(t), b + 1, f, k[b + 1], pc);
      RefusedOut(fn, Nest(t), b + 1, f - 1, k[b + 1], pc);
    } else {
      var pc := FindBreak(fn, s.els, f, InLoop(h, out));
      ElseRefused(fn, t, b, f, end, k[b + 1], pc);
    }
    StepOn(fn, t, b, e, k[b]);
  }

  lemma ElseRefused(fn: Mir.Function, t: Targets, b: nat, f: nat, end: nat, ks: Kinds, pc: nat)
    requires b + 1 < f <= pc < end <= |fn.insts| && fn.insts[pc].Jump? && fn.insts[pc].dest > end
    requires !HasLabel(Nest(t), fn.insts[pc].dest)
    ensures EmitIfElse(fn, t, b, f, end, ks).Err?
  {
    hide EmitRange;
    if EmitRange(fn, Nest(t), b + 1, f - 1, ks).Ok? {
      RefusedOut(fn, Nest(t), f, end, EmitRange(fn, Nest(t), b + 1, f - 1, ks).stack, pc);
    }
  }

  // ---- statements that end in `break` -------------------------------------------------------------------

  /** The statements of an `if` whose last instruction is a `break` without a label. */
  ghost predicate BreakPlaced(fn: Mir.Function, k: seq<Kinds>, t: Targets, code: seq<Stmt>, at: nat, x: Exits, h: nat,
      out: nat, end: nat)
  {
    && Ready(fn, k) && Stands(fn, code, at, InLoop(h, out)) && Settled(k, code, at) && at + Size(code) == end < out
    && at < end && InstIs(fn, end - 1, Mir.Jump(out)) && x.InLoop? && x.next == h < at && x.out > out
    && Labelled(t, x, Some(h))
  }

  lemma BreakHeadIs(fn: Mir.Function, k: seq<Kinds>, t: Targets, code: seq<Stmt>, at: nat, x: Exits, h: nat, out: nat,
      end: nat)
    requires BreakPlaced(fn, k, t, code, at, x, h, out, end)
    ensures code != [] && (code[0].Break? ==> InstIs(fn, at, Mir.Jump(out)) && at + 1 + Size(code[1..]) == end)
  {
    hide Ready, Settled, Labelled, StmtStands;
    if code != [] && code[0].Break? {
      HeadStands(fn, code, at, InLoop(h, out));
      BreakStands(fn, at, InLoop(h, out));
    }
  }

  lemma BreakTooEarly(fn: Mir.Function, k: seq<Kinds>, t: Targets, code: seq<Stmt>, at: nat, x: Exits, h: nat, out: nat,
      end: nat)
    requires BreakPlaced(fn, k, t, code, at, x, h, out, end) && InstIs(fn, at, Mir.Jump(out)) && at < end - 1
    ensures |k| == |fn.insts| + 1 && EmitRange(fn, t, at, end - 1, k[at]).Err?
  {
    hide Ready, Stands, Settled, EmitRange, Size;
    Lengths(fn, k);
    RefusedOut(fn, t, at, end - 1, k[at], at);
  }

  lemma BreakParts(fn: Mir.Function, k: seq<Kinds>, t: Targets, code: seq<Stmt>, at: nat, x: Exits, h: nat, out: nat,
      end: nat)
    requires BreakPlaced(fn, k, t, code, at, x, h, out, end) && code != [] && !StmtHasBreak(code[0])
    ensures at + StmtSize(code[0]) < end
    ensures StmtPlaced(fn, k, t, code[0], at, end - 1, x, Some(h))
    ensures BreakPlaced(fn, k, t, code[1..], at + StmtSize(code[0]), x, h, out, end)
  {
    hide Ready, StmtStands, StmtSettled, StmtHasBreak, CodeJumps, Labelled, HasLoop, StmtHasLoop, LeadStmtHasLoop,
      StmtHasContinue, HasContinue, Quiet;
    var s, mid := code[0], at + StmtSize(code[0]);
    Lengths(fn, k);
    HeadStands(fn, code, at, InLoop(h, out));
    HeadSettled(k, code, at);
    RestandStmt(fn, s, at, InLoop(h, out), x);
    JumpsOfStmt(fn, k, s, at, x);
    if mid == end {
      JumpThere(fn, k, at, mid, at, mid, x, StmtHasLoop(s), StmtHasContinue(s), end - 1);
      assert false;
    }
    JumpsOfCode(fn, k, code[1..], mid, InLoop(h, out));
    QuietLater(fn, k, t, at, mid, mid, end, mid, end, x, h, out, HasLoop(code[1..]), HasContinue(code[1..]));
    QuietSome(fn, t, at, mid, mid, end, end - 1);
  }

  lemma NestedRefused(fn: Mir.Function, k: seq<Kinds>, t: Targets, code: seq<Stmt>, at: nat, x: Exits, h: nat, out: nat,
      end: nat)
    requires BreakPlaced(fn, k, t, code, at, x, h, out, end) && code != []
    requires StmtHasBreak(code[0]) && !code[0].Break?
    ensures |k| == |fn.insts| + 1 && EmitRange(fn, t, at, end - 1, k[at]).Err?
  {
    hide Ready, Stands, StmtSettled, EmitRange, TermsStand, HasBreak, Len;
    var s, mid := code[0], at + StmtSize(code[0]);
    Lengths(fn, k);
    HeadStands(fn, code, at, InLoop(h, out));
    if mid < end {
      var pc := FindBreakOf(fn, s, at, InLoop(h, out));
      RefusedOut(fn, t, at, end - 1, k[at], pc);
    } else if s.IfThen? {
      NotEmpty(s.thn);
      RefusedBeyond(fn, t, at, end - 1, k[at], at + Len(s.cond));
    } else {
      RefusedOut(fn, t, at, end - 1, k[at], at + Len(s.cond) + 1 + Size(s.thn));
    }
  }
}
