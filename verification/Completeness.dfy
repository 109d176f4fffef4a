/**
 * Which structured functions are emitted: those that fit, and no others.
 */
module Completeness {
  import opened Words
  import opened StackMap
  import opened Emitter
  import opened Recognition
  import opened Structured
  import opened Expressions
  import opened Statements
  import opened LoopShapes
  import opened Jumps
  import opened Placement
  import opened LoopCuts
  import opened OpenLoops
  import opened Typing
  import opened LoweredMaps
  import Mir

  // ---- statements ----------------------------------------------------------------------------------

  lemma {:induction false} CodeEmitted(fn: Mir.Function, k: seq<Kinds>, t: Targets, code: seq<Stmt>, at: nat, e: nat,
      x: Exits, mark: Option<nat>)
    requires Placed(fn, k, t, code, at, e, x, mark)
    ensures Verdict(fn, k, t, at, at + Size(code), e, Fits(code, at, x, mark))
    decreases code, 4
  {
    hide Ready, Verdict, StmtPlaced, StmtFits;
    Lengths(fn, k);
    if code == [] {
      VerdictEmpty(fn, k, t, at, e);
    } else {
      var mid := at + StmtSize(code[0]);
      HeadPlaced(fn, k, t, code, at, e, x, mark);
      StmtEmitted(fn, k, t, code[0], at, e, x, mark);
      CodeEmitted(fn, k, t, code[1..], mid, e, x, mark);
      VerdictJoin(fn, k, t, at, mid, at + Size(code), e, StmtFits(code[0], at, x, mark),
                  Fits(code[1..], mid, x, mark));
    }
  }

  lemma {:induction false} StmtEmitted(fn: Mir.Function, k: seq<Kinds>, t: Targets, s: Stmt, at: nat, e: nat,
      x: Exits, mark: Option<nat>)
    requires StmtPlaced(fn, k, t, s, at, e, x, mark)
    ensures Verdict(fn, k, t, at, at + StmtSize(s), e, StmtFits(s, at, x, mark))
    decreases s, 3
  {
    hide Ready, Quiet, EmitRange, TermsStand, TermsFit, Stands, Fits, Len, Size, BodyFits;
    match s
    case Eval(terms) => TermsEmitted(fn, k, t, terms, at, e);
    case IfThen(_, _) => IfEmitted(fn, k, t, s, at, e, x, mark);
    case IfElse(_, _, _) => IfElseEmitted(fn, k, t, s, at, e, x, mark);
    case While(_, _, _) => WhileEmitted(fn, k, t, s, at, e, x, mark);
    case Forever(_) => ForeverEmitted(fn, k, t, s, at, e, x, mark);
    case Break => JumpEmitted(fn, k, t, at, e, x.out);
    case Continue => JumpEmitted(fn, k, t, at, e, x.next);
  }

  lemma {:induction false} IfEmitted(fn: Mir.Function, k: seq<Kinds>, t: Targets, s: Stmt, at: nat, e: nat,
      x: Exits, mark: Option<nat>)
    requires s.IfThen? && StmtPlaced(fn, k, t, s, at, e, x, mark)
    ensures Verdict(fn, k, t, at, at + StmtSize(s), e, StmtFits(s, at, x, mark))
    decreases s, 2
  {
    hide Ready, Quiet, Verdict, CodeJumps, TermsStand, TermsFit, Stands, Fits, Len, Size, Settled, Room, Labelled,
      HasLoop, HasContinue, KindAt;
    var b, end := at + Len(s.cond), at + StmtSize(s);
    var loops, cont := HasLoop(s.thn), HasContinue(s.thn);
    JumpsOfCode(fn, k, s.thn, b + 1, x);
    QuietCode(fn, k, t, x, mark, at, b + 1, end, loops, cont, b + 1, end, b + 1, end, loops, cont);
    QuietPart(fn, t, at, end, at, b + 1, end, e);
    QuietBranch(fn, t, at, b);
    QuietJoin(fn, t, at, b + 1, b, b + 1, end);
    QuietJoin(fn, t, at, b + 1, b, end, e);
    CondEmitted(fn, k, t, s.cond, at, e, end);
    ThenEmitted(fn, k, t, s, at, e, x, mark);
    VerdictJoin(fn, k, t, at, b, end, e, TermsFit(s.cond),
                Size(s.thn) > 0 && Fits(s.thn, b + 1, x, mark));
  }

  lemma {:induction false} ThenEmitted(fn: Mir.Function, k: seq<Kinds>, t: Targets, s: Stmt, at: nat, e: nat,
      x: Exits, mark: Option<nat>)
    requires s.IfThen? && StmtPlaced(fn, k, t, s, at, e, x, mark) && KindAt(fn, t, at + Len(s.cond), e) == ABranch
    ensures var b := at + Len(s.cond);
      Verdict(fn, k, t, b, at + StmtSize(s), e, Size(s.thn) > 0 && Fits(s.thn, b + 1, x, mark))
    decreases s, 1
  {
    hide Ready, Quiet, CodeJumps, TermsStand, TermsFit, Stands, Fits, Len, Size, Settled, Room, Labelled,
      HasLoop, HasContinue, KindAt, EmitRange, StmtFits, EmitConstruct, OrShape, AndShape, ShapeOfBranch;
    var b, end := at + Len(s.cond), at + StmtSize(s);
    var loops, cont := HasLoop(s.thn), HasContinue(s.thn);
    BranchKinds(fn, k, b, end);
    assert k[b + 1] == [] by { SettledStart(k, s.thn, b + 1); }
    if Size(s.thn) > 0 {
      JumpsOfCode(fn, k, s.thn, b + 1, x);
      RoomPart(x, mark, at, end, loops, cont, b + 1, end, loops, cont);
      RoomPart(x, mark, at, end, loops, cont, b + 1, end, LeadHasLoop(s.thn), cont);
      ArmShape(fn, k, t, x, mark, b + 1, b + 1, end, e, loops, cont);
      NestLabelled(t, x, mark);
      WholePlaced(fn, k, Nest(t), s.thn, b + 1, x, mark);
      CodeEmitted(fn, k, Nest(t), s.thn, b + 1, end, x, mark);
      VerdictWhole(fn, k, Nest(t), b + 1, end, Fits(s.thn, b + 1, x, mark));
    }
    NoOperator(fn, k, b, end, e);
    BranchCut(fn, t, b, end, e, k[b]);
    StepOn(fn, t, b, e, k[b]);
  }

  lemma {:induction false} IfElseEmitted(fn: Mir.Function, k: seq<Kinds>, t: Targets, s: Stmt, at: nat, e: nat,
      x: Exits, mark: Option<nat>)
    requires s.IfElse? && StmtPlaced(fn, k, t, s, at, e, x, mark)
    ensures Verdict(fn, k, t, at, at + StmtSize(s), e, StmtFits(s, at, x, mark))
    decreases s, 2
  {
    hide Ready, Verdict, TermsStand, TermsFit, Stands, Fits, Len, Size, Room, Labelled,
      HasLoop, HasContinue, KindAt, CodeJumps, Quiet, Settled;
    var b, end := at + Len(s.cond), at + StmtSize(s);
    var f := b + 1 + Size(s.thn) + 1;
    var loops, cont := StmtHasLoop(s), StmtHasContinue(s);
    JumpsOfCode(fn, k, s.thn, b + 1, x);
    JumpsOfCode(fn, k, s.els, f, x);
    QuietCode(fn, k, t, x, mark, at, b + 1, end, loops, cont, b + 1, f - 1, b + 1, f - 1, HasLoop(s.thn),
              HasContinue(s.thn));
    QuietCode(fn, k, t, x, mark, at, b + 1, end, loops, cont, f, end, f, end, HasLoop(s.els), HasContinue(s.els));
    QuietPart(fn, t, at, end, at, b + 1, end, e);
    QuietBranch(fn, t, at, b);
    QuietForward(fn, t, at, b + 1, f - 1, end);
    QuietJoin(fn, t, at, b + 1, b, b + 1, f - 1);
    QuietJoin(fn, t, at, b + 1, b, f - 1, f);
    QuietJoin(fn, t, at, b + 1, b, f, end);
    QuietJoin(fn, t, at, b + 1, b, end, e);
    CondEmitted(fn, k, t, s.cond, at, e, f);
    ArmsEmitted(fn, k, t, s, at, e, x, mark);
    VerdictJoin(fn, k, t, at, b, end, e, TermsFit(s.cond), ArmsFit(s, at, x, mark));
  }

  predicate ArmsFit(s: Stmt, at: nat, x: Exits, mark: Option<nat>)
    requires s.IfElse?
  {
    var b := at + Len(s.cond);
    && Fits(s.thn, b + 1, x, mark) && Fits(s.els, b + 1 + Size(s.thn) + 1, x, mark)
    && (Size(s.els) > 0 || mark == Some(at + StmtSize(s)))
  }

  lemma {:induction false} ArmsEmitted(fn: Mir.Function, k: seq<Kinds>, t: Targets, s: Stmt, at: nat, e: nat,
      x: Exits, mark: Option<nat>)
    requires s.IfElse? && StmtPlaced(fn, k, t, s, at, e, x, mark) && KindAt(fn, t, at + Len(s.cond), e) == ABranch
    ensures Verdict(fn, k, t, at + Len(s.cond), at + StmtSize(s), e, ArmsFit(s, at, x, mark))
    decreases s, 1
  {
    hide Ready, StmtStands, StmtSettled, Room, Labelled, Quiet, Fits, Verdict, KindAt, HasLabel, Len, Size;
    var b, end := at + Len(s.cond), at + StmtSize(s);
    var f := b + 1 + Size(s.thn) + 1;
    JoinLabel(t, x, mark, s, at);
    if HasLabel(t, end) || Size(s.els) == 0 {
      ThenOnly(fn, k, t, s, at, e, x, mark);
      ElseAlone(fn, k, t, s, at, e, x, mark);
      VerdictJoin(fn, k, t, b, f, end, e, Fits(s.thn, b + 1, x, mark) && HasLabel(t, end),
                  Fits(s.els, f, x, mark));
      if Size(s.els) == 0 {
        EmptyFits(s.els, f, x, mark);
      }
    } else {
      BothArms(fn, k, t, s, at, e, x, mark);
    }
  }

  lemma JoinLabel(t: Targets, x: Exits, mark: Option<nat>, s: Stmt, at: nat)
    requires Labelled(t, x, mark) && Room(x, mark, at, at + StmtSize(s), LeadStmtHasLoop(s), StmtHasContinue(s))
    ensures HasLabel(t, at + StmtSize(s)) <==> mark == Some(at + StmtSize(s))
  {
  }

  lemma {:induction false} EmptyFits(code: seq<Stmt>, at: nat, x: Exits, mark: Option<nat>)
    requires Size(code) == 0
    ensures Fits(code, at, x, mark)
    decreases code
  {
    if code != [] {
      assert StmtSize(code[0]) == 0;
      match code[0]
      case Eval(terms) => EmptyTermsFit(terms);
      EmptyFits(code[1..], at, x, mark);
    }
  }

  lemma EmptyTermsFit(terms: seq<Term>)
    requires Len(terms) == 0
    ensures TermsFit(terms)
  {
    assert terms != [] ==> TermLen(terms[0]) > 0;
  }

  /** The first arm, with the jump over the second one, is emitted as an `if` without `else`. */
  lemma {:induction false} ThenOnly(fn: Mir.Function, k: seq<Kinds>, t: Targets, s: Stmt, at: nat, e: nat,
      x: Exits, mark: Option<nat>)
    requires s.IfElse? && StmtPlaced(fn, k, t, s, at, e, x, mark) && KindAt(fn, t, at + Len(s.cond), e) == ABranch
    requires HasLabel(t, at + StmtSize(s)) || Size(s.els) == 0
    ensures var b := at + Len(s.cond);
      Verdict(fn, k, t, b, b + 1 + Size(s.thn) + 1, e,
              Fits(s.thn, b + 1, x, mark) && HasLabel(t, at + StmtSize(s)))
    decreases s, 0
  {
    hide Ready, TermsStand, Stands, Len, Size, HasLoop, HasContinue, KindAt, Quiet, Settled, EmitRange, EmitConstruct,
      Fits, Room, CodeJumps;
    var b, end := at + Len(s.cond), at + StmtSize(s);
    var f := b + 1 + Size(s.thn) + 1;
    IfElseCut(fn, k, t, s, at, e, x);
    JumpsOfCode(fn, k, s.thn, b + 1, x);
    RoomPart(x, mark, at, end, LeadStmtHasLoop(s), StmtHasContinue(s), b + 1, f - 1, LeadHasLoop(s.thn),
      HasContinue(s.thn));
    NestLabelled(t, x, mark);
    QuietForward(fn, Nest(t), b + 1, f - 1, f - 1, end);
    CodeEmitted(fn, k, Nest(t), s.thn, b + 1, f, x, mark);
    NothingBehind(fn, Nest(t), f - 1, f, f);
    JumpEmitted(fn, k, Nest(t), f - 1, f, end);
    VerdictJoin(fn, k, Nest(t), b + 1, f - 1, f, f, Fits(s.thn, b + 1, x, mark),
      HasLabel(Nest(t), end));
    NestLabels(t, end);
    VerdictWhole(fn, k, Nest(t), b + 1, f, Fits(s.thn, b + 1, x, mark) && HasLabel(t, end));
    StepOn(fn, t, b, e, k[b]);
  }

  lemma {:induction false} ElseAlone(fn: Mir.Function, k: seq<Kinds>, t: Targets, s: Stmt, at: nat, e: nat,
      x: Exits, mark: Option<nat>)
    requires s.IfElse? && StmtPlaced(fn, k, t, s, at, e, x, mark)
    ensures var f := at + Len(s.cond) + 1 + Size(s.thn) + 1;
      Verdict(fn, k, t, f, at + StmtSize(s), e, Fits(s.els, f, x, mark))
    decreases s, 0
  {
    hide Ready, TermsStand, Stands, Len, Size, HasLoop, HasContinue, Quiet, Settled, Fits, Room, Labelled,
      Verdict;
    var end := at + StmtSize(s);
    var f := at + Len(s.cond) + 1 + Size(s.thn) + 1;
    RoomPart(x, mark, at, end, LeadStmtHasLoop(s), StmtHasContinue(s), f, end, LeadHasLoop(s.els), HasContinue(s.els));
    QuietPart(fn, t, at, end, f, end, end, e);
    CodeEmitted(fn, k, t, s.els, f, e, x, mark);
  }

  lemma {:induction false} BothArms(fn: Mir.Function, k: seq<Kinds>, t: Targets, s: Stmt, at: nat, e: nat,
      x: Exits, mark: Option<nat>)
    requires s.IfElse? && StmtPlaced(fn, k, t, s, at, e, x, mark) && KindAt(fn, t, at + Len(s.cond), e) == ABranch
    requires !HasLabel(t, at + StmtSize(s)) && Size(s.els) > 0
    ensures var b := at + Len(s.cond);
      Verdict(fn, k, t, b, at + StmtSize(s), e,
              Fits(s.thn, b + 1, x, mark) && Fits(s.els, b + 1 + Size(s.thn) + 1, x, mark))
    decreases s, 0
  {
    hide Ready, TermsStand, Stands, Len, Size, HasLoop, HasContinue, KindAt, Quiet, Settled, EmitRange, EmitConstruct,
      Fits, Room, Labelled;
    var b, end := at + Len(s.cond), at + StmtSize(s);
    var f := b + 1 + Size(s.thn) + 1;
    IfElseCut(fn, k, t, s, at, e, x);
    NestLabelled(t, x, mark);
    RoomPart(x, mark, at, end, LeadStmtHasLoop(s), StmtHasContinue(s), b + 1, f - 1, LeadHasLoop(s.thn),
      HasContinue(s.thn));
    WholePlaced(fn, k, Nest(t), s.thn, b + 1, x, mark);
    CodeEmitted(fn, k, Nest(t), s.thn, b + 1, f - 1, x, mark);
    VerdictWhole(fn, k, Nest(t), b + 1, f - 1, Fits(s.thn, b + 1, x, mark));
    RoomPart(x, mark, at, end, LeadStmtHasLoop(s), StmtHasContinue(s), f, end, LeadHasLoop(s.els), HasContinue(s.els));
    WholePlaced(fn, k, Nest(t), s.els, f, x, mark);
    CodeEmitted(fn, k, Nest(t), s.els, f, end, x, mark);
    VerdictWhole(fn, k, Nest(t), f, end, Fits(s.els, f, x, mark));
    StepOn(fn, t, b, e, k[b]);
  }

  // ---- endless loops -------------------------------------------------------------------------------

  lemma {:induction false} ForeverEmitted(fn: Mir.Function, k: seq<Kinds>, t: Targets, s: Stmt, at: nat, e: nat,
      x: Exits, mark: Option<nat>)
    requires s.Forever? && StmtPlaced(fn, k, t, s, at, e, x, mark)
    ensures Verdict(fn, k, t, at, at + StmtSize(s), e, StmtFits(s, at, x, mark))
    decreases s, 2
  {
    hide Ready, Stands, Size, LeadHasLoop, LeadIfEnds, Quiet, Settled, EmitRange, EmitConstruct, Fits, OpenFits,
      HasContinue, HasLoop;
    if mark == Some(at) {
      OpenEmitted(fn, k, t, s.body, at, e, x, at, at + StmtSize(s));
    } else if Size(s.body) == 0 {
      EmptyForever(fn, k, t, s, at, e, x, mark);
    } else if LeadHasLoop(s.body) {
      ForeverDisturbed(fn, k, t, s, at, e, x, mark);
    } else if LeadIfEnds(s.body) {
      ForeverMisread(fn, k, t, s, at, e, x, mark);
    } else {
      ForeverAccepted(fn, k, t, s, at, e, x, mark);
    }
  }

  lemma {:induction false} ForeverAccepted(fn: Mir.Function, k: seq<Kinds>, t: Targets, s: Stmt, at: nat, e: nat,
      x: Exits, mark: Option<nat>)
    requires s.Forever? && StmtPlaced(fn, k, t, s, at, e, x, mark) && Size(s.body) > 0 && mark != Some(at)
    requires !LeadHasLoop(s.body) && !LeadIfEnds(s.body)
    ensures Verdict(fn, k, t, at, at + StmtSize(s), e, StmtFits(s, at, x, mark))
    decreases s, 1
  {
    hide Ready, Stands, Size, LeadHasLoop, LeadIfEnds, Quiet, Settled, EmitRange, KindAt, Fits, OpenFits, HasContinue,
      HasLoop;
    var b := at + Size(s.body);
    ForeverKind(fn, k, t, s, at, e, x, mark);
    WholePlaced(fn, k, LoopTargets(at, b + 1), s.body, at, InLoop(at, b + 1), Some(at));
    CodeEmitted(fn, k, LoopTargets(at, b + 1), s.body, at, b, InLoop(at, b + 1), Some(at));
    VerdictWhole(fn, k, LoopTargets(at, b + 1), at, b, Fits(s.body, at, InLoop(at, b + 1), Some(at)));
    BackKinds(fn, k, b, at);
    StepOn(fn, t, at, e, k[at]);
  }

  // ---- endless loops at the header of another ------------------------------------------------------------

  /** The body of an endless loop whose header `h` is that of the loop around it, up to its end `out`. */
  lemma {:induction false} OpenEmitted(fn: Mir.Function, k: seq<Kinds>, t: Targets, code: seq<Stmt>, at: nat, e: nat,
      x: Exits, h: nat, out: nat)
    requires OpenPlaced(fn, k, t, code, at, e, x, h, out)
    ensures Verdict(fn, k, t, at, out, e, OpenFits(code, at, x, Some(h)))
    decreases code, 5
  {
    hide Ready, StmtStands, StmtSettled, StmtPlaced, StmtFits, BreakFits, Quiet, Verdict, EmitRange, LeadHasLoop,
      StmtHasBreak, TermsFit;
    Lengths(fn, k);
    if code == [] {
      JumpEmitted(fn, k, t, at, e, h);
    } else {
      var s, mid := code[0], at + StmtSize(code[0]);
      OpenTail(fn, k, t, code, at, e, x, h, out);
      if !StmtHasBreak(s) {
        OpenHead(fn, k, t, code, at, e, x, h, out);
        StmtEmitted(fn, k, t, s, at, e, x, Some(h));
        OpenEmitted(fn, k, t, code[1..], mid, e, x, h, out);
        VerdictJoin(fn, k, t, at, mid, out, e, StmtFits(s, at, x, Some(h)), OpenFits(code[1..], mid, x, Some(h)));
      } else if s.IfThen? {
        IfBreakEmitted(fn, k, t, code, at, e, x, h, out);
      } else {
        StrayRefused(fn, k, t, code, at, e, x, h, out);
      }
    }
  }

  /** An `if` with a `break`, and what follows it. */
  lemma {:induction false} IfBreakEmitted(fn: Mir.Function, k: seq<Kinds>, t: Targets, code: seq<Stmt>, at: nat, e: nat,
      x: Exits, h: nat, out: nat)
    requires OpenPlaced(fn, k, t, code, at, e, x, h, out) && code != [] && code[0].IfThen? && StmtHasBreak(code[0])
    ensures Verdict(fn, k, t, at, out, e, OpenFits(code, at, x, Some(h)))
    decreases code, 4
  {
    hide Ready, Stands, StmtSettled, BreakFits, Quiet, Verdict, EmitRange, LeadHasLoop, TermsFit, KindAt,
      TermsStand, HasBreak, Len, Size, StmtFits;
    var s := code[0];
    var b := at + Len(s.cond);
    OpenQuiet(fn, k, t, code, at, e, x, h, out);
    HeadStands(fn, code, at, InLoop(h, out));
    TailSize(code);
    CondEmitted(fn, k, t, s.cond, at, e, at + StmtSize(s));
    BreakCut(fn, k, t, code, at, e, x, h, out);
    if InstIs(fn, at + StmtSize(s) - 1, Mir.Jump(out)) {
      IfBreakTaken(fn, k, t, code, at, e, x, h, out);
    } else {
      IfBreakRefused(fn, k, t, code, at, e, x, h, out);
    }
    var rest := BreakFits(s.thn, b + 1, x, Some(h)) && OpenFits(code[1..], at + StmtSize(s), x, Some(h));
    VerdictJoin(fn, k, t, at, b, out, e, TermsFit(s.cond), rest);
  }

  /** It ends in `break`: what follows is taken for the `else`. */
  lemma {:induction false} IfBreakTaken(fn: Mir.Function, k: seq<Kinds>, t: Targets, code: seq<Stmt>, at: nat, e: nat,
      x: Exits, h: nat, out: nat)
    requires OpenPlaced(fn, k, t, code, at, e, x, h, out) && code != [] && code[0].IfThen? && StmtHasBreak(code[0])
    requires |k| == |fn.insts| + 1 && Size(code[0].thn) > 0 && at + StmtSize(code[0]) <= e
    requires IsCut(fn, k, t, code[0], at, e) && InstIs(fn, at + StmtSize(code[0]) - 1, Mir.Jump(out))
    ensures var b := at + Len(code[0].cond);
      Verdict(fn, k, t, b, out, e, BreakFits(code[0].thn, b + 1, x, Some(h))
        && OpenFits(code[1..], at + StmtSize(code[0]), x, Some(h)))
    decreases code, 3
  {
    hide Ready, Stands, Settled, BreakFits, OpenFits, Quiet, EmitRange, LeadHasLoop, KindAt, TermsStand, HasBreak, Len,
      Size, EmitConstruct, EmitIf;
    var s := code[0];
    var b, f := at + Len(s.cond), at + StmtSize(s);
    Lengths(fn, k);
    HeadStands(fn, code, at, InLoop(h, out));
    HeadSettled(k, code, at);
    TailSize(code);
    NestLabelled(t, x, Some(h));
    BreakEmitted(fn, k, Nest(t), s.thn, b + 1, x, h, out, f);
    OpenTail(fn, k, t, code, at, e, x, h, out);
    NothingBehind(fn, Nest(t), f, out, out);
    OpenEmitted(fn, k, Nest(t), code[1..], f, out, x, h, out);
    VerdictWhole(fn, k, Nest(t), f, out, OpenFits(code[1..], f, x, Some(h)));
    BranchKinds(fn, k, b, f);
    SettledStart(k, code[1..], f); SettledStart(k, s.thn, b + 1);
    BackKinds(fn, k, f - 1, out);
    StepOn(fn, t, b, e, k[b]);
  }

  /** The statements of an `if` that ends in `break`, up to the last instruction. */
  lemma {:induction false} BreakEmitted(fn: Mir.Function, k: seq<Kinds>, t: Targets, code: seq<Stmt>, at: nat, x: Exits,
      h: nat, out: nat, end: nat)
    requires BreakPlaced(fn, k, t, code, at, x, h, out, end)
    ensures |k| == |fn.insts| + 1
    ensures var r := EmitRange(fn, t, at, end - 1, k[at]);
      && (BreakFits(code, at, x, Some(h)) ==> r.Ok? && r.stack == k[end - 1])
      && (!BreakFits(code, at, x, Some(h)) ==> r.Err?)
    decreases code, 5
  {
    hide Ready, StmtStands, StmtSettled, StmtPlaced, StmtFits, Quiet, Verdict, EmitRange, LeadHasLoop, StmtHasBreak,
      Labelled;
    Lengths(fn, k);
    BreakHeadIs(fn, k, t, code, at, x, h, out, end);
    var s, mid := code[0], at + StmtSize(code[0]);
    if s.Break? {
      if end - 1 == at {
        EmptyRange(fn, t, at, k[at]);
      } else {
        BreakTooEarly(fn, k, t, code, at, x, h, out, end);
      }
    } else if StmtHasBreak(s) {
      NestedRefused(fn, k, t, code, at, x, h, out, end);
    } else {
      BreakParts(fn, k, t, code, at, x, h, out, end);
      StmtEmitted(fn, k, t, s, at, end - 1, x, Some(h));
      BreakEmitted(fn, k, t, code[1..], mid, x, h, out, end);
      CutStep(fn, k, t, at, mid, end - 1, StmtFits(s, at, x, Some(h)));
    }
  }

  // ---- loops with a condition ----------------------------------------------------------------------

  lemma {:induction false} WhileEmitted(fn: Mir.Function, k: seq<Kinds>, t: Targets, s: Stmt, at: nat, e: nat,
      x: Exits, mark: Option<nat>)
    requires s.While? && StmtPlaced(fn, k, t, s, at, e, x, mark)
    ensures Verdict(fn, k, t, at, at + StmtSize(s), e, StmtFits(s, at, x, mark))
    decreases s, 2
  {
    hide Ready, TermsStand, Stands, Len, Size, HasLoop, HasContinue, Quiet, Settled, EmitRange, KindAt, BodyFits,
      TermsFit, Straight, Tail;
    if mark == Some(at) {
      OpenWhile(fn, k, t, s, at, e, x, mark);
    } else if Size(s.body) + Len(s.post) == 0 {
      EmptyWhile(fn, k, t, s, at, e, x, mark);
    } else {
      WhileKind(fn, k, t, s, at, e, x, mark);
      LoopEmitted(fn, k, t, s, at, e, x, mark);
      StepOn(fn, t, at, e, k[at]);
    }
  }

  lemma {:induction false} RestEmitted(fn: Mir.Function, k: seq<Kinds>, t: Targets, code: seq<Stmt>, at: nat, x: Exits,
      header: nat, post: seq<Term>)
    requires BodyPlaced(fn, k, code, at, x, header, post) && Labelled(t, x, Some(header))
    requires HasContinue(code) && at < at + Size(code) ==> x.next == header
    ensures var back := at + Size(code) + Len(post);
      Verdict(fn, k, t, at, back, back, Fits(code, at, x, Some(header)))
    decreases code, 5
  {
    hide Ready, Stands, TermsStand, Len, Size, Settled, Verdict, HasLoop, HasContinue, Quiet, Straight, TermJumps, Fits;
    var p := at + Size(code);
    var back := p + Len(post);
    TermsJumps(fn, post, p);
    QuietTerms(fn, t, at, p, p, back, back);
    CodeEmitted(fn, k, t, code, at, back, x, Some(header));
    PostEmitted(fn, k, t, post, p, back);
    VerdictJoin(fn, k, t, at, p, back, back, Fits(code, at, x, Some(header)), true);
  }

  /** A body that is cut between two statements: `front` are the labels before the cut, `rest` behind it. */
  lemma {:induction false} CutEmitted(fn: Mir.Function, k: seq<Kinds>, front: Targets, rest: Targets, code: seq<Stmt>,
      at: nat, x: Exits, header: nat, meet: nat, post: seq<Term>)
    requires BodyPlaced(fn, k, code, at, x, header, post) && Between(code, at, meet)
    requires Labelled(front, x, Some(meet)) && Labelled(rest, x, Some(header))
    requires HasContinue(code) && x.next != header ==> meet == x.next
    ensures |k| == |fn.insts| + 1 && at <= meet <= at + Size(code) && k[meet] == []
    ensures var back := at + Size(code) + Len(post);
      && (CutFits(code, at, x, header, meet) ==>
            && EmitRange(fn, front, at, meet, k[at]).Ok? && EmitRange(fn, front, at, meet, k[at]).stack == k[meet]
            && EmitRange(fn, rest, meet, back, k[meet]).Ok?
              && EmitRange(fn, rest, meet, back, k[meet]).stack == k[back])
      && (!CutFits(code, at, x, header, meet) ==>
            || EmitRange(fn, front, at, meet, k[at]).Err?
            || (EmitRange(fn, front, at, meet, k[at]).stack == k[meet]
              && EmitRange(fn, rest, meet, back, k[meet]).Err?))
    decreases code, 6
  {
    hide Ready, Stands, StmtStands, TermsStand, Len, StmtSettled, Verdict, HasLoop, StmtHasContinue, Quiet, Straight,
      Fits, StmtFits, Labelled, EmitRange, StmtPlaced;
    var back := at + Size(code) + Len(post);
    BetweenBounds(code, at, meet);
    Lengths(fn, k);
    if at == meet {
      EmptyRange(fn, front, at, k[at]);
      RestEmitted(fn, k, rest, code, at, x, header, post);
      VerdictWhole(fn, k, rest, at, back, Fits(code, at, x, Some(header)));
    } else {
      var mid := at + StmtSize(code[0]);
      BetweenBounds(code[1..], mid, meet);
      FrontPlaced(fn, k, front, code, at, x, header, meet, post);
      StmtEmitted(fn, k, front, code[0], at, meet, x, Some(meet));
      CutEmitted(fn, k, front, rest, code[1..], mid, x, header, meet, post);
      CutStep(fn, k, front, at, mid, meet, StmtFits(code[0], at, x, Some(meet)));
    }
  }

  /** The loop has no place to be cut at. */
  lemma {:induction false} UncutEmitted(fn: Mir.Function, k: seq<Kinds>, s: Stmt, at: nat, x: Exits)
    requires s.While? && Ready(fn, k) && StmtStands(fn, s, at, x) && StmtSettled(k, s, at) && Straight(s.post)
    requires at < |k| && k[at] == []
    requires var meet := Meet(s.body, at + Len(s.cond) + 1, WhileExits(s, at), at + StmtSize(s), 0);
      meet == 0 || meet == at + StmtSize(s) - 1
    ensures var back := at + StmtSize(s) - 1;
      var start := at + Len(s.cond) + 1;
      var r := EmitRange(fn, BodyTargets(RegionOf(s, at, back)), start, back, []);
      var fits := Fits(s.body, start, WhileExits(s, at), Some(at));
      && back < |fn.insts| && (fits ==> r.Ok? && r.stack == []) && (!fits ==> r.Err?)
      && EmitRange(fn, LoopTargets(at, back + 1), back, back, []) == Ok([], [])
    decreases s, 0
  {
    hide Ready, TermsStand, Len, Size, Stands, Straight, Settled, HasContinue, Meet, EmitRange, Fits, Verdict,
      BodyPlaced;
    var start, back, y := at + Len(s.cond) + 1, at + StmtSize(s) - 1, WhileExits(s, at);
    var t := BodyTargets(RegionOf(s, at, back));
    BodyIsPlaced(fn, k, s, at, x);
    ContinueMark(s, at);
    RestEmitted(fn, k, t, s.body, start, y, at, s.post);
    VerdictWhole(fn, k, t, start, back, Fits(s.body, start, y, Some(at)));
    SettledStart(k, s.body, start);
    BackKinds(fn, k, back, at);
    EmptyRange(fn, LoopTargets(at, back + 1), back, []);
  }

  lemma {:induction false} LoopCutEmitted(fn: Mir.Function, k: seq<Kinds>, s: Stmt, at: nat, x: Exits)
    requires s.While? && Ready(fn, k) && StmtStands(fn, s, at, x) && StmtSettled(k, s, at) && Straight(s.post)
    requires at < |k| && k[at] == []
    requires var meet := Meet(s.body, at + Len(s.cond) + 1, WhileExits(s, at), at + StmtSize(s), 0);
      meet != 0 && meet != at + StmtSize(s) - 1 && Between(s.body, at + Len(s.cond) + 1, meet)
    ensures var back := at + StmtSize(s) - 1;
      var start := at + Len(s.cond) + 1;
      var meet := Meet(s.body, start, WhileExits(s, at), back + 1, 0);
      start <= meet < back < |fn.insts|
    ensures var back := at + StmtSize(s) - 1;
      var start := at + Len(s.cond) + 1;
      var meet := Meet(s.body, start, WhileExits(s, at), back + 1, 0);
      var a := EmitRange(fn, BodyTargets(RegionOf(s, at, meet)), start, meet, []);
      var b := EmitRange(fn, LoopTargets(at, back + 1), meet, back, []);
      var fits := CutFits(s.body, start, WhileExits(s, at), at, meet);
      && (fits ==> a.Ok? && a.stack == [] && b.Ok? && b.stack == [])
      && (!fits ==> a.Err? || (a.stack == [] && b.Err?))
    decreases s, 0
  {
    hide Ready, TermsStand, Len, Size, Stands, Straight, Settled, HasContinue, Meet, EmitRange, CutFits,
      Between,
      BodyPlaced;
    var start, back, y := at + Len(s.cond) + 1, at + StmtSize(s) - 1, WhileExits(s, at);
    var meet := Meet(s.body, start, y, back + 1, 0);
    BodyIsPlaced(fn, k, s, at, x);
    ContinueMark(s, at);
    BetweenBounds(s.body, start, meet);
    CutEmitted(fn, k, BodyTargets(RegionOf(s, at, meet)), LoopTargets(at, back + 1), s.body, start, y, at, meet,
      s.post);
    SettledStart(k, s.body, start);
    BackKinds(fn, k, back, at);
  }

  lemma {:induction false} LoopEmitted(fn: Mir.Function, k: seq<Kinds>, t: Targets, s: Stmt, at: nat, e: nat,
      x: Exits, mark: Option<nat>)
    requires s.While? && StmtPlaced(fn, k, t, s, at, e, x, mark) && Size(s.body) + Len(s.post) > 0 && mark != Some(at)
    requires KindAt(fn, t, at, e) == AWhile(RegionOf(s, at, Tail(s, at)))
    ensures var r := EmitWhile(fn, RegionOf(s, at, Tail(s, at)), e, []);
      && (StmtFits(s, at, x, mark) ==> r.Ok? && r.stack == [])
      && (!StmtFits(s, at, x, mark) ==> r.Err?)
    decreases s, 1
  {
    hide Ready, TermsStand, Len, Size, Stands, Settled, Meet, TermsMeet, EmitRange, EmitWhile, KindAt, WhileExits,
      Between, Quiet, Straight, Labelled, Room, StmtFits, Fits, CutFits, TermsFit, StmtSettled, StmtStands;
    var start, end := at + Len(s.cond) + 1, at + StmtSize(s);
    var meet := Meet(s.body, start, WhileExits(s, at), end, 0);
    var r := RegionOf(s, at, Tail(s, at));
    CondRange(fn, k, s, at, x);
    WhileResult(fn, r, e, []);
    WhileFits(s, at, x, mark);
    if Straight(s.post) {
      StraightMeets(s.post, start + Size(s.body), meet);
      assert r == RegionOf(s, at, if meet != 0 then meet else end - 1);
    }
    if !Straight(s.post) || (meet != 0 && meet != end - 1 && !Between(s.body, start, meet)) {
      BadCutRefused(fn, k, t, s, at, e, x, mark);
      if CutFits(s.body, start, WhileExits(s, at), at, meet) {
        CutBetween(s.body, start, WhileExits(s, at), at, meet);
      }
    } else if meet == 0 || meet == end - 1 {
      UncutEmitted(fn, k, s, at, x);
    } else {
      LoopCutEmitted(fn, k, s, at, x);
    }
  }

  // ---- functions -----------------------------------------------------------------------------------

  /** Every well-formed function that is lowered from structured code, with nothing pending between its
      statements, is emitted if and only if the code fits. */
  lemma BodyExactly(fn: Mir.Function, k: seq<Kinds>, code: seq<Stmt>)
    requires Ready(fn, k) && Stands(fn, code, 0, NoLoop) && Settled(k, code, 0) && Size(code) == |fn.insts|
    ensures EmitBody(fn).Ok? <==> Fits(code, 0, NoLoop, None)
  {
    hide Ready, Stands, Settled, EmitRange, Fits;
    WholePlaced(fn, k, NO_TARGETS, code, 0, NoLoop, None);
    CodeEmitted(fn, k, NO_TARGETS, code, 0, |fn.insts|, NoLoop, None);
    VerdictWhole(fn, k, NO_TARGETS, 0, |fn.insts|, Fits(code, 0, NoLoop, None));
    SettledStart(k, code, 0);
  }

  /** What is lowered from typed code and keeps the emitter's limits is emitted if and only if it fits. */
  lemma EmittedExactly(fn: Mir.Function, code: seq<Stmt>)
    requires IsLowered(fn, code) && InLimits(fn, StackMapOf(fn, code))
    ensures EmitBody(fn).Ok? <==> Fits(code, 0, NoLoop, None)
  {
    hide EmitBody, Fits, Stands, Settled, WellFormed, MapCode, Lower;
    LoweredIsWellFormed(fn, code);
    BodyExactly(fn, StackMapOf(fn, code), code);
  }
}
