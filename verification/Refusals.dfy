/**
 * Small functions that show what is emitted and what is not: an endless loop that is left by `break` is
 * emitted; and for every way in which code may fail to fit there is a function that is refused.
 */
module Refusals {
  import opened Words
  import opened StackMap
  import opened Emitter
  import opened Recognition
  import opened Structured
  import opened Expressions
  import opened Statements
  import opened Typing
  import opened LoweredMaps
  import opened Placement
  import opened LoopCuts
  import opened Completeness
  import opened LoopShapes
  import Mir

  /** In a well-formed function, no more operands are pending than instructions come before. */
  lemma {:induction false} DepthBound(fn: Mir.Function, k: seq<Kinds>, pc: nat)
    requires WellFormed(fn, k) && pc <= |fn.insts|
    ensures |k[pc]| <= pc
    decreases pc
  {
    hide StaysAbove, DiamondsClosed, UnaryKind, BinaryKind, ArgKindsOk;
    if pc > 0 {
      StackMap.InstAt(fn, k, pc - 1);
      DepthBound(fn, k, pc - 1);
      if pc > 1 {
        DepthBound(fn, k, pc - 2);
      }
    }
  }

  /** So short functions that call nothing and have no frame keep the limits. */
  lemma ShortExactly(fn: Mir.Function, code: seq<Stmt>)
    requires IsLowered(fn, code) && Size(code) <= 256 && fn.sigs == [] && fn.frame.None?
    ensures EmitBody(fn).Ok? <==> Fits(code, 0, NoLoop, None)
  {
    hide EmitBody, Fits, Stands, Settled, WellFormed, MapCode, Lower, Typed, Shaped, EndsInEval;
    var k := StackMapOf(fn, code);
    LoweredIsWellFormed(fn, code);
    forall pc | 0 <= pc < |fn.insts|
      ensures Within(fn, fn.insts[pc], k[pc])
    {
      WithinShort(fn, k, pc);
    }
    EmittedExactly(fn, code);
  }

  lemma WithinShort(fn: Mir.Function, k: seq<Kinds>, pc: nat)
    requires WellFormed(fn, k) && pc < |fn.insts| <= 256 && fn.sigs == [] && fn.frame.None?
    ensures Within(fn, fn.insts[pc], k[pc])
  {
    hide StaysAbove, DiamondsClosed;
    StackMap.InstAt(fn, k, pc);
    DepthBound(fn, k, pc);
  }

  // ---- pieces -----------------------------------------------------------------------------------

  /** Two integer parameters, no result. */
  function Of(insts: seq<Mir.Inst>): Mir.Function {
    Mir.Function(insts, [Mir.KI32, Mir.KI32], [], None, None)
  }

  function Load(i: nat): seq<Term> { [Op(Mir.LocalLoad(i))] }

  const SET := Eval([Op(Mir.LocalLoad(1)), Op(Mir.LocalStore(0))])
  const LEAVE := Eval([Op(Mir.ReturnVoid)])

  predicate TwoLocals(fn: Mir.Function) { fn.localKinds == [Mir.KI32, Mir.KI32] }

  lemma Single(fn: Mir.Function, s: Stmt)
    ensures var code := [s];
      && Size(code) == StmtSize(s) && (Typed(fn, code) <==> TypedStmt(fn, s))
      && (forall b :: Shaped(code, b) <==> ShapedStmt(s, b))
      && (HasLoop(code) <==> StmtHasLoop(s)) && (IfEndsInContinue(code) <==> StmtIfEndsInContinue(s))
      && (StmtSize(s) > 0 ==> (LeadHasLoop(code) <==> LeadStmtHasLoop(s)) && (LeadIfEnds(code) <==> LeadStmtIfEnds(s)))
      && (EndsInContinue(code) <==> StmtEndsInContinue(s))
    ensures forall at: nat, x, mark :: Fits([s], at, x, mark) <==> StmtFits(s, at, x, mark)
    ensures forall at: nat, x, exit: nat, best: nat :: Meet([s], at, x, exit, best) == StmtMeet(s, at, x, exit, best)
    ensures forall at: nat, x: Exits :: ShapedStmt(s, x.InLoop?) ==> Lower([s], at, x) == LowerStmt(s, at, x)
  {
  }

  lemma Cons(fn: Mir.Function, s: Stmt, rest: seq<Stmt>)
    ensures var code := [s] + rest;
      && Size(code) == StmtSize(s) + Size(rest)
      && (Typed(fn, code) <==> TypedStmt(fn, s) && Typed(fn, rest))
      && (forall b :: Shaped(code, b) <==> ShapedStmt(s, b) && Shaped(rest, b))
      && (HasLoop(code) <==> StmtHasLoop(s) || HasLoop(rest))
      && (IfEndsInContinue(code) <==> StmtIfEndsInContinue(s) || IfEndsInContinue(rest))
      && (Size(rest) > 0 ==> (EndsInContinue(code) <==> EndsInContinue(rest)))
      && (StmtSize(s) > 0 ==>
            && (LeadHasLoop(code) <==> LeadStmtHasLoop(s) || HasLoop(rest))
            && (LeadIfEnds(code) <==> LeadStmtIfEnds(s) || IfEndsInContinue(rest)))
    ensures forall at: nat, x, mark ::
      Fits([s] + rest, at, x, mark) <==> StmtFits(s, at, x, mark) && Fits(rest, at + StmtSize(s), x, mark)
    ensures forall at: nat, x, exit: nat, best: nat ::
      Meet([s] + rest, at, x, exit, best) == Meet(rest, at + StmtSize(s), x, exit, StmtMeet(s, at, x, exit, best))
    ensures forall at: nat, x: Exits :: ShapedStmt(s, x.InLoop?) && Shaped(rest, x.InLoop?) ==>
      Lower([s] + rest, at, x) == LowerStmt(s, at, x) + Lower(rest, at + StmtSize(s), x)
  {
    assert ([s] + rest)[0] == s && ([s] + rest)[1..] == rest;
  }

  lemma Nothing(fn: Mir.Function)
    ensures Size([]) == 0 && Typed(fn, []) && !HasLoop([]) && !IfEndsInContinue([])
    ensures forall b :: Shaped([], b)
    ensures forall at: nat, x: Exits :: Lower([], at, x) == []
    ensures forall at: nat, x, mark :: Fits([], at, x, mark)
  {
  }

  lemma NoTerms(fn: Mir.Function)
    ensures Len([]) == 0 && ShapedTerms([]) && TypedAs(fn, [], []) && TermsFit([]) && Straight([])
    ensures forall at: nat :: LowerTerms([], at) == []
  {
  }

  lemma Loads(fn: Mir.Function, i: nat)
    requires TwoLocals(fn) && i < 2
    ensures Len(Load(i)) == 1 && ShapedTerms(Load(i)) && TypedAs(fn, Load(i), [Mir.KI32])
    ensures TermsFit(Load(i)) && Straight(Load(i))
    ensures forall at: nat :: LowerTerms(Load(i), at) == [Mir.LocalLoad(i)]
    ensures forall at: nat, best: nat :: TermsMeet(Load(i), at, best) == best
  {
    var none: Kinds := [];
    assert none + [Mir.KI32] == [Mir.KI32];
  }

  lemma Sets(fn: Mir.Function)
    requires TwoLocals(fn)
    ensures StmtSize(SET) == 2 && ShapedStmt(SET, true) && TypedStmt(fn, SET) && Straight(SET.terms)
    ensures !StmtHasLoop(SET)
    ensures forall at: nat, x :: LowerStmt(SET, at, x) == [Mir.LocalLoad(1), Mir.LocalStore(0)]
    ensures forall at: nat, x, mark :: StmtFits(SET, at, x, mark)
    ensures forall at: nat, x, exit: nat, best: nat :: StmtMeet(SET, at, x, exit, best) == best
  {
    Loads(fn, 1);
    var ks: Kinds := [Mir.KI32];
    assert SET.terms[1..] == [Op(Mir.LocalStore(0))] && ks[..0] == [];
    assert TermKinds(fn, SET.terms[0], [], 0) == Some(ks);
    assert TermKinds(fn, SET.terms[1], ks, 0) == Some([]);
    var rest := SET.terms[1..];
    assert rest[0] == Op(Mir.LocalStore(0)) && rest[1..] == [];
    forall at: nat, x
      ensures LowerStmt(SET, at, x) == [Mir.LocalLoad(1), Mir.LocalStore(0)]
    {
      assert LowerTerms(rest[1..], at + 2) == [] && LowerTerm(rest[0], at + 1) == [Mir.LocalStore(0)];
      assert LowerTerms(rest, at + 1) == [Mir.LocalStore(0)] + [];
      assert LowerTerms(SET.terms, at) == [Mir.LocalLoad(1)] + [Mir.LocalStore(0)];
    }
    forall at: nat, x, exit: nat, best: nat
      ensures StmtMeet(SET, at, x, exit, best) == best
    {
      assert TermsMeet(rest[1..], at + 2, best) == best;
      assert TermsMeet(rest, at + 1, best) == best;
    }
  }

  lemma Leaves(fn: Mir.Function)
    requires TwoLocals(fn)
    ensures StmtSize(LEAVE) == 1
    ensures ShapedStmt(LEAVE, false) && ShapedStmt(LEAVE, true)
    ensures TypedStmt(fn, LEAVE)
    ensures !StmtHasLoop(LEAVE)
    ensures forall at: nat, x, mark :: StmtFits(LEAVE, at, x, mark)
    ensures forall at: nat, x :: LowerStmt(LEAVE, at, x) == [Mir.ReturnVoid]
    ensures forall at: nat, x, exit: nat, best: nat :: StmtMeet(LEAVE, at, x, exit, best) == best
  {
    assert LEAVE.terms[1..] == [];
    assert TermKinds(fn, LEAVE.terms[0], [], 0) == Some([]);
    forall at: nat, x
      ensures LowerStmt(LEAVE, at, x) == [Mir.ReturnVoid]
    {
      assert LEAVE.terms[0] == Op(Mir.ReturnVoid);
      assert LowerTerm(LEAVE.terms[0], at) == [Mir.ReturnVoid];
      assert LowerTerms(LEAVE.terms[1..], at + TermLen(LEAVE.terms[0])) == [];
      assert LowerTerms(LEAVE.terms, at) == [Mir.ReturnVoid] + [];
    }
    forall at: nat, x, exit: nat, best: nat
      ensures StmtMeet(LEAVE, at, x, exit, best) == best
    {
      assert TermsMeet(LEAVE.terms[1..], at + 1, best) == best;
    }
  }

  // ---- the functions ----------------------------------------------------------------------------

  /** A function of one statement and a return. */
  lemma Decided(fn: Mir.Function, s: Stmt)
    requires TwoLocals(fn) && fn.sigs == [] && fn.frame.None? && fn.result.None? && StmtSize(s) < 256
    requires ShapedStmt(s, false) && TypedStmt(fn, s) && fn.insts == LowerStmt(s, 0, NoLoop) + [Mir.ReturnVoid]
    ensures EmitBody(fn).Ok? <==> StmtFits(s, 0, NoLoop, None)
  {
    hide EmitBody, Fits, Lower, Typed, Shaped, EndsInEval, Size, ShapedStmt, TypedStmt, StmtSize, StmtFits, LowerStmt;
    Leaves(fn); Single(fn, LEAVE); Cons(fn, s, [LEAVE]); Ended(s);
    ShortExactly(fn, [s] + [LEAVE]);
  }

  lemma Ended(s: Stmt)
    ensures EndsInEval([s] + [LEAVE])
  {
    assert ([s] + [LEAVE])[1..] == [LEAVE];
    assert LEAVE.terms[1..] == [];
  }

  /** `for { if a { break } }` is emitted. */
  lemma BreakingEmitted()
    ensures EmitBody(Of([Mir.LocalLoad(0), Mir.JumpIfFalse(3), Mir.Jump(4), Mir.Jump(0), Mir.ReturnVoid])).Ok?
  {
    hide EmitBody;
    var fn := Of([Mir.LocalLoad(0), Mir.JumpIfFalse(3), Mir.Jump(4), Mir.Jump(0), Mir.ReturnVoid]);
    var branch := IfThen(Load(0), [Break]);
    var loop := Forever([branch]);
    Loads(fn, 0); Single(fn, Break); Single(fn, branch);
    assert StmtFits(branch, 0, InLoop(0, 4), Some(0));
    assert LowerStmt(branch, 0, InLoop(0, 4)) == [Mir.LocalLoad(0), Mir.JumpIfFalse(3), Mir.Jump(4)];
    Decided(fn, loop);
  }

  /** `for { a = b; if a { continue }; break }` is emitted. */
  lemma ContinuingEmitted()
    ensures EmitBody(Of([Mir.LocalLoad(1), Mir.LocalStore(0), Mir.LocalLoad(0), Mir.JumpIfFalse(5), Mir.Jump(0),
                         Mir.Jump(7), Mir.Jump(0), Mir.ReturnVoid])).Ok?
  {
    hide EmitBody, Load, TermsFit, Straight, TypedAs, ShapedTerms, LowerTerms, Len, Typed, Shaped, Lower, Size, Fits,
      HasLoop, IfEndsInContinue, EndsInContinue, Meet, TermsMeet, HasContinue;
    var fn := Of([Mir.LocalLoad(1), Mir.LocalStore(0), Mir.LocalLoad(0), Mir.JumpIfFalse(5), Mir.Jump(0),
                  Mir.Jump(7), Mir.Jump(0), Mir.ReturnVoid]);
    var branch := IfThen(Load(0), [Continue]);
    var loop := Forever([SET] + ([branch] + [Break]));
    Loads(fn, 0); Sets(fn); Single(fn, Continue); Single(fn, Break);
    Cons(fn, branch, [Break]); Cons(fn, SET, [branch] + [Break]);
    assert LowerStmt(branch, 2, InLoop(0, 7)) == [Mir.LocalLoad(0), Mir.JumpIfFalse(5), Mir.Jump(0)];
    assert StmtFits(branch, 2, InLoop(0, 7), Some(0));
    assert Fits([SET] + ([branch] + [Break]), 0, InLoop(0, 7), Some(0));
    assert !HasLoop([SET] + ([branch] + [Break]));
    assert !IfEndsInContinue([SET] + ([branch] + [Break]));
    assert StmtFits(loop, 0, NoLoop, None);
    assert LowerStmt(loop, 0, NoLoop) + [Mir.ReturnVoid] == fn.insts;
    Decided(fn, loop);
  }

  /** `for ; a; a = b { if b { continue }; a = b }` is emitted. */
  lemma SteppingEmitted()
    ensures EmitBody(Of([Mir.LocalLoad(0), Mir.JumpIfFalse(10), Mir.LocalLoad(1), Mir.JumpIfFalse(5), Mir.Jump(7),
                         Mir.LocalLoad(1), Mir.LocalStore(0), Mir.LocalLoad(1), Mir.LocalStore(0), Mir.Jump(0),
                         Mir.ReturnVoid])).Ok?
  {
    hide EmitBody, Load, TermsFit, Straight, Len, Size, Fits, StmtFits, BodyFits, CutFits, Meet, LowerStmt, TypedStmt,
      ShapedStmt;
    var fn := Of([Mir.LocalLoad(0), Mir.JumpIfFalse(10), Mir.LocalLoad(1), Mir.JumpIfFalse(5), Mir.Jump(7),
                  Mir.LocalLoad(1), Mir.LocalStore(0), Mir.LocalLoad(1), Mir.LocalStore(0), Mir.Jump(0),
                  Mir.ReturnVoid]);
    var loop := While(Load(0), [STEPPED] + [SET], SET.terms);
    Loads(fn, 0); SteppedLoop(fn, loop); StepCuts(fn);
    WhileFits(loop, 0, NoLoop, None);
    Decided(fn, loop);
  }

  lemma SteppedLoop(fn: Mir.Function, loop: Stmt)
    requires TwoLocals(fn) && loop == While(Load(0), [STEPPED] + [SET], SET.terms)
    ensures ShapedStmt(loop, false) && TypedStmt(fn, loop) && Straight(loop.post)
    ensures Size(loop.body) == 5 && Len(loop.post) == 2 && Len(loop.cond) == 1
    ensures Meet(loop.body, 2, InLoop(7, 10), 10, 0) == 7
    ensures LowerStmt(loop, 0, NoLoop) ==
      [Mir.LocalLoad(0), Mir.JumpIfFalse(10), Mir.LocalLoad(1), Mir.JumpIfFalse(5), Mir.Jump(7), Mir.LocalLoad(1),
       Mir.LocalStore(0), Mir.LocalLoad(1), Mir.LocalStore(0), Mir.Jump(0)]
  {
    hide Load, TermsFit, Straight, TypedAs, ShapedTerms, LowerTerms, Len, Typed, Shaped, Lower, Size, Fits, StmtFits,
      Meet, TermsMeet;
    Loads(fn, 0); Sets(fn); Steps(fn); Single(fn, SET); Cons(fn, STEPPED, [SET]);
    assert StmtMeet(SET, 5, InLoop(7, 10), 10, 7) == 7;
    assert LowerStmt(SET, 7, NoLoop) == LowerTerms(SET.terms, 7);
  }

  const STEPPED := IfThen(Load(1), [Continue])

  lemma Steps(fn: Mir.Function)
    requires TwoLocals(fn)
    ensures StmtSize(STEPPED) == 3 && ShapedStmt(STEPPED, true) && TypedStmt(fn, STEPPED)
    ensures StmtMeet(STEPPED, 2, InLoop(7, 10), 10, 0) == 7 && StmtFits(STEPPED, 2, InLoop(7, 10), Some(7))
    ensures LowerStmt(STEPPED, 2, InLoop(7, 10)) == [Mir.LocalLoad(1), Mir.JumpIfFalse(5), Mir.Jump(7)]
  {
    hide Load, TermsFit, TermsMeet, TypedAs, ShapedTerms, LowerTerms, Len, Lower, Meet, Size, Typed, Shaped, Fits;
    Loads(fn, 1); Single(fn, Continue);
  }

  lemma StepCuts(fn: Mir.Function)
    requires TwoLocals(fn)
    ensures CutFits([STEPPED] + [SET], 2, InLoop(7, 10), 0, 7)
  {
    hide StmtFits, StmtSize;
    Sets(fn); Steps(fn);
    var body := [STEPPED] + [SET];
    assert body[0] == STEPPED && body[1..] == [SET] && [SET][1..] == [];
    assert CutFits([], 7, InLoop(7, 10), 0, 7);
    assert CutFits([SET], 5, InLoop(7, 10), 0, 7);
  }

  /** `if a { }` is refused. */
  lemma EmptyThenRefused()
    ensures EmitBody(Of([Mir.LocalLoad(0), Mir.JumpIfFalse(2), Mir.ReturnVoid])).Err?
  {
    hide EmitBody;
    var fn := Of([Mir.LocalLoad(0), Mir.JumpIfFalse(2), Mir.ReturnVoid]);
    var branch := IfThen(Load(0), []);
    Loads(fn, 0);
    Decided(fn, branch);
  }

  /** `if a { return } else { }` is refused. */
  lemma EmptyElseRefused()
    ensures EmitBody(Of([Mir.LocalLoad(0), Mir.JumpIfFalse(4), Mir.ReturnVoid, Mir.Jump(4), Mir.ReturnVoid])).Err?
  {
    hide EmitBody;
    var fn := Of([Mir.LocalLoad(0), Mir.JumpIfFalse(4), Mir.ReturnVoid, Mir.Jump(4), Mir.ReturnVoid]);
    var branch := IfElse(Load(0), [LEAVE], []);
    Loads(fn, 0); Leaves(fn); Single(fn, LEAVE);
    assert LowerStmt(branch, 0, NoLoop) == [Mir.LocalLoad(0), Mir.JumpIfFalse(4), Mir.ReturnVoid, Mir.Jump(4)];
    Decided(fn, branch);
  }

  /** `for a { }` is refused. */
  lemma EmptyLoopRefused()
    ensures EmitBody(Of([Mir.LocalLoad(0), Mir.JumpIfFalse(3), Mir.Jump(0), Mir.ReturnVoid])).Err?
  {
    hide EmitBody;
    var fn := Of([Mir.LocalLoad(0), Mir.JumpIfFalse(3), Mir.Jump(0), Mir.ReturnVoid]);
    var loop := While(Load(0), [], []);
    Loads(fn, 0);
    Decided(fn, loop);
  }

  /** `for { a = b; for a { a = b } }` is refused. */
  lemma LoopInEndlessRefused()
    ensures EmitBody(Of([Mir.LocalLoad(1), Mir.LocalStore(0), Mir.LocalLoad(0), Mir.JumpIfFalse(7), Mir.LocalLoad(1),
                         Mir.LocalStore(0), Mir.Jump(2), Mir.Jump(0), Mir.ReturnVoid])).Err?
  {
    hide EmitBody, Load, TermsFit, Straight, TermsMeet, TypedAs, ShapedTerms, LowerTerms, Len, BodyFits, CutFits, Meet,
      Fits, EndsInContinue, IfEndsInContinue, HasContinue;
    var fn := Of([Mir.LocalLoad(1), Mir.LocalStore(0), Mir.LocalLoad(0), Mir.JumpIfFalse(7), Mir.LocalLoad(1),
                  Mir.LocalStore(0), Mir.Jump(2), Mir.Jump(0), Mir.ReturnVoid]);
    var inner := While(Load(0), [SET], []);
    var loop := Forever([SET] + [inner]);
    Loads(fn, 0); Sets(fn); NoTerms(fn); Single(fn, SET); Single(fn, inner); Cons(fn, SET, [inner]);
    assert LowerStmt(inner, 2, InLoop(0, 8))
        == [Mir.LocalLoad(0), Mir.JumpIfFalse(7), Mir.LocalLoad(1), Mir.LocalStore(0), Mir.Jump(2)];
    assert LowerStmt(loop, 0, NoLoop) + [Mir.ReturnVoid] == fn.insts;
    Decided(fn, loop);
  }

  /** `for { if a { a = b; continue } return }` is refused. */
  lemma ContinueInIfRefused()
    ensures EmitBody(Of([Mir.LocalLoad(0), Mir.JumpIfFalse(5), Mir.LocalLoad(1), Mir.LocalStore(0), Mir.Jump(0),
                         Mir.ReturnVoid, Mir.Jump(0), Mir.ReturnVoid])).Err?
  {
    hide EmitBody, Load, TermsFit, Straight, TermsMeet, TypedAs, ShapedTerms, LowerTerms, Len;
    var fn := Of([Mir.LocalLoad(0), Mir.JumpIfFalse(5), Mir.LocalLoad(1), Mir.LocalStore(0), Mir.Jump(0),
                  Mir.ReturnVoid, Mir.Jump(0), Mir.ReturnVoid]);
    var branch := IfThen(Load(0), [SET] + [Continue]);
    var loop := Forever([branch] + [LEAVE]);
    Loads(fn, 0); Sets(fn); Leaves(fn); Single(fn, Continue); Single(fn, LEAVE);
    Cons(fn, SET, [Continue]); Cons(fn, branch, [LEAVE]);
    assert LowerStmt(branch, 0, InLoop(0, 7))
        == [Mir.LocalLoad(0), Mir.JumpIfFalse(5), Mir.LocalLoad(1), Mir.LocalStore(0), Mir.Jump(0)];
    assert LowerStmt(loop, 0, NoLoop) + [Mir.ReturnVoid] == fn.insts;
    Decided(fn, loop);
  }

  lemma Operators(fn: Mir.Function)
    requires TwoLocals(fn)
    ensures var both := [And(Load(0), Load(1))];
      && Len(both) == 7 && ShapedTerms(both) && TypedAs(fn, both, [Mir.KI32]) && TermsFit(both) && !Straight(both)
      && (forall at: nat, best: nat :: TermsMeet(both, at, best) == Max(best, at + 7))
      && (forall at: nat :: LowerTerms(both, at) ==
            [Mir.LocalLoad(0), Mir.JumpIfFalse(at + 6), Mir.LocalLoad(1), Mir.JumpIfFalse(at + 6), Mir.PushBool(true),
             Mir.Jump(at + 7), Mir.PushBool(false)])
  {
    Loads(fn, 0); Loads(fn, 1);
    var both := [And(Load(0), Load(1))];
    var none: Kinds := [];
    assert both[1..] == [] && none + [Mir.KI32] == [Mir.KI32] && [Mir.KI32][..0] == none;
    assert TermKinds(fn, both[0], none, 0) == Some([Mir.KI32]);
    forall at: nat
      ensures LowerTerms(both, at) ==
            [Mir.LocalLoad(0), Mir.JumpIfFalse(at + 6), Mir.LocalLoad(1), Mir.JumpIfFalse(at + 6), Mir.PushBool(true),
             Mir.Jump(at + 7), Mir.PushBool(false)]
    {
      assert LowerTerms(both[1..], at + 7) == [];
      assert LowerTerms(both, at) == LowerTerm(both[0], at) + [];
    }
  }

  const TEST_BOTH := IfThen([And(Load(0), Load(1))], [LEAVE])

  const TEST_BOTH_CODE := [Mir.LocalLoad(0), Mir.JumpIfFalse(8), Mir.LocalLoad(1), Mir.JumpIfFalse(8),
    Mir.PushBool(true),
    Mir.Jump(9), Mir.PushBool(false), Mir.JumpIfFalse(11), Mir.ReturnVoid]

  lemma TestsBoth(fn: Mir.Function)
    requires TwoLocals(fn)
    ensures StmtSize(TEST_BOTH) == 9 && ShapedStmt(TEST_BOTH, true) && TypedStmt(fn, TEST_BOTH)
     
    ensures StmtMeet(TEST_BOTH, 2, InLoop(0, 12), 12, 0) == 9
    ensures LowerStmt(TEST_BOTH, 2, InLoop(0, 12)) == TEST_BOTH_CODE
  {
    hide Load, TermsFit, Straight, TermsMeet, TypedAs, ShapedTerms, LowerTerms, Len, Lower, Meet, Size, Typed, Shaped;
    Operators(fn); Leaves(fn); Single(fn, LEAVE);
  }

  /** `for a { if a && b { return } }` is refused. */
  lemma OperatorInLoopRefused()
    ensures EmitBody(Of([Mir.LocalLoad(0), Mir.JumpIfFalse(12)] + TEST_BOTH_CODE + [Mir.Jump(0), Mir.ReturnVoid])).Err?
  {
    hide EmitBody, Load, TermsFit, Straight, TermsMeet, TypedAs, ShapedTerms, LowerTerms, Len, Lower, Meet, Size, Typed,
      Shaped, StmtFits, BodyFits, Fits;
    var fn := Of([Mir.LocalLoad(0), Mir.JumpIfFalse(12)] + TEST_BOTH_CODE + [Mir.Jump(0), Mir.ReturnVoid]);
    var loop := While(Load(0), [TEST_BOTH], []);
    Loads(fn, 0); NoTerms(fn); TestsBoth(fn); Single(fn, TEST_BOTH);
    WhileFits(loop, 0, NoLoop, None);
    OperatorLoop(fn, loop);
    Decided(fn, loop);
  }

  lemma OperatorLoop(fn: Mir.Function, loop: Stmt)
    requires TwoLocals(fn) && loop == While(Load(0), [TEST_BOTH], [])
    ensures ShapedStmt(loop, false)
    ensures LowerStmt(loop, 0, NoLoop) == [Mir.LocalLoad(0), Mir.JumpIfFalse(12)] + TEST_BOTH_CODE + [Mir.Jump(0)]
  {
    hide Load, ShapedTerms, LowerTerms, Len, Lower, Size, Shaped;
    Loads(fn, 0); NoTerms(fn); TestsBoth(fn); Single(fn, TEST_BOTH);
    assert [Mir.LocalLoad(0)] + [Mir.JumpIfFalse(12)] + TEST_BOTH_CODE + [] + [Mir.Jump(0)]
        == [Mir.LocalLoad(0), Mir.JumpIfFalse(12)] + TEST_BOTH_CODE + [Mir.Jump(0)];
  }

  const EITHER: seq<Term> := [Or(Load(0), [And(Load(0), Load(1))])]

  const EITHER_CODE := [Mir.LocalLoad(0), Mir.JumpIfFalse(4), Mir.PushBool(true), Mir.Jump(15),
    Mir.LocalLoad(0), Mir.JumpIfFalse(10), Mir.LocalLoad(1), Mir.JumpIfFalse(10), Mir.PushBool(true), Mir.Jump(11),
    Mir.PushBool(false), Mir.JumpIfFalse(14), Mir.PushBool(true), Mir.Jump(15), Mir.PushBool(false)]

  lemma TestsEither(fn: Mir.Function)
    requires TwoLocals(fn)
    ensures Len(EITHER) == 15 && ShapedTerms(EITHER) && TypedAs(fn, EITHER, [Mir.KI32]) && !TermsFit(EITHER)
  {
    hide Load, LowerTerms, TermsMeet;
    Loads(fn, 0); Operators(fn);
    var none: Kinds := [];
    assert EITHER[1..] == [] && none + [Mir.KI32] == [Mir.KI32] && [Mir.KI32][..0] == none;
    assert TermKinds(fn, EITHER[0], none, 0) == Some([Mir.KI32]);
  }

  lemma EitherCode(fn: Mir.Function)
    requires TwoLocals(fn)
    ensures LowerTerms(EITHER, 0) == EITHER_CODE
  {
    hide Load, TermsKinds, TermsMeet, TermsFit, TypedAs, ShapedTerms;
    Loads(fn, 0); Operators(fn);
    assert EITHER[1..] == [];
    assert LowerTerms(EITHER[1..], 15) == [];
    assert LowerTerms(EITHER, 0) == LowerTerm(EITHER[0], 0) + [];
  }

  /** `if a || a && b { return }` is refused. */
  lemma OperatorBehindOrRefused()
    ensures EmitBody(Of(EITHER_CODE + [Mir.JumpIfFalse(17), Mir.ReturnVoid, Mir.ReturnVoid])).Err?
  {
    hide EmitBody, Load, TermsFit, Straight, TermsMeet, TypedAs, ShapedTerms, LowerTerms, Len, Lower, Meet, Size, Typed,
      Shaped, Fits;
    var fn := Of(EITHER_CODE + [Mir.JumpIfFalse(17), Mir.ReturnVoid, Mir.ReturnVoid]);
    var branch := IfThen(EITHER, [LEAVE]);
    TestsEither(fn); EitherCode(fn); Leaves(fn); Single(fn, LEAVE);
    assert LowerStmt(branch, 0, NoLoop) + [Mir.ReturnVoid] == fn.insts;
    Decided(fn, branch);
  }

  const SKIP := IfThen(Load(1), [Continue])

  const CHOOSE := IfElse(Load(0), [LEAVE], [SET])

  const SKIP_CHOOSE: seq<Stmt> := [SKIP] + ([CHOOSE] + [SET])

  lemma Skips(fn: Mir.Function)
    requires TwoLocals(fn)
    ensures StmtSize(SKIP) == 3 && ShapedStmt(SKIP, true) && TypedStmt(fn, SKIP)
    ensures StmtMeet(SKIP, 2, InLoop(0, 14), 14, 0) == 0 && !StmtFits(SKIP, 2, InLoop(0, 14), Some(11))
    ensures LowerStmt(SKIP, 2, InLoop(0, 14)) == [Mir.LocalLoad(1), Mir.JumpIfFalse(5), Mir.Jump(0)]
  {
    hide Load, TermsFit, TermsMeet, TypedAs, ShapedTerms, LowerTerms, Len, Lower, Meet, Size, Typed, Shaped,
      Fits;
    Loads(fn, 1); Single(fn, Continue);
  }

  lemma Chooses(fn: Mir.Function)
    requires TwoLocals(fn)
    ensures StmtSize(CHOOSE) == 6 && ShapedStmt(CHOOSE, true) && TypedStmt(fn, CHOOSE)
    ensures StmtMeet(CHOOSE, 5, InLoop(0, 14), 14, 0) == 11
    ensures LowerStmt(CHOOSE, 5, InLoop(0, 14)) ==
      [Mir.LocalLoad(0), Mir.JumpIfFalse(9), Mir.ReturnVoid, Mir.Jump(11), Mir.LocalLoad(1), Mir.LocalStore(0)]
  {
    hide Load, TermsFit, TermsMeet, TypedAs, ShapedTerms, LowerTerms, Len, Lower, Meet, Size, Typed, Shaped,
      Fits;
    Loads(fn, 0); Sets(fn); Leaves(fn); Single(fn, LEAVE); Single(fn, SET);
  }

  lemma SkipThenChoose(fn: Mir.Function)
    requires TwoLocals(fn)
    ensures Size(SKIP_CHOOSE) == 11 && Shaped(SKIP_CHOOSE, true) && Typed(fn, SKIP_CHOOSE)
    ensures Meet(SKIP_CHOOSE, 2, InLoop(0, 14), 14, 0) == 11 && !CutFits(SKIP_CHOOSE, 2, InLoop(0, 14), 0, 11)
    ensures Lower(SKIP_CHOOSE, 2, InLoop(0, 14)) ==
      [Mir.LocalLoad(1), Mir.JumpIfFalse(5), Mir.Jump(0)]
      + ([Mir.LocalLoad(0), Mir.JumpIfFalse(9), Mir.ReturnVoid, Mir.Jump(11), Mir.LocalLoad(1), Mir.LocalStore(0)]
         + [Mir.LocalLoad(1), Mir.LocalStore(0)])
  {
    hide Lower, Meet, Size, Typed, Shaped, Fits, StmtFits, StmtMeet, LowerStmt, StmtSize, ShapedStmt,
      TypedStmt;
    Skips(fn); Chooses(fn); Sets(fn); Single(fn, SET);
    Cons(fn, CHOOSE, [SET]); Cons(fn, SKIP, [CHOOSE] + [SET]);
    assert SKIP_CHOOSE[0] == SKIP;
  }

  /** `for a { if b { continue }; if a { return } else { a = b }; a = b }` is refused. */
  lemma EarlyContinueRefused()
    ensures EmitBody(Of(
      [Mir.LocalLoad(0), Mir.JumpIfFalse(14), Mir.LocalLoad(1), Mir.JumpIfFalse(5), Mir.Jump(0),
       Mir.LocalLoad(0), Mir.JumpIfFalse(9), Mir.ReturnVoid, Mir.Jump(11), Mir.LocalLoad(1), Mir.LocalStore(0),
       Mir.LocalLoad(1), Mir.LocalStore(0), Mir.Jump(0), Mir.ReturnVoid])).Err?
  {
    hide EmitBody, Load, TermsFit, Straight, TermsMeet, TypedAs, ShapedTerms, LowerTerms, Len, Lower, Meet, Size, Typed,
      Shaped, StmtFits, BodyFits, Fits, CutFits;
    var fn := Of(
      [Mir.LocalLoad(0), Mir.JumpIfFalse(14), Mir.LocalLoad(1), Mir.JumpIfFalse(5), Mir.Jump(0),
       Mir.LocalLoad(0), Mir.JumpIfFalse(9), Mir.ReturnVoid, Mir.Jump(11), Mir.LocalLoad(1), Mir.LocalStore(0),
       Mir.LocalLoad(1), Mir.LocalStore(0), Mir.Jump(0), Mir.ReturnVoid]);
    var loop := While(Load(0), SKIP_CHOOSE, []);
    Loads(fn, 0); NoTerms(fn); SkipThenChoose(fn);
    WhileFits(loop, 0, NoLoop, None);
    assert LowerStmt(loop, 0, NoLoop) + [Mir.ReturnVoid] == fn.insts;
    Decided(fn, loop);
  }

  const INNER := Forever([IfThen(Load(0), [Break])])

  const OUTER := Forever([INNER] + [LEAVE])

  const ENDLESS_CODE :=
    [Mir.LocalLoad(0), Mir.JumpIfFalse(3), Mir.Jump(4), Mir.Jump(0), Mir.ReturnVoid, Mir.Jump(0)]

  lemma OuterCode(fn: Mir.Function)
    requires TwoLocals(fn)
    ensures ShapedStmt(OUTER, false) && TypedStmt(fn, OUTER) && StmtSize(OUTER) == 6
    ensures LowerStmt(OUTER, 0, NoLoop) == ENDLESS_CODE
  {
    hide Load, TermsFit, TypedAs, ShapedTerms, LowerTerms, Len, Lower, Size, Typed, Shaped, Fits, HasLoop;
    var branch := IfThen(Load(0), [Break]);
    Loads(fn, 0); Leaves(fn); Single(fn, LEAVE); Single(fn, Break); Single(fn, branch); Cons(fn, INNER, [LEAVE]);
    assert LowerStmt(INNER, 0, InLoop(0, 6)) == [Mir.LocalLoad(0), Mir.JumpIfFalse(3), Mir.Jump(4), Mir.Jump(0)];
  }

  lemma OuterFits(fn: Mir.Function)
    requires TwoLocals(fn)
    ensures StmtFits(OUTER, 0, NoLoop, None)
  {
    hide Load, TermsFit, Len, HasLoop, IfEndsInContinue, LeadHasLoop, LeadIfEnds, Fits, Size;
    var branch, x := IfThen(Load(0), [Break]), InLoop(0, 6);
    Loads(fn, 0); Leaves(fn); Single(fn, LEAVE); Single(fn, Break); Single(fn, branch); Cons(fn, INNER, [LEAVE]);
    assert [Break][1..] == [] && [branch][1..] == [];
    assert Size([]) == 0 by { Nothing(fn); }
    assert BreakFits([Break], 2, x, Some(0));
    assert HasBreak([Break]) && StmtHasBreak(branch);
    assert OpenFits([], 3, x, Some(0));
    assert OpenFits([branch], 0, x, Some(0));
    assert StmtFits(INNER, 0, x, Some(0));
    assert Fits([INNER] + [LEAVE], 0, x, Some(0));
    assert !LeadHasLoop([INNER] + [LEAVE]);
    assert !LeadIfEnds([INNER] + [LEAVE]);
  }

  /** `for { for { if a { break } }; return }` is emitted: as one loop, with the `return` in an `else`. */
  lemma EndlessInEndless()
    ensures EmitBody(Of(ENDLESS_CODE + [Mir.ReturnVoid])).Ok?
  {
    hide EmitBody, StmtFits, LowerStmt, StmtSize, ShapedStmt, TypedStmt;
    var fn := Of(ENDLESS_CODE + [Mir.ReturnVoid]);
    OuterCode(fn); OuterFits(fn);
    Decided(fn, OUTER);
  }

  const STRAY := IfElse(Load(0), [Break], [SET])

  const AROUND := Forever([Forever([STRAY])] + [LEAVE])

  const STRAY_CODE :=
    [Mir.LocalLoad(0), Mir.JumpIfFalse(4), Mir.Jump(7), Mir.Jump(6), Mir.LocalLoad(1), Mir.LocalStore(0), Mir.Jump(0)]

  lemma AroundCode(fn: Mir.Function)
    requires TwoLocals(fn)
    ensures ShapedStmt(AROUND, false) && TypedStmt(fn, AROUND) && StmtSize(AROUND) == 9
    ensures LowerStmt(AROUND, 0, NoLoop) == STRAY_CODE + [Mir.ReturnVoid, Mir.Jump(0)]
  {
    hide Load, TypedAs, ShapedTerms, LowerTerms, Len, Lower, Size, Typed, Shaped;
    var inner := Forever([STRAY]);
    Loads(fn, 0); Sets(fn); Leaves(fn); Single(fn, LEAVE); Single(fn, Break); Single(fn, SET); Single(fn, STRAY);
    Cons(fn, inner, [LEAVE]);
    assert Shaped([Break], true) && Shaped([SET], true) && Typed(fn, [Break]) && Typed(fn, [SET]);
    assert ShapedStmt(STRAY, true) && TypedStmt(fn, STRAY) && StmtSize(STRAY) == 6;
    assert ShapedStmt(inner, true) && TypedStmt(fn, inner) && StmtSize(inner) == 7;
    assert LowerStmt(STRAY, 0, InLoop(0, 7)) ==
      [Mir.LocalLoad(0)] + [Mir.JumpIfFalse(4)] + [Mir.Jump(7)] + [Mir.Jump(6)] + [Mir.LocalLoad(1), Mir.LocalStore(0)];
    assert LowerStmt(STRAY, 0, InLoop(0, 7)) == STRAY_CODE[..6];
    assert LowerStmt(inner, 0, InLoop(0, 9)) == STRAY_CODE;
  }

  lemma AroundMisfits()
    ensures !StmtFits(AROUND, 0, NoLoop, None)
  {
    hide Load, TermsFit, Len, Size, Fits, HasLoop, LeadHasLoop, LeadIfEnds;
    var inner := Forever([STRAY]);
    Cons(Of([]), inner, [LEAVE]);
    assert HasBreak([Break]) && StmtHasBreak(STRAY);
    assert !OpenFits([STRAY], 0, InLoop(0, 9), Some(0));
    assert !StmtFits(inner, 0, InLoop(0, 9), Some(0));
    assert StmtSize(AROUND) == 9 by { AroundCode(Of([])); }
  }

  /** `for { for { if a { break } else { a = b } }; return }` is refused. */
  lemma StrayBreakRefused()
    ensures EmitBody(Of(STRAY_CODE + [Mir.ReturnVoid, Mir.Jump(0)] + [Mir.ReturnVoid])).Err?
  {
    hide EmitBody, StmtFits, LowerStmt, StmtSize, ShapedStmt, TypedStmt;
    var fn := Of(STRAY_CODE + [Mir.ReturnVoid, Mir.Jump(0)] + [Mir.ReturnVoid]);
    AroundCode(fn); AroundMisfits();
    Decided(fn, AROUND);
  }
}
