/**
 * One function from end to end, `while a && b { a = a - 1 } return a`: a loop whose condition is a
 * chain of conditions. Its stack map is checked, and its code is what the structuring pass emits.
 */
module Examples {
  import opened Words
  import M = Mir
  import opened StackMap
  import opened Wasm
  import opened Emitter
  import opened StraightCode

  const CHAIN := M.Function(
    [M.LocalLoad(0), M.JumpIfFalse(6), M.LocalLoad(1), M.JumpIfFalse(6), M.PushBool(true), M.Jump(7), M.PushBool(false),
     M.JumpIfFalse(13), M.LocalLoad(0), M.PushInt(1), M.Binary(M.Sub), M.LocalStore(0), M.Jump(0),
     M.LocalLoad(0), M.Return],
    [M.KI32, M.KI32], [], Some(M.KI32), None)

  const ONE: Kinds := [M.KI32]

  const CHAIN_KINDS: seq<Kinds> :=
    [[], ONE, [], ONE, [], ONE, [], ONE, [], ONE, [M.KI32, M.KI32], ONE, [], [], ONE, []]

  /** An `and` is an `if` with a result, and its last operand another one inside it. */
  const CONDITION :=
    [LocalGet(0), IfElse(Some(TI32), [LocalGet(1), IfElse(Some(TI32), [I32Const(1)], [I32Const(0)])], [I32Const(0)])]

  const BODY := [LocalGet(0), I32Const(1), Numeric(0x6b), LocalSet(0)]

  const CHAIN_CODE :=
    [Block([Loop(CONDITION + [Numeric(0x45), BrIf(1), Block(BODY), Br(0)])]), LocalGet(0), Return]

  // ---- the stack map ---------------------------------------------------------------------------

  lemma ChainStraight(pc: nat)
    requires pc < |CHAIN.insts| && pc !in {1, 3, 5, 7, 12}
    ensures InstOk(CHAIN, CHAIN_KINDS, pc)
  {
    var k := CHAIN_KINDS;
    assert [] + [M.KI32] == ONE && ONE[..0] == [];
    if pc == 9 || pc == 10 {
      assert ONE + [M.KI32] == [M.KI32, M.KI32] && [M.KI32, M.KI32][..0] == [];
    }
  }

  lemma ChainJump(pc: nat)
    requires pc in {1, 3, 5, 7, 12}
    ensures InstOk(CHAIN, CHAIN_KINDS, pc)
  {
    hide Low;
    var k := CHAIN_KINDS;
    assert ONE[..0] == [];
    ChainAbove();
  }

  /** No instruction takes more operands than there are. */
  lemma ChainAbove()
    ensures forall j :: 0 <= j < |CHAIN.insts| ==> Low(CHAIN, CHAIN_KINDS, j) >= 0
    ensures Low(CHAIN, CHAIN_KINDS, 6) >= 0
  {
    forall j | 0 <= j < |CHAIN.insts|
      ensures Low(CHAIN, CHAIN_KINDS, j) >= 0
    {
      LowAt(j);
    }
  }

  lemma LowAt(j: nat)
    requires j < |CHAIN.insts|
    ensures Low(CHAIN, CHAIN_KINDS, j) >= 0
  {
  }

  lemma ChainDiamonds(pc: nat)
    requires pc < |CHAIN.insts|
    ensures DiamondsClosed(CHAIN, pc)
  {
    hide EmitRange;
    var fn := CHAIN;
    assert pc != 1 && pc != 3 && pc != 7 ==> !fn.insts[pc].JumpIfFalse?;
    assert AndShape(fn, 7, |fn.insts|).None?;
  }

  lemma ChainWellFormed()
    ensures WellFormed(CHAIN, CHAIN_KINDS)
  {
    hide InstOk, DiamondsClosed;
    forall pc: nat | pc < |CHAIN.insts|
      ensures InstOk(CHAIN, CHAIN_KINDS, pc) && DiamondsClosed(CHAIN, pc)
    {
      if pc in {1, 3, 5, 7, 12} {
        ChainJump(pc);
      } else {
        ChainStraight(pc);
      }
      ChainDiamonds(pc);
    }
  }

  // ---- straight pieces -------------------------------------------------------------------------

  lemma ChainLocals(t: Targets)
    ensures EmitLeaf(CHAIN, t, M.LocalLoad(0), []) == Ok([LocalGet(0)], ONE)
    ensures EmitLeaf(CHAIN, t, M.LocalLoad(1), []) == Ok([LocalGet(1)], ONE)
    ensures EmitLeaf(CHAIN, t, M.LocalStore(0), ONE) == Ok([LocalSet(0)], [])
  {
    hide EmitUnary, EmitBinary, EmitCall;
    LocalsHere();
    assert [] + [M.KI32] == ONE && ONE[..0] == [];
  }

  lemma LocalsHere()
    ensures LocalIndex(CHAIN, 0) == 0 && LocalIndex(CHAIN, 1) == 1
  {
    assert CHAIN.localKinds[..0] == [] && CHAIN.localKinds[..1] == ONE && ONE[..0] == [];
  }

  lemma ChainSubtracts(t: Targets)
    ensures EmitLeaf(CHAIN, t, M.PushInt(1), ONE) == Ok([I32Const(1)], [M.KI32, M.KI32])
    ensures EmitLeaf(CHAIN, t, M.Binary(M.Sub), [M.KI32, M.KI32]) == Ok([Numeric(0x6b)], ONE)
  {
    hide EmitUnary, StringEquality, EmitCall, LocalIndex;
    assert ONE + [M.KI32] == [M.KI32, M.KI32] && [M.KI32, M.KI32][..0] == [] && [] + [M.KI32] == ONE;
  }

  lemma ChainReturns(t: Targets)
    ensures EmitLeaf(CHAIN, t, M.Return, ONE) == Ok([Return], [])
  {
    hide EmitSimple;
    assert ONE[..0] == [];
  }

  lemma ChainLeaves(t: Targets)
    ensures EmitLeaf(CHAIN, t, M.LocalLoad(0), []) == Ok([LocalGet(0)], ONE)
    ensures EmitLeaf(CHAIN, t, M.LocalLoad(1), []) == Ok([LocalGet(1)], ONE)
    ensures EmitLeaf(CHAIN, t, M.PushInt(1), ONE) == Ok([I32Const(1)], [M.KI32, M.KI32])
    ensures EmitLeaf(CHAIN, t, M.Binary(M.Sub), [M.KI32, M.KI32]) == Ok([Numeric(0x6b)], ONE)
    ensures EmitLeaf(CHAIN, t, M.LocalStore(0), ONE) == Ok([LocalSet(0)], [])
    ensures EmitLeaf(CHAIN, t, M.Return, ONE) == Ok([Return], [])
  {
    hide EmitLeaf;
    ChainLocals(t);
    ChainSubtracts(t);
    ChainReturns(t);
  }

  lemma ChainPieces(t: Targets)
    ensures EmitRange(CHAIN, t, 0, 1, []) == Ok([LocalGet(0)], ONE)
    ensures EmitRange(CHAIN, t, 2, 3, []) == Ok([LocalGet(1)], ONE)
    ensures EmitRange(CHAIN, t, 8, 12, []) == Ok(BODY, [])
    ensures EmitRange(CHAIN, t, 13, 15, []) == Ok([LocalGet(0), Return], [])
  {
    hide EmitRange, EmitLeaf;
    var fn := CHAIN;
    ChainLeaves(t);
    StraightIsLeaves(fn, t, 0, 1, []);
    StraightIsLeaves(fn, t, 2, 3, []);
    StraightIsLeaves(fn, t, 8, 12, []);
    StraightIsLeaves(fn, t, 13, 15, []);
    assert EmitLeaves(fn, t, 11, 12, ONE) == Ok([LocalSet(0)], []);
    assert EmitLeaves(fn, t, 10, 12, [M.KI32, M.KI32]) == Ok([Numeric(0x6b), LocalSet(0)], []);
    assert EmitLeaves(fn, t, 9, 12, ONE) == Ok([I32Const(1), Numeric(0x6b), LocalSet(0)], []);
    assert EmitLeaves(fn, t, 14, 15, ONE) == Ok([Return], []);
  }

  // ---- the chain of conditions ---------------------------------------------------------------------

  lemma LastOperand()
    ensures EmitAnd(CHAIN, NO_TARGETS, 4, 6, []) == Ok([IfElse(Some(TI32), [I32Const(1)], [I32Const(0)])], ONE)
  {
    hide EmitRange;
    assert [] + [M.KI32] == ONE && ONE[..0] == [];
  }

  lemma SecondOperand()
    ensures FindAndOperand(CHAIN, 2, 6) == Some(3)
  {
    assert FindBranch(CHAIN, 3, 6, Some(6)) == Some(3);
  }

  lemma OperandTail()
    ensures EmitAndTail(CHAIN, NO_TARGETS, 2, 6, []) == Ok(CONDITION[1].thn, ONE)
  {
    hide EmitRange, EmitAnd, FindAndOperand;
    ChainPieces(NO_TARGETS);
    LastOperand();
    SecondOperand();
    assert ONE[..0] == [];
  }

  lemma BothOperands()
    ensures EmitAnd(CHAIN, NO_TARGETS, 2, 6, []) == Ok([CONDITION[1]], ONE)
  {
    hide EmitRange, EmitAndTail;
    OperandTail();
    assert [] + [M.KI32] == ONE && ONE[..0] == [];
  }

  lemma NoLoopInCondition(s: nat)
    requires s <= 1
    ensures FindLoop(CHAIN, s, 7).None? && FindBackedge(CHAIN, s, 7).None?
  {
    var fn := CHAIN;
    assert FindLoopFrom(fn, s, 7, 6).None?;
    assert FindLoopFrom(fn, s, 7, 4).None?;
    assert FindLoopFrom(fn, s, 7, 2).None?;
    assert FindBackedge(fn, s, 3).None?;
    assert FindBackedge(fn, s, 5).None?;
  }

  lemma ConditionEmitted()
    ensures EmitRange(CHAIN, NO_TARGETS, 0, 7, []) == Ok(CONDITION, ONE)
  {
    hide EmitLeaf, EmitAnd, FindLoop, FindBackedge;
    var fn := CHAIN;
    NoLoopInCondition(0);
    NoLoopInCondition(1);
    ChainLeaves(NO_TARGETS);
    BothOperands();
    assert ONE[..0] == [];
    assert AndShape(fn, 1, 7) == Some(Diamond(6, 7)) && OrShape(fn, 1, 7).None?;
    assert EmitConstruct(fn, NO_TARGETS, 1, 7, ONE) == Next([CONDITION[1]], ONE, 7);
    assert EmitRange(fn, NO_TARGETS, 1, 7, ONE) == Ok([CONDITION[1]], ONE);
    assert EmitConstruct(fn, NO_TARGETS, 0, 7, []) == Next([LocalGet(0)], ONE, 1);
    assert [LocalGet(0)] + [CONDITION[1]] == CONDITION;
  }

  // ---- the loop --------------------------------------------------------------------------------

  const REGION := Region(0, 7, 12, 12, 13)

  lemma ChainLoop()
    ensures KindAt(CHAIN, NO_TARGETS, 0, 15) == AWhile(REGION)
  {
    hide EmitRange;
    var fn := CHAIN;
    assert LastForwardTarget(fn, 12, 13, 0) == 0;
    assert LastForwardTarget(fn, 10, 13, 0) == 0;
    assert LastForwardTarget(fn, 8, 13, 0) == 0;
    assert IsLoopBranch(fn, 0, 15, 7);
    assert FindLoopFrom(fn, 0, 15, 6) == Some(REGION);
    assert FindLoopFrom(fn, 0, 15, 4) == Some(REGION);
    assert FindLoopFrom(fn, 0, 15, 2) == Some(REGION);
  }

  lemma ChainWhile()
    ensures EmitWhile(CHAIN, REGION, 15, []) == Ok([CHAIN_CODE[0]], [])
  {
    hide EmitRange;
    ConditionEmitted();
    ChainPieces(BodyTargets(REGION));
    assert EmitRange(CHAIN, LoopTargets(0, 13), 12, 12, []) == Ok([], []) by {
      StraightIsLeaves(CHAIN, LoopTargets(0, 13), 12, 12, []);
    }
    assert ONE[..0] == [];
    assert CONDITION + [Numeric(0x45), BrIf(1)] + [Block(BODY)] + [] + [Br(0)]
        == CONDITION + [Numeric(0x45), BrIf(1), Block(BODY), Br(0)];
  }

  /** The loop is recognised with its whole chain as the condition. */
  lemma ChainEmitted()
    ensures EmitBody(CHAIN) == Ok(CHAIN_CODE, [])
  {
    hide EmitWhile, EmitBranch, EmitForever, EmitLeaf, KindAt;
    ChainLoop();
    ChainWhile();
    ChainPieces(NO_TARGETS);
    assert EmitConstruct(CHAIN, NO_TARGETS, 0, 15, []) == Next([CHAIN_CODE[0]], [], 13);
    assert [CHAIN_CODE[0]] + [LocalGet(0), Return] == CHAIN_CODE;
  }
}
