/**
 * Emitted code validates: on every well-formed function, every emitted range has as its type the
 * tracked operand kinds at its two ends, and every branch in it names an enclosing label.
 */
module ValidEmission {
  import opened Words
  import Mir
  import opened StackMap
  import opened Wasm
  import opened Emitter
  import opened Tracking
  import opened Slots
  import opened Matching
  import opened Loops
  import opened Branches
  import opened Validation
  import opened ValidLeaves
  import opened ValidFrames
  import opened Compiler

  // ---- leaves ---------------------------------------------------------------------------------

  /** A fragment that replaces the topmost operands. */
  lemma Replace(c: Context, code: seq<Instr>, rest: Kinds, popped: Kinds, pushed: Kinds, h: nat)
    requires h <= |rest| && Turns(c, code, ExpandTypes(popped), ExpandTypes(pushed))
    ensures Turns(c, code, Above(rest + popped, h), Above(rest + pushed, h))
  {
    hide Turns, ExpandTypes;
    TurnsAbove(c, code, Above(rest, h), ExpandTypes(popped), ExpandTypes(pushed));
    AboveSplit(rest, popped, h);
    AboveSplit(rest, pushed, h);
  }

  lemma SimpleTurns(fn: Mir.Function, c: Context, inst: Mir.Inst, ks: Kinds, h: nat)
    requires fn.frame.None? || !(inst.LocalLoad? || inst.LocalStore? || inst.LocalZero?)
    requires Suits(fn, c) && EmitSimple(fn, inst, ks).Ok? && KindsAfter(fn, inst, ks).Some?
      && h + Pops(inst, |ks|) <= |ks|
    requires inst.CallFn? && inst.argc > 0 ==> NeedsCallScratch(fn)
    ensures Turns(c, EmitSimple(fn, inst, ks).code, Above(ks, h), Above(KindsAfter(fn, inst, ks).value, h))
  {
    hide Turns, Above, ExpandTypes, EmitUnary, EmitBinary, EmitCall, UnaryKind, BinaryKind, ReadLocal, WriteLocal,
      ZeroLocal, Adapt, LocalIndex, Suits, NeedsCallScratch, ArgKindsOk;
    var n := |ks|;
    NoKinds();
    assert ks + [] == ks;
    match inst
    case PushInt(_) => PushTurns(c, inst, ks, h);
    case PushBool(_) => PushTurns(c, inst, ks, h);
    case PushNull => PushTurns(c, inst, ks, h);
    case PushString(_, _) => PushTurns(c, inst, ks, h);
    case Unary(tok) =>
      UnaryTurns(c, tok, ks[n - 1], ks[..n - 1]);
      One(c, EmitUnary(tok, ks[n - 1], ks[..n - 1]).code, ks, UnaryKind(tok, ks[n - 1]).value, h);
    case Binary(tok) => BinaryCodeTurns(c, tok, ks, h);
    case Cast(k) =>
      CastTurns(c, ks[n - 1], k);
      One(c, EmitSimple(fn, inst, ks).code, ks, k, h);
    case LocalLoad(i) =>
      LocalHasKind(fn, c, i);
      ReadTurns(c, fn.localKinds[i], LocalIndex(fn, i));
      OneKind(fn.localKinds[i]);
      Replace(c, EmitSimple(fn, inst, ks).code, ks, [], [fn.localKinds[i]], h);
    case LocalStore(i) =>
      StoreTurns(fn, c, i, ks[n - 1]);
      Pop(c, EmitSimple(fn, inst, ks).code, ks, h);
    case LocalZero(i) =>
      LocalHasKind(fn, c, i);
      ZeroTurns(c, fn.localKinds[i], LocalIndex(fn, i));
      Replace(c, EmitSimple(fn, inst, ks).code, ks, [], [], h);
    case Drop =>
      if n == 0 {
        TurnsNothing(c, Above(ks, h));
      } else {
        DropCodeTurns(c, ks[n - 1]);
        Pop(c, EmitSimple(fn, inst, ks).code, ks, h);
      }
    case Assert =>
      AssertTurns(c);
      Pop(c, EmitSimple(fn, inst, ks).code, ks, h);
    case CallFn(f, argc) => CallInstTurns(fn, c, f, argc, ks, h);
    case _ =>
  }

  /** Instructions that fall through, in functions of either kind. */
  lemma FallTurns(fn: Mir.Function, c: Context, inst: Mir.Inst, ks: Kinds, h: nat)
    requires Suits(fn, c) && EmitFall(fn, inst, ks).Ok? && KindsAfter(fn, inst, ks).Some?
      && h + Pops(inst, |ks|) <= |ks|
    requires inst.CallFn? && inst.argc > 0 ==> NeedsCallScratch(fn)
    ensures Turns(c, EmitFall(fn, inst, ks).code, Above(ks, h), Above(KindsAfter(fn, inst, ks).value, h))
  {
    hide Turns, Above, ExpandTypes, EmitSimple, LoadFrame, StoreFrame, ZeroFrame, CompareStrings, SuitsFrame,
      NeedsCallScratch, EmitBinary,
      BinaryKind, Adapt;
    var n := |ks|;
    if fn.frame.None? || !(inst.LocalLoad? || inst.LocalStore? || inst.LocalZero?) {
      FallIsSimple(fn, inst, ks);
      SimpleTurns(fn, c, inst, ks, h);
    } else if inst.LocalLoad? {
      var k := fn.localKinds[inst.slot];
      NoKinds();
      OneKind(k);
      assert ks + [] == ks;
      LoadFrameTurns(fn, c, k, fn.frame.value.offsets[inst.slot]);
      Replace(c, EmitFall(fn, inst, ks).code, ks, [], [k], h);
    } else if inst.LocalZero? {
      NoKinds();
      assert ks + [] == ks;
      ZeroFrameTurns(fn, c, fn.localKinds[inst.slot], fn.frame.value.offsets[inst.slot]);
      Replace(c, EmitFall(fn, inst, ks).code, ks, [], [], h);
    } else {
      var k, offset := fn.localKinds[inst.slot], fn.frame.value.offsets[inst.slot];
      AdaptTurns(c, ks[n - 1], k);
      StoreFrameTurns(fn, c, k, offset);
      TurnsThen(c, Adapt(ks[n - 1], k), StoreFrame(fn, k, offset), SlotTypes(ks[n - 1]), SlotTypes(k), []);
      Pop(c, EmitFall(fn, inst, ks).code, ks, h);
    }
  }

  /** All other instructions are emitted alike with and without a frame. */
  lemma FallIsSimple(fn: Mir.Function, inst: Mir.Inst, ks: Kinds)
    requires KindsAfter(fn, inst, ks).Some?
      && (fn.frame.None? || !(inst.LocalLoad? || inst.LocalStore? || inst.LocalZero?))
    ensures EmitFall(fn, inst, ks) == EmitSimple(fn, inst, ks)
  {
    hide EmitCall, CompareStrings;
  }

  lemma CallInstTurns(fn: Mir.Function, c: Context, f: nat, argc: nat, ks: Kinds, h: nat)
    requires Suits(fn, c) && EmitCall(fn, f, argc, ks).Ok? && h + argc <= |ks| && (argc > 0 ==> NeedsCallScratch(fn))
      && f < |fn.sigs|
    ensures Turns(c, EmitCall(fn, f, argc, ks).code, Above(ks, h),
      Above(ks[..|ks| - argc] + ResultKinds(fn.sigs[f].result), h))
  {
    hide Turns, Above, ExpandTypes, EmitCall, Suits, NeedsCallScratch;
    var n := |ks|;
    CallCodeTurns(fn, c, f, argc, ks);
    ResultTurns(fn.sigs[f].result);
    assert ks == ks[..n - argc] + ks[n - argc..];
    Replace(c, EmitCall(fn, f, argc, ks).code, ks[..n - argc], ks[n - argc..], ResultKinds(fn.sigs[f].result), h);
  }

  lemma BinaryCodeTurns(c: Context, tok: Mir.Token, ks: Kinds, h: nat)
    requires var n := |ks|; h + 2 <= n && EmitBinary(tok, ks[n - 2], ks[n - 1], ks[..n - 2]).Ok? && BinaryKind(tok,
      ks[n - 2], ks[n - 1]).Some?
    ensures var n := |ks|;
      Turns(c, EmitBinary(tok, ks[n - 2], ks[n - 1], ks[..n - 2]).code, Above(ks, h),
        Above(ks[..n - 2] + [BinaryKind(tok, ks[n - 2], ks[n - 1]).value], h))
  {
    hide Turns, Above, ExpandTypes, EmitBinary, BinaryKind;
    var n := |ks|;
    var r := BinaryKind(tok, ks[n - 2], ks[n - 1]).value;
    BinaryTurns(c, tok, ks[n - 2], ks[n - 1], ks[..n - 2]);
    TwoKinds(ks[n - 2], ks[n - 1]);
    OneKind(r);
    assert ks == ks[..n - 2] + [ks[n - 2], ks[n - 1]];
    Replace(c, EmitBinary(tok, ks[n - 2], ks[n - 1], ks[..n - 2]).code, ks[..n - 2], [ks[n - 2], ks[n - 1]], [r], h);
  }

  /** The topmost operand taken off. */
  lemma Pop(c: Context, code: seq<Instr>, ks: Kinds, h: nat)
    requires h + 1 <= |ks| && Turns(c, code, SlotTypes(ks[|ks| - 1]), [])
    ensures Turns(c, code, Above(ks, h), Above(ks[..|ks| - 1], h))
  {
    hide Turns, ExpandTypes, Above;
    var n := |ks| - 1;
    NoKinds();
    OneKind(ks[n]);
    assert ks == ks[..n] + [ks[n]] && ks[..n] + [] == ks[..n];
    Replace(c, code, ks[..n], [ks[n]], [], h);
  }

  lemma ResultTurns(k: Option<Mir.Kind>)
    ensures ExpandTypes(ResultKinds(k)) == KindTypes(k)
  {
    if k.Some? {
      OneKind(k.value);
    }
  }

  /** One operand in, one out. */
  lemma One(c: Context, code: seq<Instr>, ks: Kinds, k: Mir.Kind, h: nat)
    requires h + 1 <= |ks| && Turns(c, code, SlotTypes(ks[|ks| - 1]), SlotTypes(k))
    ensures Turns(c, code, Above(ks, h), Above(ks[..|ks| - 1] + [k], h))
  {
    hide Turns, ExpandTypes, Above;
    var n := |ks| - 1;
    OneKind(ks[n]);
    OneKind(k);
    assert ks == ks[..n] + [ks[n]];
    Replace(c, code, ks[..n], [ks[n]], [k], h);
  }

  lemma PushTurns(c: Context, inst: Mir.Inst, ks: Kinds, h: nat)
    requires inst.PushInt? || inst.PushBool? || inst.PushNull? || inst.PushString?
    requires h <= |ks| && |ks| < MAX_STACK
    ensures Turns(c, EmitSimple(Mir.Function([], [], [], None, None), inst, ks).code, Above(ks, h),
                  Above(ks + [if inst.PushString? then Mir.KStr else Mir.KI32], h))
  {
    hide Turns, ExpandTypes, Above;
    var code := EmitSimple(Mir.Function([], [], [], None, None), inst, ks).code;
    var k := if inst.PushString? then Mir.KStr else Mir.KI32;
    ConstTurns(c, code[0].i32, 0);
    if inst.PushString? {
      ConstTurns(c, code[1].i32, 0);
      PushTwo(c, code[0], code[1], TI32, TI32);
      assert code == [code[0], code[1]];
    } else {
      assert code == [code[0]];
    }
    OneKind(k);
    NoKinds();
    assert ks + [] == ks;
    Replace(c, code, ks, [], [k], h);
  }

  lemma StoreTurns(fn: Mir.Function, c: Context, i: nat, actual: Mir.Kind)
    requires Suits(fn, c) && fn.frame.None? && i < |fn.localKinds| && Mir.Coercible(actual, fn.localKinds[i])
    ensures Turns(c, Adapt(actual, fn.localKinds[i]) + WriteLocal(fn.localKinds[i], LocalIndex(fn, i)),
      SlotTypes(actual), [])
  {
    hide Turns;
    var k := fn.localKinds[i];
    LocalHasKind(fn, c, i);
    AdaptTurns(c, actual, k);
    WriteTurns(c, k, LocalIndex(fn, i));
    TurnsThen(c, Adapt(actual, k), WriteLocal(k, LocalIndex(fn, i)), SlotTypes(actual), SlotTypes(k), []);
  }

  lemma DropCodeTurns(c: Context, k: Mir.Kind)
    ensures Turns(c, if k == Mir.KStr then [Drop, Drop] else [Drop], SlotTypes(k), [])
  {
    hide Turns;
    DropTurns(c, SlotTypes(k)[0]);
    if k == Mir.KStr {
      PopTwo(c, Drop, Drop, TI32, TI32);
    }
  }

  /** Every jump of the range that is emitted as a branch names an enclosing label without operands. */
  ghost predicate Usable(fn: Mir.Function, t: Targets, s: nat, e: nat, labels: seq<Types>) {
    forall j :: s <= j < e && j < |fn.insts| && fn.insts[j].Jump? ==> UsableJump(t, fn.insts[j].dest, labels)
  }

  predicate UsableJump(t: Targets, dest: nat, labels: seq<Types>) {
    var d := DepthForJump(t, dest);
    d.Some? ==> d.value < |labels| && labels[d.value] == []
  }

  lemma LeafTurns(fn: Mir.Function, k: seq<Kinds>, c: Context, t: Targets, s: nat, h: nat)
    requires WellFormed(fn, k) && Suits(fn, c) && s < |fn.insts| && !IsTruthArm(fn, s) && !fn.insts[s].JumpIfFalse?
    requires Low(fn, k, s) >= h && Usable(fn, t, s, s + 1, c.labels) && EmitLeaf(fn, t, fn.insts[s], k[s]).Ok?
    ensures Turns(c, EmitLeaf(fn, t, fn.insts[s], k[s]).code, Above(k[s], h), Above(k[s + 1], h))
  {
    hide Turns, Above, EmitFall, EmitReturn, Suits;
    InstAt(fn, k, s);
    var inst := fn.insts[s];
    if inst.Jump? {
      assert UsableJump(t, inst.dest, c.labels);
      BrTurns(c, DepthForJump(t, inst.dest).value, Above(k[s], h), Above(k[s + 1], h));
    } else if inst.Return? {
      ReturnLeafTurns(fn, c, k[s], Above(k[s + 1], h), h);
    } else if inst.ReturnVoid? {
      VoidTurns(fn, c, Above(k[s], h), Above(k[s + 1], h));
    } else {
      FallTurns(fn, c, inst, k[s], h);
    }
  }

  lemma VoidTurns(fn: Mir.Function, c: Context, ps: Types, qs: Types)
    requires Suits(fn, c)
    ensures Turns(c, if fn.result.Some? then [Unreachable] else Leave(fn, None), ps, qs)
  {
    hide Turns, Leave, Suits;
    UnreachableTurns(c, ps, qs);
    if fn.result.None? {
      LeaveVoidTurns(fn, c, ps, qs);
    }
  }

  lemma ReturnLeafTurns(fn: Mir.Function, c: Context, ks: Kinds, qs: Types, h: nat)
    requires Suits(fn, c) && EmitReturn(fn, ks).Ok? && |ks| == 1 && h == 0
    ensures Turns(c, EmitReturn(fn, ks).code, Above(ks, h), qs)
  {
    hide Turns, Leave, SuitsFrame;
    var to := fn.result.value;
    assert ks[0..] == [ks[0]];
    OneKind(ks[0]);
    AdaptTurns(c, ks[0], to);
    LeaveTurns(fn, c, qs);
    TurnsThen(c, Adapt(ks[0], to), Leave(fn, fn.result), SlotTypes(ks[0]), SlotTypes(to), qs);
  }

  // ---- ranges ---------------------------------------------------------------------------------

  /** A range that is emitted inside the labels of `c`, in a block entered above `h` operands. */
  ghost predicate Placed(fn: Mir.Function, k: seq<Kinds>, c: Context, t: Targets, s: nat, e: nat, h: nat) {
    && WellFormed(fn, k) && s <= e <= |fn.insts| && (s < e ==> OutsideDiamond(fn, s))
    && StaysAbove(fn, k, s, e, h) && TargetsFit(fn, k, t, s, e, h) && Suits(fn, c) && Usable(fn, t, s, e, c.labels)
  }

  lemma PlacedPart(fn: Mir.Function, k: seq<Kinds>, c: Context, t: Targets, s: nat, m: nat, e: nat, h: nat)
    requires Placed(fn, k, c, t, s, e, h) && s <= m <= e && (m < e ==> OutsideDiamond(fn, m))
    ensures Placed(fn, k, c, t, m, e, h)
  {
    hide Suits, InstOk, EmitRange;
  }

  lemma {:induction false} RangeTurns(fn: Mir.Function, k: seq<Kinds>, c: Context, t: Targets, s: nat, e: nat, h: nat)
    requires Placed(fn, k, c, t, s, e, h) && EmitRange(fn, t, s, e, k[s]).Ok?
    ensures Turns(c, EmitRange(fn, t, s, e, k[s]).code, Above(k[s], h), Above(k[e], h))
    decreases e - s, 8
  {
    hide Turns, Above, EmitConstruct, Suits, Usable, StaysAbove, TargetsFit, InstOk;
    if s < e {
      var x := EmitConstruct(fn, t, s, e, k[s]);
      ConstructTracks(fn, k, t, s, e);
      ConstructTurns(fn, k, c, t, s, e, h);
      PlacedPart(fn, k, c, t, s, x.pc, e, h);
      RangeTurns(fn, k, c, t, x.pc, e, h);
      TurnsThen(c, x.code, EmitRange(fn, t, x.pc, e, x.stack).code, Above(k[s], h), Above(k[x.pc], h), Above(k[e], h));
    } else {
      TurnsNothing(c, Above(k[s], h));
    }
  }

  lemma {:induction false} ConstructTurns(fn: Mir.Function, k: seq<Kinds>, c: Context, t: Targets, s: nat, e: nat,
      h: nat)
    requires Placed(fn, k, c, t, s, e, h) && s < e && EmitConstruct(fn, t, s, e, k[s]).Next?
    ensures var x := EmitConstruct(fn, t, s, e, k[s]); Turns(c, x.code, Above(k[s], h), Above(k[x.pc], h))
    decreases e - s, 7
  {
    hide Turns, Above, EmitRange, EmitWhile, EmitForever, EmitBranch, EmitLeaf, Suits, InstOk, TargetsFit;
    match KindAt(fn, t, s, e)
    case AWhile(r) => WhileTurns(fn, k, c, r, e, Above(k[s], h));
    case AForever(b) => ForeverTurns(fn, k, c, s, b, e, Above(k[s], h));
    case ABranch => BranchTurns(fn, k, c, t, s, e, h);
    case ALeaf => LeafTurns(fn, k, c, t, s, h);
  }

  // ---- loops ------------------------------------------------------------------------------------

  /** Nothing of the stack is visible inside a block that starts and ends with it. */
  lemma NothingAbove(ks: Kinds)
    ensures Above(ks, |ks|) == []
  {
    assert ks[|ks|..] == [];
  }

  lemma OneAbove(ks: Kinds, h: nat)
    requires |ks| == h + 1 && ks[h] == Mir.KI32
    ensures Above(ks, h) == [TI32]
  {
    assert ks[h..] == [Mir.KI32];
    OneKind(Mir.KI32);
  }

  /** A block that leaves the stack as it found it, on any stack. */
  lemma Unchanged(c: Context, code: seq<Instr>, ts: Types)
    requires Turns(c, code, [], [])
    ensures Turns(c, code, ts, ts)
  {
    hide Turns;
    TurnsAbove(c, code, ts, [], []);
    assert ts + [] == ts;
  }

  /** The three ranges of a loop inside the labels of its block, its loop and its body. */
  lemma LoopPlaced(fn: Mir.Function, k: seq<Kinds>, c: Context, r: Region, e: nat)
    requires WhileReady(fn, k, r, e) && Suits(fn, c)
    ensures var h := |k[r.header]|; var inner := c.Inside([]).Inside([]);
      && Placed(fn, k, inner, NO_TARGETS, r.header, r.cond, h)
      && Placed(fn, k, inner.Inside([]), BodyTargets(r), r.cond + 1, r.tail, h)
      && Placed(fn, k, inner, LoopTargets(r.header, r.exit), r.tail, r.backedge, h)
  {
    hide InstOk, EmitRange;
    SuitsInside(fn, c, []);
    SuitsInside(fn, c.Inside([]), []);
    SuitsInside(fn, c.Inside([]).Inside([]), []);
    var labels := c.Inside([]).Inside([]).labels;
    assert labels[0] == [] && labels[1] == [];
    var deeper := c.Inside([]).Inside([]).Inside([]).labels;
    assert deeper[0] == [] && deeper[1] == [] && deeper[2] == [];
  }

  lemma WhileCodeTurns(c: Context, cond: seq<Instr>, body: seq<Instr>, tail: seq<Instr>)
    requires var inner := c.Inside([]).Inside([]);
      Turns(inner, cond, [], [TI32]) && Turns(inner.Inside([]), body, [], []) && Turns(inner, tail, [], [])
    ensures Turns(c, WhileCode(cond, body, tail), [], [])
  {
    hide Turns;
    var inner := c.Inside([]).Inside([]);
    assert inner.labels[0] == [] && inner.labels[1] == [];
    NumericTurns(inner, 0x45);
    BrIfTurns(inner, 1);
    BlockTurns(inner, body);
    BrTurns(inner, 0, [], []);
    var test := [Numeric(0x45), BrIf(1)];
    TurnsThen(inner, [Numeric(0x45)], [BrIf(1)], [TI32], [TI32], []);
    assert [Numeric(0x45)] + [BrIf(1)] == test;
    TurnsThen(inner, cond, test, [], [TI32], []);
    TurnsThen(inner, cond + test, [Block(body)], [], [], []);
    TurnsThen(inner, cond + test + [Block(body)], tail, [], [], []);
    TurnsThen(inner, cond + test + [Block(body)] + tail, [Br(0)], [], [], []);
    var pass := cond + test + [Block(body)] + tail + [Br(0)];
    BlockTurns(c.Inside([]), pass);
    BlockTurns(c, [Loop(pass)]);
  }

  lemma {:induction false} WhileTurns(fn: Mir.Function, k: seq<Kinds>, c: Context, r: Region, e: nat, ts: Types)
    requires WellFormed(fn, k) && Suits(fn, c) && e <= |fn.insts| && IsRegion(fn, r.header, e, r)
      && OutsideDiamond(fn, r.header)
    requires EmitWhile(fn, r, e, k[r.header]).Ok?
    ensures Turns(c, EmitWhile(fn, r, e, k[r.header]).code, ts, ts) && k[r.exit] == k[r.header]
    decreases e - r.header, 6
  {
    hide Turns, EmitRange, EmitWhile, Placed, Suits, InstOk, Above, WhileCode;
    WhileIsReady(fn, k, r, e);
    LoopPlaced(fn, k, c, r, e);
    var h, inner := |k[r.header]|, c.Inside([]).Inside([]);
    RangeTurns(fn, k, inner, NO_TARGETS, r.header, r.cond, h);
    RangeTurns(fn, k, inner.Inside([]), BodyTargets(r), r.cond + 1, r.tail, h);
    RangeTurns(fn, k, inner, LoopTargets(r.header, r.exit), r.tail, r.backedge, h);
    NothingAbove(k[r.header]); NothingAbove(k[r.cond + 1]); NothingAbove(k[r.tail]); NothingAbove(k[r.backedge]);
    OneAbove(k[r.cond], h);
    WhileCodeTurns(c, EmitRange(fn, NO_TARGETS, r.header, r.cond, k[r.header]).code,
                   EmitRange(fn, BodyTargets(r), r.cond + 1, r.tail, k[r.cond + 1]).code,
                   EmitRange(fn, LoopTargets(r.header, r.exit), r.tail, r.backedge, k[r.tail]).code);
    Unchanged(c, EmitWhile(fn, r, e, k[r.header]).code, ts);
  }

  lemma ForeverPlaced(fn: Mir.Function, k: seq<Kinds>, c: Context, s: nat, b: nat, e: nat)
    requires WellFormed(fn, k) && Suits(fn, c) && s < b < e <= |fn.insts| && OutsideDiamond(fn, s)
      && fn.insts[b] == Mir.Jump(s)
    requires FindLoop(fn, s, e).None? && EmitForever(fn, s, b, k[s]).Ok?
    ensures Placed(fn, k, c.Inside([]).Inside([]), LoopTargets(s, b + 1), s, b, |k[s]|)
    ensures EmitRange(fn, LoopTargets(s, b + 1), s, b, k[s]).Ok? && k[b] == k[b + 1] == k[s]
  {
    hide EmitRange, FindLoop;
    ForeverTracks(fn, k, s, b, e);
    InstAt(fn, k, b);
    SuitsInside(fn, c, []);
    SuitsInside(fn, c.Inside([]), []);
    var labels := c.Inside([]).Inside([]).labels;
    assert labels[0] == [] && labels[1] == [];
  }

  lemma {:induction false} ForeverTurns(fn: Mir.Function, k: seq<Kinds>, c: Context, s: nat, b: nat, e: nat, ts: Types)
    requires WellFormed(fn, k) && Suits(fn, c) && s < b < e <= |fn.insts| && OutsideDiamond(fn, s)
      && fn.insts[b] == Mir.Jump(s)
    requires FindLoop(fn, s, e).None? && EmitForever(fn, s, b, k[s]).Ok?
    ensures Turns(c, EmitForever(fn, s, b, k[s]).code, ts, ts) && k[b + 1] == k[s]
    decreases e - s, 6
  {
    hide Turns, EmitRange, Placed, Suits, Above, InstOk, DiamondsClosed, FindLoop;
    ForeverPlaced(fn, k, c, s, b, e);
    var inner := c.Inside([]).Inside([]);
    assert inner.labels[0] == [];
    RangeTurns(fn, k, inner, LoopTargets(s, b + 1), s, b, |k[s]|);
    NothingAbove(k[s]);
    var body := EmitRange(fn, LoopTargets(s, b + 1), s, b, k[s]).code;
    BrTurns(inner, 0, [], []);
    TurnsThen(inner, body, [Br(0)], [], [], []);
    BlockTurns(c.Inside([]), body + [Br(0)]);
    BlockTurns(c, [Loop(body + [Br(0)])]);
    Unchanged(c, ForeverCode(body), ts);
  }

  // ---- conditionals -------------------------------------------------------------------------------

  /** A fragment that consumes the condition on top. */
  lemma OnCondition(c: Context, code: seq<Instr>, ks: Kinds, pushed: Kinds, h: nat)
    requires h + 1 <= |ks| && ks[|ks| - 1] == Mir.KI32 && Turns(c, code, [TI32], ExpandTypes(pushed))
    ensures Turns(c, code, Above(ks, h), Above(ks[..|ks| - 1] + pushed, h))
  {
    hide Turns, Above, ExpandTypes;
    var n := |ks| - 1;
    OneKind(Mir.KI32);
    assert ks == ks[..n] + [ks[n]];
    Replace(c, code, ks[..n], [ks[n]], pushed, h);
  }

  lemma NestUsable(fn: Mir.Function, t: Targets, s: nat, e: nat, a: nat, b: nat, labels: seq<Types>)
    requires Usable(fn, t, s, e, labels) && s <= a && b <= e
    ensures Usable(fn, Nest(t), a, b, [[]] + labels)
  {
    forall j | a <= j < b && j < |fn.insts| && fn.insts[j].Jump?
      ensures UsableJump(Nest(t), fn.insts[j].dest, [[]] + labels)
    {
      assert UsableJump(t, fn.insts[j].dest, labels);
      var d := DepthForJump(Nest(t), fn.insts[j].dest);
      if d.Some? {
        assert DepthForJump(t, fn.insts[j].dest) == Some(d.value - 1);
        assert ([[]] + labels)[d.value] == labels[d.value - 1];
      }
    }
  }

  /** What is known at a conditional branch. */
  lemma BranchPlaced(fn: Mir.Function, k: seq<Kinds>, c: Context, t: Targets, s: nat, e: nat, h: nat)
    requires Placed(fn, k, c, t, s, e, h) && s < e && fn.insts[s].JumpIfFalse?
    ensures var ft := fn.insts[s].dest;
      && ft < |fn.insts| && |k[s]| > 0 && k[s][|k[s]| - 1] == Mir.KI32 && k[s + 1] == k[s][..|k[s]| - 1] == k[ft]
        && h <= |k[s + 1]|
      && (s + 1 < ft ==> StaysAbove(fn, k, s + 1, ft, |k[s + 1]|))
      && (!IsTruthArm(fn, s + 2) ==> OutsideDiamond(fn, s + 1))
  {
    hide Suits, Usable, TargetsFit;
    InstAt(fn, k, s);
    assert Low(fn, k, s) >= h;
  }

  /** An arm, inside the label of its `if`. */
  lemma ArmPlaced(fn: Mir.Function, k: seq<Kinds>, c: Context, t: Targets, s: nat, e: nat, a: nat, b: nat, h: nat,
      arm: nat)
    requires Placed(fn, k, c, t, s, e, h) && s < a <= b <= e && h <= arm && (a < b ==> OutsideDiamond(fn, a))
      && StaysAbove(fn, k, a, b, arm)
    ensures Placed(fn, k, c.Inside([]), Nest(t), a, b, arm)
  {
    hide InstOk, DiamondsClosed, StaysAbove;
    SuitsInside(fn, c, []);
    NestUsable(fn, t, s, e, a, b, c.labels);
  }

  lemma {:induction false} BranchTurns(fn: Mir.Function, k: seq<Kinds>, c: Context, t: Targets, s: nat, e: nat, h: nat)
    requires Placed(fn, k, c, t, s, e, h) && s < e && fn.insts[s].JumpIfFalse? && EmitBranch(fn, t, s, e, k[s]).Next?
    ensures var x := EmitBranch(fn, t, s, e, k[s]); Turns(c, x.code, Above(k[s], h), Above(k[x.pc], h))
    decreases e - s, 6
  {
    hide Turns, Above, EmitRange, EmitIf, EmitIfElse, EmitOr, EmitAnd, EmitBranch, Suits, Usable, InstOk, StaysAbove,
      TargetsFit, DiamondsClosed;
    BranchPlaced(fn, k, c, t, s, e, h);
    BranchParts(fn, t, s, e, k[s]);
    var ft := fn.insts[s].dest;
    if OrShape(fn, s, e).Some? {
      OrCaseTurns(fn, k, c, t, s, e, h);
    } else if AndShape(fn, s, e).Some? {
      AndCaseTurns(fn, k, c, t, s, e, h);
    } else {
      if IsTruthArm(fn, s + 2) {
        DiamondIsNotAnIf(fn, k, t, s, e);
        assert false;
      }
      match ShapeOfBranch(fn, t, ft, e)
      case OnlyThen => IfOnlyTurns(fn, k, c, t, s, ft, e, h);
      case ThenElse(merge) => IfThenElseTurns(fn, k, c, t, s, ft, merge, e, h);
    }
  }

  lemma {:induction false} IfOnlyTurns(fn: Mir.Function, k: seq<Kinds>, c: Context, t: Targets, s: nat, ft: nat,
      e: nat, h: nat)
    requires Placed(fn, k, c, t, s, e, h) && s + 1 < ft <= e && fn.insts[s] == Mir.JumpIfFalse(ft)
      && !IsTruthArm(fn, s + 2)
    requires EmitIf(fn, t, s, ft, k[s + 1]).Ok?
    ensures Turns(c, EmitIf(fn, t, s, ft, k[s + 1]).code, Above(k[s], h), Above(k[ft], h))
    decreases e - s, 5
  {
    hide Turns, Above, EmitRange, Suits, Usable, InstOk, StaysAbove, TargetsFit, DiamondsClosed;
    BranchPlaced(fn, k, c, t, s, e, h);
    var arm := |k[s + 1]|;
    ArmPlaced(fn, k, c, t, s, e, s + 1, ft, h, arm);
    RangeTurns(fn, k, c.Inside([]), Nest(t), s + 1, ft, arm);
    NothingAbove(k[s + 1]);
    IfTurns(c, EmitRange(fn, Nest(t), s + 1, ft, k[s + 1]).code);
    NoKinds();
    OnCondition(c, EmitIf(fn, t, s, ft, k[s + 1]).code, k[s], [], h);
    assert k[s + 1] + [] == k[ft];
  }

  lemma {:induction false} IfThenElseTurns(fn: Mir.Function, k: seq<Kinds>, c: Context, t: Targets, s: nat, ft: nat,
      merge: nat, e: nat, h: nat)
    requires Placed(fn, k, c, t, s, e, h) && s + 1 < ft < merge <= e && fn.insts[s] == Mir.JumpIfFalse(ft)
      && fn.insts[ft - 1] == Mir.Jump(merge)
    requires !IsTruthArm(fn, s + 2) && EmitIfElse(fn, t, s, ft, merge, k[s + 1]).Ok?
    ensures Turns(c, EmitIfElse(fn, t, s, ft, merge, k[s + 1]).code, Above(k[s], h), Above(k[merge], h))
    decreases e - s, 5
  {
    hide Turns, Above, EmitRange, Suits, Usable, InstOk, TargetsFit, DiamondsClosed;
    BranchPlaced(fn, k, c, t, s, e, h);
    ElseEntry(fn, k, ft - 1, merge, |k[ft]|);
    IfElseTracks(fn, k, t, s, ft, merge);
    var arm := |k[s + 1]|;
    ArmPlaced(fn, k, c, t, s, e, s + 1, ft - 1, h, arm);
    ArmPlaced(fn, k, c, t, s, e, ft, merge, h, arm);
    RangeTurns(fn, k, c.Inside([]), Nest(t), s + 1, ft - 1, arm);
    RangeTurns(fn, k, c.Inside([]), Nest(t), ft, merge, arm);
    NothingAbove(k[s + 1]);
    IfElseTurns(c, None, EmitRange(fn, Nest(t), s + 1, ft - 1, k[s + 1]).code,
      EmitRange(fn, Nest(t), ft, merge, k[ft]).code);
    NoKinds();
    OnCondition(c, EmitIfElse(fn, t, s, ft, merge, k[s + 1]).code, k[s], [], h);
    assert k[s + 1] + [] == k[merge];
  }

  // ---- boolean expressions --------------------------------------------------------------------------

  /** A closed region whose value is pushed at `merge`, out of reach of all labels. */
  ghost predicate BoolPlaced(fn: Mir.Function, k: seq<Kinds>, c: Context, t: Targets, o: nat, merge: nat, h: nat) {
    && |k| == |fn.insts| + 1 && WellFormed(fn, k) && Suits(fn, c) && o < merge < |fn.insts| && JumpsClosed(fn, o, merge)
    && TargetsFit(fn, k, t, o, merge, h) && h < |k[merge]|
  }

  /** No jump of a closed region is emitted as a branch to the labels outside it. */
  lemma NoJumpOut(fn: Mir.Function, k: seq<Kinds>, c: Context, t: Targets, o: nat, merge: nat, h: nat, s: nat, e: nat)
    requires BoolPlaced(fn, k, c, t, o, merge, h) && o < s && e <= merge
    ensures Usable(fn, t, s, e, c.labels)
  {
    hide InstOk, Suits;
    forall j | s <= j < e && j < |fn.insts| && fn.insts[j].Jump?
      ensures UsableJump(t, fn.insts[j].dest, c.labels)
    {
      assert JumpStays(fn.insts[j], o, merge);
    }
  }

  lemma BoolInside(fn: Mir.Function, k: seq<Kinds>, c: Context, t: Targets, o: nat, merge: nat, h: nat)
    requires BoolPlaced(fn, k, c, t, o, merge, h)
    ensures BoolPlaced(fn, k, c.Inside([TI32]), t, o, merge, h)
  {
    SuitsInside(fn, c, [TI32]);
  }

  lemma OperandPlaced(fn: Mir.Function, k: seq<Kinds>, c: Context, t: Targets, o: nat, merge: nat, h: nat, start: nat,
      b: nat)
    requires BoolPlaced(fn, k, c, t, o, merge, h) && o < start <= b < merge && (start < b ==> OutsideDiamond(fn, start))
    requires StaysAbove(fn, k, start, b, |k[start]|) && h <= |k[start]|
    ensures Placed(fn, k, c, t, start, b, |k[start]|)
  {
    hide InstOk, Suits, DiamondsClosed;
    NoJumpOut(fn, k, c, t, o, merge, h, start, b);
  }

  lemma {:induction false} OrCaseTurns(fn: Mir.Function, k: seq<Kinds>, c: Context, t: Targets, s: nat, e: nat, h: nat)
    requires Placed(fn, k, c, t, s, e, h) && s < e && fn.insts[s].JumpIfFalse? && EmitBranch(fn, t, s, e, k[s]).Next?
      && OrShape(fn, s, e).Some?
    ensures var x := EmitBranch(fn, t, s, e, k[s]); Turns(c, x.code, Above(k[s], h), Above(k[x.pc], h))
    decreases e - s, 5
  {
    hide Turns, Above, EmitRange, EmitOr, EmitBranch, Suits, Usable, InstOk, StaysAbove;
    BranchPlaced(fn, k, c, t, s, e, h);
    BranchParts(fn, t, s, e, k[s]);
    var merge := OrShape(fn, s, e).value.mergeTarget;
    DiamondKinds(fn, k, s, merge);
    assert DiamondsClosed(fn, s);
    OrTurns(fn, k, c, t, s, s, merge, h);
    OneKind(Mir.KI32);
    OnCondition(c, EmitOr(fn, t, s + 3, merge, k[s + 1]).code, k[s], [Mir.KI32], h);
  }

  lemma {:induction false} OrTurns(fn: Mir.Function, k: seq<Kinds>, c: Context, t: Targets, o: nat, s: nat, merge: nat,
      h: nat)
    requires BoolPlaced(fn, k, c, t, o, merge, h) && o <= s && s + 3 < merge && h <= |k[s + 1]|
      && k[merge] == k[s + 1] + [Mir.KI32]
    requires fn.insts[s] == Mir.JumpIfFalse(s + 3) && IsTruthArm(fn, s + 2) && fn.insts[s + 2] == Mir.Jump(merge)
    requires EmitOr(fn, t, s + 3, merge, k[s + 1]).Ok?
    ensures Turns(c, EmitOr(fn, t, s + 3, merge, k[s + 1]).code, [TI32], [TI32])
    decreases merge - s, 3
  {
    hide Turns, EmitRange, EmitOr, EmitOrRange, Suits, InstOk, TargetsFit, JumpsClosed;
    DiamondKinds(fn, k, s, merge);
    ElseEntry(fn, k, s + 2, merge, |k[s + 3]|);
    OrParts(fn, t, s + 3, merge, k[s + 1]);
    BoolInside(fn, k, c, t, o, merge, h);
    OrRangeTurns(fn, k, c.Inside([TI32]), t, o, s + 3, merge, h);
    ConstTurns(c.Inside([TI32]), 1, 0);
    IfElseTurns(c, Some(TI32), [I32Const(1)], EmitOrRange(fn, t, s + 3, merge, k[s + 1]).code);
  }

  lemma {:induction false} OrRangeTurns(fn: Mir.Function, k: seq<Kinds>, c: Context, t: Targets, o: nat, start: nat,
      merge: nat, h: nat)
    requires BoolPlaced(fn, k, c, t, o, merge, h) && o < start < merge && h <= |k[start]|
      && k[merge] == k[start] + [Mir.KI32]
    requires fn.insts[start - 1].Jump? && !IsTruthArm(fn, start) && StaysAbove(fn, k, start, merge, |k[start]|)
    requires EmitOrRange(fn, t, start, merge, k[start]).Ok?
    ensures Turns(c, EmitOrRange(fn, t, start, merge, k[start]).code, [], [TI32])
    decreases merge - start, 4
  {
    hide Turns, EmitRange, EmitOr, Suits, InstOk, TargetsFit, JumpsClosed, StaysAbove, Above;
    if IsOrEnd(fn, start, merge) {
      ConstTurns(c, 0, 0);
    } else {
      OrRangeParts(fn, t, start, merge, k[start]);
      var b := FindOrOperand(fn, start, merge).value;
      OrOperand(fn, k, t, start, b, merge, |k[start]|);
      OperandPlaced(fn, k, c, t, o, merge, h, start, b);
      RangeTurns(fn, k, c, t, start, b, |k[start]|);
      NothingAbove(k[start]);
      OneAbove(k[b], |k[start]|);
      OrTurns(fn, k, c, t, o, b, merge, h);
      TurnsThen(c, EmitRange(fn, t, start, b, k[start]).code, EmitOr(fn, t, b + 3, merge, k[b + 1]).code, [], [TI32],
        [TI32]);
    }
  }

  lemma {:induction false} AndCaseTurns(fn: Mir.Function, k: seq<Kinds>, c: Context, t: Targets, s: nat, e: nat, h: nat)
    requires Placed(fn, k, c, t, s, e, h) && s < e && fn.insts[s].JumpIfFalse? && EmitBranch(fn, t, s, e, k[s]).Next?
    requires OrShape(fn, s, e).None? && AndShape(fn, s, e).Some?
    ensures var x := EmitBranch(fn, t, s, e, k[s]); Turns(c, x.code, Above(k[s], h), Above(k[x.pc], h))
    decreases e - s, 5
  {
    hide Turns, Above, EmitRange, EmitAnd, EmitBranch, Suits, Usable, InstOk, TargetsFit, JumpsClosed;
    var ft := fn.insts[s].dest;
    BranchPlaced(fn, k, c, t, s, e, h);
    AndEntry(fn, k, t, s, e, h);
    AndTurns(fn, k, c, t, s, s, ft, h);
    OneKind(Mir.KI32);
    OnCondition(c, EmitAnd(fn, t, s + 1, ft, k[s + 1]).code, k[s], [Mir.KI32], h);
  }

  lemma {:induction false} AndTurns(fn: Mir.Function, k: seq<Kinds>, c: Context, t: Targets, o: nat, s: nat, ft: nat,
      h: nat)
    requires BoolPlaced(fn, k, c, t, o, ft + 1, h) && o <= s && s + 1 < ft && h <= |k[s + 1]|
      && k[ft + 1] == k[s + 1] + [Mir.KI32]
    requires fn.insts[s] == Mir.JumpIfFalse(ft) && fn.insts[ft] == Mir.PushBool(false)
      && fn.insts[ft - 1] == Mir.Jump(ft + 1)
    requires StaysAbove(fn, k, s + 1, ft, |k[s + 1]|) && EmitAnd(fn, t, s + 1, ft, k[s + 1]).Ok?
    ensures Turns(c, EmitAnd(fn, t, s + 1, ft, k[s + 1]).code, [TI32], [TI32])
    decreases ft - s, 3
  {
    hide Turns, EmitRange, EmitAnd, EmitAndTail, Suits, InstOk, TargetsFit, JumpsClosed, StaysAbove;
    AndParts(fn, t, s + 1, ft, k[s + 1]);
    BoolInside(fn, k, c, t, o, ft + 1, h);
    AndTailTurns(fn, k, c.Inside([TI32]), t, o, s + 1, ft, h);
    ConstTurns(c.Inside([TI32]), 0, 0);
    IfElseTurns(c, Some(TI32), EmitAndTail(fn, t, s + 1, ft, k[s + 1]).code, [I32Const(0)]);
  }

  lemma {:induction false} AndTailTurns(fn: Mir.Function, k: seq<Kinds>, c: Context, t: Targets, o: nat, start: nat,
      ft: nat, h: nat)
    requires BoolPlaced(fn, k, c, t, o, ft + 1, h) && o < start < ft && h <= |k[start]|
      && k[ft + 1] == k[start] + [Mir.KI32]
    requires fn.insts[start - 1] == Mir.JumpIfFalse(ft) && fn.insts[ft] == Mir.PushBool(false)
      && fn.insts[ft - 1] == Mir.Jump(ft + 1)
    requires StaysAbove(fn, k, start, ft, |k[start]|) && EmitAndTail(fn, t, start, ft, k[start]).Ok?
    ensures Turns(c, EmitAndTail(fn, t, start, ft, k[start]).code, [], [TI32])
    decreases ft - start, 4
  {
    hide Turns, EmitRange, EmitAnd, EmitAndTail, Suits, InstOk, TargetsFit, JumpsClosed, StaysAbove, Above;
    AndTailParts(fn, t, start, ft, k[start]);
    if IsAndEnd(fn, start, ft) {
      ConstTurns(c, 1, 0);
    } else {
      var b := FindAndOperand(fn, start, ft).value;
      AndOperand(fn, k, t, start, b, ft, |k[start]|);
      OperandPlaced(fn, k, c, t, o, ft + 1, h, start, b);
      RangeTurns(fn, k, c, t, start, b, |k[start]|);
      NothingAbove(k[start]);
      OneAbove(k[b], |k[start]|);
      AndTurns(fn, k, c, t, o, b, ft, h);
      TurnsThen(c, EmitRange(fn, t, start, b, k[start]).code, EmitAnd(fn, t, b + 1, ft, k[b + 1]).code, [], [TI32],
        [TI32]);
    }
  }

  // ---- whole functions --------------------------------------------------------------------------------

  predicate EndsInReturn(fn: Mir.Function) {
    |fn.insts| > 0 && (fn.insts[|fn.insts| - 1].Return? || fn.insts[|fn.insts| - 1].ReturnVoid?)
  }

  /** Code that ends in an instruction that never falls through. */
  predicate EndsDead(code: seq<Instr>) {
    |code| > 0 && (code[|code| - 1].Return? || code[|code| - 1].Unreachable?)
  }

  /** Only a final return itself reaches the end of a function that ends in one. */
  lemma OnlyLeafReachesEnd(fn: Mir.Function, k: seq<Kinds>, t: Targets, s: nat)
    requires WellFormed(fn, k) && EndsInReturn(fn) && s < |fn.insts| && EmitConstruct(fn, t, s, |fn.insts|, k[s]).Next?
    ensures EmitConstruct(fn, t, s, |fn.insts|, k[s]).pc == |fn.insts| ==>
      KindAt(fn, t, s, |fn.insts|).ALeaf? && s + 1 == |fn.insts|
  {
    hide EmitRange, EmitWhile, EmitForever, EmitBranch, EmitLeaf, StaysAbove, DiamondsClosed;
    var n := |fn.insts|;
    InstAt(fn, k, s);
    match KindAt(fn, t, s, n)
    case AWhile(r) => InstAt(fn, k, r.cond);
    case AForever(b) =>
    case ABranch =>
      BranchParts(fn, t, s, n, k[s]);
      var ft := fn.insts[s].dest;
      if OrShape(fn, s, n).Some? {
        InstAt(fn, k, s + 2);
      } else if AndShape(fn, s, n).Some? {
        InstAt(fn, k, ft - 1);
      } else if ShapeOfBranch(fn, t, ft, n).ThenElse? {
        InstAt(fn, k, ft - 1);
      }
    case ALeaf =>
  }

  lemma {:induction false} LastIsReturn(fn: Mir.Function, k: seq<Kinds>, t: Targets, s: nat)
    requires WellFormed(fn, k) && EndsInReturn(fn) && s < |fn.insts| && OutsideDiamond(fn, s)
      && EmitRange(fn, t, s, |fn.insts|, k[s]).Ok?
    ensures EndsDead(EmitRange(fn, t, s, |fn.insts|, k[s]).code)
    decreases |fn.insts| - s
  {
    hide EmitWhile, EmitForever, EmitBranch, EmitSimple, InstOk, DiamondsClosed, KindAt;
    var n := |fn.insts|;
    var x := EmitConstruct(fn, t, s, n, k[s]);
    OnlyLeafReachesEnd(fn, k, t, s);
    ConstructTracks(fn, k, t, s, n);
    if x.pc < n {
      LastIsReturn(fn, k, t, x.pc);
    } else {
      assert x.code + [] == x.code;
    }
  }

  lemma DeadEnd(c: Context, code: seq<Instr>, v: Operands)
    requires EndsDead(code) && Check(c, code, v).Some?
    ensures Check(c, code, v) == Some(DEAD)
  {
    var n := |code| - 1;
    assert code == code[..n] + [code[n]];
    CheckConcat(c, code[..n], [code[n]], v);
    var w := Check(c, code[..n], v).value;
    assert [code[n]][1..] == [];
    assert Check(c, [], DEAD) == Some(DEAD);
  }

  /** How the end of a function can be typed: it is not reached, or what is there are its results. */
  predicate EndTyped(fn: Mir.Function, k: seq<Kinds>)
    requires |k| == |fn.insts| + 1
  {
    EndsInReturn(fn) || ExpandTypes(k[|fn.insts|]) == KindTypes(fn.result)
  }

  /** The emitted code of a function validates: it leaves exactly the declared results. */
  lemma EmittedFunctionValidates(fn: Mir.Function, k: seq<Kinds>, c: Context)
    requires WellFormed(fn, k) && EmitBody(fn).Ok? && Suits(fn, c) && EndTyped(fn, k)
    ensures BodyOk(c, EmitBody(fn).code, c.result)
  {
    hide EmitRange, Suits, InstOk, DiamondsClosed, Check, CheckInstr, Turns, Prologue;
    BodyTurns(fn, k, c);
    var none: Types := [];
    if EndsInReturn(fn) {
      DeadCode(fn, k);
      DeadBody(c, EmitBody(fn).code, Above(k[|fn.insts|], 0), c.result);
    } else {
      assert k[|fn.insts|][0..] == k[|fn.insts|];
      ResultIs(fn, c);
      TurnsBody(c, EmitBody(fn).code, c.result);
    }
  }

  lemma ResultIs(fn: Mir.Function, c: Context)
    requires Suits(fn, c)
    ensures c.result == KindTypes(fn.result)
  {
  }

  /** Prologue and code together leave what the stack map says. */
  lemma BodyTurns(fn: Mir.Function, k: seq<Kinds>, c: Context)
    requires WellFormed(fn, k) && EmitBody(fn).Ok? && Suits(fn, c)
    ensures Turns(c, EmitBody(fn).code, [], Above(k[|fn.insts|], 0))
  {
    hide EmitRange, Suits, InstOk, DiamondsClosed, Turns, Prologue, ExpandTypes;
    BodyPlaced(fn, k, c);
    RangeTurns(fn, k, c, NO_TARGETS, 0, |fn.insts|, 0);
    assert k[0][0..] == [];
    NoKinds();
    PrologueTurns(fn, c);
    TurnsThen(c, Prologue(fn), EmitRange(fn, NO_TARGETS, 0, |fn.insts|, k[0]).code, [], [], Above(k[|fn.insts|], 0));
  }

  lemma DeadCode(fn: Mir.Function, k: seq<Kinds>)
    requires WellFormed(fn, k) && EmitBody(fn).Ok? && EndsInReturn(fn)
    ensures EndsDead(EmitBody(fn).code)
  {
    hide EmitRange, InstOk, DiamondsClosed, Prologue;
    LastIsReturn(fn, k, NO_TARGETS, 0);
  }

  lemma DeadBody(c: Context, code: seq<Instr>, qs: Types, result: Types)
    requires Turns(c, code, [], qs) && EndsDead(code)
    ensures BodyOk(c, code, result)
  {
    hide Check;
    var none: Types := [];
    var v := Operands([], false);
    assert none + none == none;
    assert Fits(v, none + none);
    assert TurnsAt(c, code, v, none, qs);
    DeadEnd(c, code, v);
    DeadFits(none + result);
    PopFits(DEAD, none, result);
  }

  lemma BodyPlaced(fn: Mir.Function, k: seq<Kinds>, c: Context)
    requires WellFormed(fn, k) && Suits(fn, c)
    ensures Placed(fn, k, c, NO_TARGETS, 0, |fn.insts|, 0)
  {
    hide EmitRange, Suits, InstOk, DiamondsClosed;
    NeverBelowEmpty(fn, k);
  }
}
