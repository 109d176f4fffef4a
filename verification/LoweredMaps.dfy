/**
 * The stack map of typed structured code is a stack map of its flat code: typed code is well-formed once it
 * has been lowered.
 */
module LoweredMaps {
  import opened Words
  import opened StackMap
  import opened Structured
  import opened Expressions
  import opened Statements
  import opened Typing
  import Mir

  // ---- instructions that fall through -----------------------------------------------------------

  /** What an instruction says of the next place, and that it has its operands, of which the lowest `low` are
      not its own. */
  predicate Falls(fn: Mir.Function, k: seq<Kinds>, pc: nat, low: nat)
    requires |k| == |fn.insts| + 1 && pc < |fn.insts|
  {
    && |k[pc]| >= low + Pops(fn.insts[pc], |k[pc]|)
    && match fn.insts[pc]
       case Jump(_) => true
       case JumpIfFalse(_) => true
       case Return => InstOk(fn, k, pc)
       case ReturnVoid => InstOk(fn, k, pc)
       case inst => KindsAfter(fn, inst, k[pc]) == Some(k[pc + 1])
  }

  ghost predicate AllFall(fn: Mir.Function, k: seq<Kinds>, a: nat, b: nat, low: nat)
    requires |k| == |fn.insts| + 1
  {
    forall pc :: a <= pc < b && pc < |fn.insts| ==> Falls(fn, k, pc, low)
  }

  lemma FallJoin(fn: Mir.Function, k: seq<Kinds>, a: nat, b: nat, c: nat, low: nat)
    requires |k| == |fn.insts| + 1 && AllFall(fn, k, a, b, low) && AllFall(fn, k, b, c, low)
    ensures AllFall(fn, k, a, c, low)
  {
    hide Falls;
  }

  lemma FallLower(fn: Mir.Function, k: seq<Kinds>, a: nat, b: nat, low: nat, low2: nat)
    requires |k| == |fn.insts| + 1 && AllFall(fn, k, a, b, low) && low2 <= low
    ensures AllFall(fn, k, a, b, low2)
  {
    hide InstOk, KindsAfter;
    forall pc | a <= pc < b && pc < |fn.insts|
      ensures Falls(fn, k, pc, low2)
    {
      assert Falls(fn, k, pc, low);
    }
  }

  lemma {:induction false} TermsFall(fn: Mir.Function, k: seq<Kinds>, terms: seq<Term>, at: nat, ks: Kinds, low: nat)
    requires |k| == |fn.insts| + 1 && TermsStand(fn, terms, at) && KindsStand(fn, k, terms, at, ks, low)
    ensures AllFall(fn, k, at, at + Len(terms), low)
    decreases terms, 1
  {
    hide TermStands, TermKindsStand, TermKinds, AllFall;
    if terms == [] {
      NoneFall(fn, k, at, low);
    } else {
      SomeKinds(fn, k, terms[0], at, ks, low);
      var mid, ks2 := at + TermLen(terms[0]), TermKinds(fn, terms[0], ks, low).value;
      StartOf(fn, k, terms[1..], mid, ks2, low);
      TermFalls(fn, k, terms[0], at, ks, low);
      TermsFall(fn, k, terms[1..], mid, ks2, low);
      FallJoin(fn, k, at, mid, at + Len(terms), low);
    }
  }

  lemma NoneFall(fn: Mir.Function, k: seq<Kinds>, at: nat, low: nat)
    requires |k| == |fn.insts| + 1
    ensures AllFall(fn, k, at, at, low)
  {
  }

  lemma {:induction false} TermFalls(fn: Mir.Function, k: seq<Kinds>, x: Term, at: nat, ks: Kinds, low: nat)
    requires |k| == |fn.insts| + 1 && TermStands(fn, x, at) && TermKindsStand(fn, k, x, at, ks, low)
    requires at < |k| && k[at] == ks && Then(k, at + TermLen(x), TermKinds(fn, x, ks, low).value)
    ensures AllFall(fn, k, at, at + TermLen(x), low)
    decreases x, 0
  {
    hide TermsStand, KindsStand, TermsKinds, AllFall, Len, KindsAfter, DiamondEnds, EndStands;
    match x
    case Op(inst) => OpFalls(fn, k, at, ks, low);
    case And(l, r) =>
      var b, end := at + Len(l), at + TermLen(x);
      var base := Tested(TermsKinds(fn, l, ks, low), low).value;
      TermsFall(fn, k, l, at, ks, low);
      BranchFalls(fn, k, l, at, ks, low);
      TermsFall(fn, k, r, b + 1, base, |base|);
      FallLower(fn, k, b + 1, end - 4, |base|, low);
      EndFalls(fn, k, end - 1, base, low);
      FallJoin(fn, k, at, b, b + 1, low);
      FallJoin(fn, k, at, b + 1, end - 4, low);
      FallJoin(fn, k, at, end - 4, end, low);
    case Or(l, r) =>
      var b, end := at + Len(l), at + TermLen(x);
      var base := Tested(TermsKinds(fn, l, ks, low), low).value;
      TermsFall(fn, k, l, at, ks, low);
      BranchFalls(fn, k, l, at, ks, low);
      TruthFalls(fn, k, b, base, low);
      TermsFall(fn, k, r, b + 3, base, |base|);
      FallLower(fn, k, b + 3, end - 4, |base|, low);
      EndFalls(fn, k, end - 1, base, low);
      FallJoin(fn, k, at, b, b + 1, low);
      FallJoin(fn, k, at, b + 1, b + 3, low);
      FallJoin(fn, k, at, b + 3, end - 4, low);
      FallJoin(fn, k, at, end - 4, end, low);
  }

  lemma OpFalls(fn: Mir.Function, k: seq<Kinds>, at: nat, ks: Kinds, low: nat)
    requires |k| == |fn.insts| + 1 && at < |fn.insts| && k[at] == ks
    requires OpKinds(fn, fn.insts[at], ks, low) == Some(k[at + 1])
    ensures AllFall(fn, k, at, at + 1, low)
  {
    hide KindsAfter;
    if fn.insts[at].Return? {
      assert ks == [ks[0]];
    }
    assert Falls(fn, k, at, low);
  }

  lemma BranchFalls(fn: Mir.Function, k: seq<Kinds>, l: seq<Term>, at: nat, ks: Kinds, low: nat)
    requires |k| == |fn.insts| + 1 && KindsStand(fn, k, l, at, ks, low)
    requires at + Len(l) < |fn.insts| && fn.insts[at + Len(l)].JumpIfFalse?
    requires Tested(TermsKinds(fn, l, ks, low), low).Some?
    ensures var base := Tested(TermsKinds(fn, l, ks, low), low).value;
      |base| >= low && k[at + Len(l)] == base + [Mir.KI32] && k[at + Len(l)][..|base|] == base
    ensures AllFall(fn, k, at + Len(l), at + Len(l) + 1, low)
  {
    hide KindsStand, TermsKinds, Len, InstOk, KindsAfter;
    EndOf(fn, k, l, at, ks, low);
    var a := TermsKinds(fn, l, ks, low).value;
    assert a == a[..|a| - 1] + [Mir.KI32];
    assert Falls(fn, k, at + Len(l), low);
  }

  lemma TruthFalls(fn: Mir.Function, k: seq<Kinds>, b: nat, base: Kinds, low: nat)
    requires |k| == |fn.insts| + 1 && InstIs(fn, b + 1, Mir.PushBool(true)) && b + 2 < |fn.insts|
      && fn.insts[b + 2].Jump?
    requires k[b + 1] == base && k[b + 2] == base + [Mir.KI32] && |base| >= low
    ensures AllFall(fn, k, b + 1, b + 3, low)
  {
  }

  lemma EndFalls(fn: Mir.Function, k: seq<Kinds>, f: nat, base: Kinds, low: nat)
    requires |k| == |fn.insts| + 1 && DiamondEnds(fn, f) && EndStands(k, f, base) && |base| >= low
    ensures AllFall(fn, k, f - 3, f + 1, low)
  {
  }

  lemma {:induction false} CodeFalls(fn: Mir.Function, k: seq<Kinds>, code: seq<Stmt>, at: nat, x: Exits)
    requires |k| == |fn.insts| + 1 && Stands(fn, code, at, x) && CodeKindsStand(fn, k, code, at)
    ensures AllFall(fn, k, at, at + Size(code), 0)
    decreases code, 2
  {
    hide StmtStands, StmtKindsStand, AllFall;
    if code == [] {
      NoneFall(fn, k, at, 0);
    } else {
      var mid := at + StmtSize(code[0]);
      StmtFalls(fn, k, code[0], at, x);
      CodeFalls(fn, k, code[1..], mid, x);
      FallJoin(fn, k, at, mid, at + Size(code), 0);
    }
  }

  lemma CondFalls(fn: Mir.Function, k: seq<Kinds>, c: seq<Term>, at: nat, f: nat)
    requires |k| == |fn.insts| + 1 && TermsStand(fn, c, at) && KindsStand(fn, k, c, at, [], 0)
    requires TypedAs(fn, c, [Mir.KI32]) && InstIs(fn, at + Len(c), Mir.JumpIfFalse(f))
    ensures k[at + Len(c)] == [Mir.KI32] && AllFall(fn, k, at, at + Len(c) + 1, 0)
  {
    hide TermsStand, KindsStand, TermsKinds, Len, AllFall;
    TermsFall(fn, k, c, at, [], 0);
    BranchFalls(fn, k, c, at, [], 0);
    EndOf(fn, k, c, at, [], 0);
    FallJoin(fn, k, at, at + Len(c), at + Len(c) + 1, 0);
  }

  lemma JumpFalls(fn: Mir.Function, k: seq<Kinds>, pc: nat)
    requires |k| == |fn.insts| + 1 && pc < |fn.insts| && fn.insts[pc].Jump?
    ensures AllFall(fn, k, pc, pc + 1, 0)
  {
  }

  lemma {:induction false} StmtFalls(fn: Mir.Function, k: seq<Kinds>, s: Stmt, at: nat, x: Exits)
    requires |k| == |fn.insts| + 1 && StmtStands(fn, s, at, x) && StmtKindsStand(fn, k, s, at)
    ensures AllFall(fn, k, at, at + StmtSize(s), 0)
    decreases s, 1
  {
    hide TermsStand, Stands, KindsStand, CodeKindsStand, Typed, TypedAs, Len, Size, AllFall;
    var end := at + StmtSize(s);
    match s
    case Eval(terms) => TermsFall(fn, k, terms, at, [], 0);
    case IfThen(c, thn) =>
      CondFalls(fn, k, c, at, end);
      CodeFalls(fn, k, thn, at + Len(c) + 1, x);
      FallJoin(fn, k, at, at + Len(c) + 1, end, 0);
    case IfElse(_, _, _) => IfElseFalls(fn, k, s, at, x);
    case While(_, _, _) => WhileFalls(fn, k, s, at, x);
    case Forever(body) =>
      CodeFalls(fn, k, body, at, InLoop(at, end));
      JumpFalls(fn, k, end - 1);
      FallJoin(fn, k, at, end - 1, end, 0);
    case Break => JumpFalls(fn, k, at);
    case Continue => JumpFalls(fn, k, at);
  }

  lemma {:induction false} IfElseFalls(fn: Mir.Function, k: seq<Kinds>, s: Stmt, at: nat, x: Exits)
    requires s.IfElse? && |k| == |fn.insts| + 1 && StmtStands(fn, s, at, x) && StmtKindsStand(fn, k, s, at)
    ensures AllFall(fn, k, at, at + StmtSize(s), 0)
    decreases s, 0
  {
    hide TermsStand, Stands, KindsStand, CodeKindsStand, Typed, TypedAs, Len, Size, AllFall;
    var b, end := at + Len(s.cond) + 1, at + StmtSize(s);
    var f := b + Size(s.thn) + 1;
    CondFalls(fn, k, s.cond, at, f);
    CodeFalls(fn, k, s.thn, b, x);
    JumpFalls(fn, k, f - 1);
    CodeFalls(fn, k, s.els, f, x);
    FallJoin(fn, k, at, b, f - 1, 0);
    FallJoin(fn, k, at, f - 1, f, 0);
    FallJoin(fn, k, at, f, end, 0);
  }

  lemma {:induction false} WhileFalls(fn: Mir.Function, k: seq<Kinds>, s: Stmt, at: nat, x: Exits)
    requires s.While? && |k| == |fn.insts| + 1 && StmtStands(fn, s, at, x) && StmtKindsStand(fn, k, s, at)
    ensures AllFall(fn, k, at, at + StmtSize(s), 0)
    decreases s, 0
  {
    hide TermsStand, Stands, KindsStand, CodeKindsStand, Typed, TypedAs, Len, Size, AllFall;
    var b, end := at + Len(s.cond) + 1, at + StmtSize(s);
    var p := b + Size(s.body);
    CondFalls(fn, k, s.cond, at, end);
    CodeFalls(fn, k, s.body, b, WhileExits(s, at));
    TermsFall(fn, k, s.post, p, [], 0);
    JumpFalls(fn, k, end - 1);
    FallJoin(fn, k, at, b, p, 0);
    FallJoin(fn, k, at, p, end - 1, 0);
    FallJoin(fn, k, at, end - 1, end, 0);
  }

  // ---- jumps --------------------------------------------------------------------------------------

  ghost predicate Fallen(fn: Mir.Function, k: seq<Kinds>) {
    |k| == |fn.insts| + 1 && AllFall(fn, k, 0, |fn.insts|, 0)
  }

  predicate PcOk(fn: Mir.Function, k: seq<Kinds>, pc: nat)
    requires |k| == |fn.insts| + 1 && pc < |fn.insts|
  {
    InstOk(fn, k, pc) && DiamondsClosed(fn, pc)
  }

  ghost predicate AllOk(fn: Mir.Function, k: seq<Kinds>, a: nat, b: nat)
    requires |k| == |fn.insts| + 1
  {
    forall pc :: a <= pc < b && pc < |fn.insts| ==> PcOk(fn, k, pc)
  }

  lemma OkJoin(fn: Mir.Function, k: seq<Kinds>, a: nat, b: nat, c: nat)
    requires |k| == |fn.insts| + 1 && AllOk(fn, k, a, b) && AllOk(fn, k, b, c)
    ensures AllOk(fn, k, a, c)
  {
    hide PcOk;
  }

  lemma NoneOk(fn: Mir.Function, k: seq<Kinds>, a: nat)
    requires |k| == |fn.insts| + 1
    ensures AllOk(fn, k, a, a)
  {
  }

  lemma OneOk(fn: Mir.Function, k: seq<Kinds>, pc: nat)
    requires |k| == |fn.insts| + 1 && pc < |fn.insts| && PcOk(fn, k, pc)
    ensures AllOk(fn, k, pc, pc + 1)
  {
    hide PcOk;
  }

  lemma FallAt(fn: Mir.Function, k: seq<Kinds>, a: nat, b: nat, low: nat, pc: nat)
    requires |k| == |fn.insts| + 1 && AllFall(fn, k, a, b, low) && a <= pc < b && pc < |fn.insts|
    ensures Falls(fn, k, pc, low)
  {
  }

  lemma FallenAt(fn: Mir.Function, k: seq<Kinds>, pc: nat)
    requires Fallen(fn, k) && pc < |fn.insts|
    ensures |k| == |fn.insts| + 1 && Falls(fn, k, pc, 0)
  {
  }

  /** Instructions that leave the lowest operands alone stay above them. */
  lemma FallAbove(fn: Mir.Function, k: seq<Kinds>, a: nat, b: nat, low: nat)
    requires |k| == |fn.insts| + 1 && AllFall(fn, k, a, b, low)
    ensures StaysAbove(fn, k, a, b, low)
  {
    hide InstOk, KindsAfter;
    forall j | a <= j < b && j < |fn.insts|
      ensures Low(fn, k, j) >= low
    {
      assert Falls(fn, k, j, low);
    }
  }

  lemma AllAbove(fn: Mir.Function, k: seq<Kinds>, a: nat, b: nat)
    requires Fallen(fn, k)
    ensures |k| == |fn.insts| + 1 && StaysAbove(fn, k, a, b, 0)
  {
    hide Falls;
    assert AllFall(fn, k, a, b, 0);
    FallAbove(fn, k, a, b, 0);
  }

  /** Where no operands are pending, no operator has just pushed its true result. */
  lemma NoTruthHere(fn: Mir.Function, k: seq<Kinds>, pc: nat)
    requires Fallen(fn, k) && NonePending(k, pc)
    ensures !IsTruthArm(fn, pc)
  {
    hide Fallen;
    if IsTruthArm(fn, pc) {
      FallenAt(fn, k, pc - 1);
    }
  }

  lemma PlainOk(fn: Mir.Function, k: seq<Kinds>, pc: nat, low: nat)
    requires |k| == |fn.insts| + 1 && pc < |fn.insts| && Falls(fn, k, pc, low)
    requires !fn.insts[pc].Jump? && !fn.insts[pc].JumpIfFalse?
    ensures AllOk(fn, k, pc, pc + 1)
  {
    hide KindsAfter;
    assert PcOk(fn, k, pc);
  }

  /** A jump between places where no operands are pending. */
  lemma HomeJumpOk(fn: Mir.Function, k: seq<Kinds>, pc: nat, t: nat)
    requires Fallen(fn, k) && InstIs(fn, pc, Mir.Jump(t)) && t < |fn.insts|
    requires NonePending(k, pc) && NonePending(k, pc + 1) && NonePending(k, t)
    ensures |k| == |fn.insts| + 1 && AllOk(fn, k, pc, pc + 1)
  {
    hide Fallen, StaysAbove, JumpsClosed;
    FallenAt(fn, k, pc);
    NoTruthHere(fn, k, pc); NoTruthHere(fn, k, t);
    AllAbove(fn, k, pc + 1, t); AllAbove(fn, k, t, pc);
    assert PcOk(fn, k, pc);
  }

  /** What ends at `t` does not end in an operator's jump beyond it. */
  predicate LeavesNothing(fn: Mir.Function, k: seq<Kinds>, t: nat) {
    0 < t <= |fn.insts| && fn.insts[t - 1].Jump? && fn.insts[t - 1].dest > t ==>
      NonePending(k, t - 1) && NonePending(k, fn.insts[t - 1].dest)
  }

  /** A branch of a statement. */
  lemma HomeBranchOk(fn: Mir.Function, k: seq<Kinds>, b: nat, t: nat)
    requires Fallen(fn, k) && InstIs(fn, b, Mir.JumpIfFalse(t)) && b < t < |fn.insts|
    requires b < |k| && k[b] == [Mir.KI32] && NonePending(k, b + 1) && NonePending(k, t)
    requires |k| == |fn.insts| + 1
    requires b + 1 < t ==> LeavesNothing(fn, k, t)
    ensures AllOk(fn, k, b, b + 1)
  {
    hide Fallen, StaysAbove, JumpsClosed;
    NoTruthHere(fn, k, t);
    AllAbove(fn, k, b + 1, t);
    assert k[b][..0] == [];
    if OrShape(fn, b, |fn.insts|).Some? {
      FallenAt(fn, k, b + 1);
    }
    if AndShape(fn, b, |fn.insts|).Some? {
      FallenAt(fn, k, t);
    }
    assert PcOk(fn, k, b);
  }

  // ---- operators ------------------------------------------------------------------------------------

  /** The place behind expressions is inside the function, or nothing is pending there. */
  predicate Ends(fn: Mir.Function, k: seq<Kinds>, end: nat) {
    end < |fn.insts| || (end == |fn.insts| && NonePending(k, end))
  }

  lemma ClosedBetween(fn: Mir.Function, lo: nat, a: nat, b: nat, hi: nat, end: nat)
    requires TermJumps(fn, a, b, end) && lo < a && end <= hi
    ensures forall j :: a <= j < b && j < |fn.insts| ==> JumpStays(fn.insts[j], lo, hi)
  {
    forall j | a <= j < b && j < |fn.insts|
      ensures JumpStays(fn.insts[j], lo, hi)
    {
      assert TermJump(fn, end, j);
    }
  }

  lemma EndOk(fn: Mir.Function, k: seq<Kinds>, f: nat, base: Kinds)
    requires |k| == |fn.insts| + 1 && DiamondEnds(fn, f) && EndStands(k, f, base) && f + 1 < |fn.insts|
    ensures AllOk(fn, k, f - 3, f + 1)
  {
    EndFalls(fn, k, f, base, |base|);
    FallAbove(fn, k, f - 3, f + 1, |base|);
    EndBranchOk(fn, k, f, base);
    EndJumpOk(fn, k, f, base);
    FallAt(fn, k, f - 3, f + 1, |base|, f - 2); FallAt(fn, k, f - 3, f + 1, |base|, f);
    PlainOk(fn, k, f - 2, |base|); PlainOk(fn, k, f, |base|);
    OkJoin(fn, k, f - 3, f - 2, f - 1);
    OkJoin(fn, k, f - 3, f - 1, f);
    OkJoin(fn, k, f - 3, f, f + 1);
  }

  lemma EndBranchOk(fn: Mir.Function, k: seq<Kinds>, f: nat, base: Kinds)
    requires |k| == |fn.insts| + 1 && DiamondEnds(fn, f) && EndStands(k, f, base) && f + 1 < |fn.insts|
    requires StaysAbove(fn, k, f - 3, f + 1, |base|)
    ensures AllOk(fn, k, f - 3, f - 2)
  {
    hide Low;
    assert (base + [Mir.KI32])[..|base|] == base;
    assert StaysAbove(fn, k, f - 2, f, |base|);
    assert JumpsClosed(fn, f - 3, f + 1);
    assert InstOk(fn, k, f - 3);
    OneOk(fn, k, f - 3);
  }

  lemma EndJumpOk(fn: Mir.Function, k: seq<Kinds>, f: nat, base: Kinds)
    requires |k| == |fn.insts| + 1 && DiamondEnds(fn, f) && EndStands(k, f, base) && f + 1 < |fn.insts|
    requires StaysAbove(fn, k, f - 3, f + 1, |base|)
    ensures AllOk(fn, k, f - 1, f)
  {
    hide Low, JumpsClosed;
    assert StaysAbove(fn, k, f, f + 1, |base|);
    assert InstOk(fn, k, f - 1);
    OneOk(fn, k, f - 1);
  }

  lemma AndOk(fn: Mir.Function, k: seq<Kinds>, b: nat, f: nat, base: Kinds)
    requires |k| == |fn.insts| + 1 && InstIs(fn, b, Mir.JumpIfFalse(f)) && b + 5 <= f && f + 1 < |fn.insts|
    requires DiamondEnds(fn, f) && EndStands(k, f, base) && k[b] == base + [Mir.KI32] && k[b + 1] == base
    requires AllFall(fn, k, b + 1, f - 3, |base|) && TermJumps(fn, b + 1, f - 3, f - 3)
    ensures AllOk(fn, k, b, b + 1)
  {
    hide Low, AllFall;
    EndFalls(fn, k, f, base, |base|);
    FallJoin(fn, k, b + 1, f - 3, f + 1, |base|);
    FallAbove(fn, k, b + 1, f + 1, |base|);
    assert StaysAbove(fn, k, b + 1, f, |base|);
    assert (base + [Mir.KI32])[..|base|] == base;
    ClosedBetween(fn, b, b + 1, f - 3, f + 1, f - 3);
    assert JumpsClosed(fn, b, f + 1);
    assert InstOk(fn, k, b);
    OneOk(fn, k, b);
  }

  lemma OrOk(fn: Mir.Function, k: seq<Kinds>, b: nat, f: nat, base: Kinds)
    requires |k| == |fn.insts| + 1 && b + 6 <= f && f + 1 < |fn.insts|
    requires InstIs(fn, b, Mir.JumpIfFalse(b + 3)) && InstIs(fn, b + 1, Mir.PushBool(true))
    requires InstIs(fn, b + 2, Mir.Jump(f + 1)) && DiamondEnds(fn, f) && EndStands(k, f, base)
    requires k[b] == base + [Mir.KI32] && k[b + 1] == base && k[b + 2] == base + [Mir.KI32] && k[b + 3] == base
    requires AllFall(fn, k, b + 3, f - 3, |base|) && TermJumps(fn, b + 3, f - 3, f - 3)
    ensures AllOk(fn, k, b, b + 3)
  {
    hide AllFall;
    EndFalls(fn, k, f, base, |base|);
    TruthFalls(fn, k, b, base, |base|);
    FallJoin(fn, k, b + 3, f - 3, f + 1, |base|);
    FallAbove(fn, k, b + 1, b + 3, |base|);
    FallAbove(fn, k, b + 3, f + 1, |base|);
    ClosedBetween(fn, b, b + 3, f - 3, f + 1, f - 3);
    OrBranchOk(fn, k, b, f, base);
    OrJumpOk(fn, k, b, f, base);
    FallAt(fn, k, b + 1, b + 3, |base|, b + 1);
    PlainOk(fn, k, b + 1, |base|);
    OkJoin(fn, k, b, b + 1, b + 2);
    OkJoin(fn, k, b, b + 2, b + 3);
  }

  lemma OrBranchOk(fn: Mir.Function, k: seq<Kinds>, b: nat, f: nat, base: Kinds)
    requires |k| == |fn.insts| + 1 && b + 6 <= f && f + 1 < |fn.insts|
    requires InstIs(fn, b, Mir.JumpIfFalse(b + 3)) && InstIs(fn, b + 1, Mir.PushBool(true))
    requires InstIs(fn, b + 2, Mir.Jump(f + 1)) && DiamondEnds(fn, f)
    requires k[b] == base + [Mir.KI32] && k[b + 1] == base && k[b + 3] == base
    requires StaysAbove(fn, k, b + 1, b + 3, |base|)
    requires forall j :: b + 3 <= j < f - 3 && j < |fn.insts| ==> JumpStays(fn.insts[j], b, f + 1)
    ensures AllOk(fn, k, b, b + 1)
  {
    hide Low, StaysAbove;
    assert (base + [Mir.KI32])[..|base|] == base;
    assert JumpsClosed(fn, b, f + 1);
    assert InstOk(fn, k, b);
    OneOk(fn, k, b);
  }

  lemma OrJumpOk(fn: Mir.Function, k: seq<Kinds>, b: nat, f: nat, base: Kinds)
    requires |k| == |fn.insts| + 1 && b + 6 <= f && f + 1 < |fn.insts|
    requires InstIs(fn, b, Mir.JumpIfFalse(b + 3)) && InstIs(fn, b + 1, Mir.PushBool(true))
    requires InstIs(fn, b + 2, Mir.Jump(f + 1)) && DiamondEnds(fn, f) && EndStands(k, f, base)
    requires k[b + 1] == base && k[b + 2] == base + [Mir.KI32] && k[b + 3] == base
    requires StaysAbove(fn, k, b + 3, f + 1, |base|)
    ensures AllOk(fn, k, b + 2, b + 3)
  {
    hide Low, StaysAbove, JumpsClosed;
    assert InstOk(fn, k, b + 2);
    OneOk(fn, k, b + 2);
  }

  lemma {:induction false} TermsOk(fn: Mir.Function, k: seq<Kinds>, terms: seq<Term>, at: nat, ks: Kinds, low: nat)
    requires |k| == |fn.insts| + 1 && TermsStand(fn, terms, at) && KindsStand(fn, k, terms, at, ks, low)
    requires Ends(fn, k, at + Len(terms))
    ensures AllOk(fn, k, at, at + Len(terms))
    decreases terms, 1
  {
    hide TermStands, TermKindsStand, TermKinds, AllOk;
    if terms == [] {
      NoneOk(fn, k, at);
    } else {
      SomeKinds(fn, k, terms[0], at, ks, low);
      var mid, ks2 := at + TermLen(terms[0]), TermKinds(fn, terms[0], ks, low).value;
      StartOf(fn, k, terms[1..], mid, ks2, low);
      assert Ends(fn, k, mid);
      TermOk(fn, k, terms[0], at, ks, low);
      TermsOk(fn, k, terms[1..], mid, ks2, low);
      OkJoin(fn, k, at, mid, at + Len(terms));
    }
  }

  lemma {:induction false} TermOk(fn: Mir.Function, k: seq<Kinds>, x: Term, at: nat, ks: Kinds, low: nat)
    requires |k| == |fn.insts| + 1 && TermStands(fn, x, at) && TermKindsStand(fn, k, x, at, ks, low)
    requires at < |k| && k[at] == ks && Then(k, at + TermLen(x), TermKinds(fn, x, ks, low).value)
    requires Ends(fn, k, at + TermLen(x))
    ensures AllOk(fn, k, at, at + TermLen(x))
    decreases x, 0
  {
    hide TermsStand, KindsStand, TermsKinds, AllFall, AllOk, Len, KindsAfter, DiamondEnds, TermJumps;
    match x
    case Op(inst) =>
      OpFalls(fn, k, at, ks, low);
      FallAt(fn, k, at, at + 1, low, at);
      PlainOk(fn, k, at, low);
    case And(l, r) =>
      var b, f := at + Len(l), at + TermLen(x) - 1;
      var base := Tested(TermsKinds(fn, l, ks, low), low).value;
      BranchFalls(fn, k, l, at, ks, low);
      StartOf(fn, k, r, b + 1, base, |base|);
      TermsFall(fn, k, r, b + 1, base, |base|);
      TermsJumps(fn, r, b + 1);
      RightNotEmpty(fn, r, base);
      TermsOk(fn, k, l, at, ks, low);
      AndOk(fn, k, b, f, base);
      TermsOk(fn, k, r, b + 1, base, |base|);
      EndOk(fn, k, f, base);
      OkJoin(fn, k, at, b, b + 1);
      OkJoin(fn, k, at, b + 1, f - 3);
      OkJoin(fn, k, at, f - 3, f + 1);
    case Or(l, r) =>
      var b, f := at + Len(l), at + TermLen(x) - 1;
      var base := Tested(TermsKinds(fn, l, ks, low), low).value;
      BranchFalls(fn, k, l, at, ks, low);
      StartOf(fn, k, r, b + 3, base, |base|);
      TermsFall(fn, k, r, b + 3, base, |base|);
      TermsJumps(fn, r, b + 3);
      TermsOk(fn, k, l, at, ks, low);
      OrOk(fn, k, b, f, base);
      TermsOk(fn, k, r, b + 3, base, |base|);
      EndOk(fn, k, f, base);
      OkJoin(fn, k, at, b, b + 3);
      OkJoin(fn, k, at, b + 3, f - 3);
      OkJoin(fn, k, at, f - 3, f + 1);
  }

  lemma RightNotEmpty(fn: Mir.Function, r: seq<Term>, base: Kinds)
    requires TermsKinds(fn, r, base, |base|) == Some(base + [Mir.KI32])
    ensures Len(r) > 0
  {
    assert r != [] ==> TermLen(r[0]) > 0;
    assert |base + [Mir.KI32]| > |base|;
  }

  // ---- statements -----------------------------------------------------------------------------------

  predicate ExitsReady(fn: Mir.Function, k: seq<Kinds>, x: Exits) {
    x.InLoop? ==> x.next < |fn.insts| && x.out < |fn.insts| && NonePending(k, x.next) && NonePending(k, x.out)
  }

  lemma {:induction false} CodeOk(fn: Mir.Function, k: seq<Kinds>, code: seq<Stmt>, at: nat, x: Exits)
    requires Fallen(fn, k) && |k| == |fn.insts| + 1 && Stands(fn, code, at, x) && CodeKindsStand(fn, k, code, at)
    requires at + Size(code) < |fn.insts| && ExitsReady(fn, k, x)
    ensures AllOk(fn, k, at, at + Size(code))
    decreases code, 3
  {
    hide Fallen, StmtStands, StmtKindsStand, AllOk;
    if code == [] {
      NoneOk(fn, k, at);
    } else {
      var mid := at + StmtSize(code[0]);
      CodeStart(fn, k, code[1..], mid);
      StmtOk(fn, k, code[0], at, x);
      CodeOk(fn, k, code[1..], mid, x);
      OkJoin(fn, k, at, mid, at + Size(code));
    }
  }

  lemma CondOk(fn: Mir.Function, k: seq<Kinds>, c: seq<Term>, at: nat, f: nat)
    requires Fallen(fn, k) && |k| == |fn.insts| + 1 && TermsStand(fn, c, at) && KindsStand(fn, k, c, at, [], 0)
    requires TypedAs(fn, c, [Mir.KI32]) && InstIs(fn, at + Len(c), Mir.JumpIfFalse(f)) && at + Len(c) < f < |fn.insts|
    requires NonePending(k, at + Len(c) + 1) && NonePending(k, f)
    requires at + Len(c) + 1 < f ==> LeavesNothing(fn, k, f)
    ensures AllOk(fn, k, at, at + Len(c) + 1)
  {
    hide Fallen, TermsStand, KindsStand, TypedAs, Len, AllOk, AllFall, LeavesNothing;
    CondFalls(fn, k, c, at, f);
    TermsOk(fn, k, c, at, [], 0);
    HomeBranchOk(fn, k, at + Len(c), f);
    OkJoin(fn, k, at, at + Len(c), at + Len(c) + 1);
  }

  /** Code that has been checked leaves nothing behind. */
  lemma CodeLeavesNothing(fn: Mir.Function, k: seq<Kinds>, code: seq<Stmt>, at: nat, x: Exits)
    requires |k| == |fn.insts| + 1 && Stands(fn, code, at, x) && CodeKindsStand(fn, k, code, at)
    requires AllOk(fn, k, at, at + Size(code)) && Size(code) > 0
    ensures LeavesNothing(fn, k, at + Size(code))
  {
    hide Stands, CodeKindsStand, CodeJumps, DiamondsClosed, StaysAbove;
    var end := at + Size(code);
    StandSettled(fn, k, code, at);
    JumpsOfCode(fn, k, code, at, x);
    LastJump(fn, k, at, end, at, end, x, HasLoop(code), HasContinue(code));
    assert PcOk(fn, k, end - 1);
  }

  lemma LastJump(fn: Mir.Function, k: seq<Kinds>, a: nat, b: nat, lo: nat, hi: nat, x: Exits, loops: bool, cont: bool)
    requires |k| == |fn.insts| + 1 && a < b <= |fn.insts| && CodeJumps(fn, k, a, b, lo, hi, x, loops, cont)
    ensures CodeJump(fn, k, lo, hi, x, loops, cont, b - 1)
  {
  }

  lemma {:induction false} StmtOk(fn: Mir.Function, k: seq<Kinds>, s: Stmt, at: nat, x: Exits)
    requires Fallen(fn, k) && |k| == |fn.insts| + 1 && StmtStands(fn, s, at, x) && StmtKindsStand(fn, k, s, at)
    requires at + StmtSize(s) < |fn.insts| && NonePending(k, at) && NonePending(k, at + StmtSize(s))
    requires ExitsReady(fn, k, x)
    ensures AllOk(fn, k, at, at + StmtSize(s))
    decreases s, 2
  {
    hide Fallen, TermsStand, Stands, KindsStand, CodeKindsStand, Typed, TypedAs, Len, Size, AllOk, LeavesNothing;
    var end := at + StmtSize(s);
    match s
    case Eval(terms) => TermsOk(fn, k, terms, at, [], 0);
    case IfThen(c, thn) =>
      var b := at + Len(c) + 1;
      CodeStart(fn, k, thn, b);
      CodeOk(fn, k, thn, b, x);
      if Size(thn) > 0 {
        CodeLeavesNothing(fn, k, thn, b, x);
      }
      CondOk(fn, k, c, at, end);
      OkJoin(fn, k, at, b, end);
    case IfElse(_, _, _) => IfElseOk(fn, k, s, at, x);
    case While(_, _, _) => WhileOk(fn, k, s, at, x);
    case Forever(body) =>
      CodeOk(fn, k, body, at, InLoop(at, end));
      HomeJumpOk(fn, k, end - 1, at);
      OkJoin(fn, k, at, end - 1, end);
    case Break => HomeJumpOk(fn, k, at, x.out);
    case Continue => HomeJumpOk(fn, k, at, x.next);
  }

  lemma CodeEnd(fn: Mir.Function, k: seq<Kinds>, code: seq<Stmt>, at: nat)
    requires CodeKindsStand(fn, k, code, at)
    ensures NonePending(k, at + Size(code))
  {
    StandSettled(fn, k, code, at);
    SettledEnd(k, code, at);
  }

  lemma {:induction false} IfElseOk(fn: Mir.Function, k: seq<Kinds>, s: Stmt, at: nat, x: Exits)
    requires s.IfElse? && Fallen(fn, k) && |k| == |fn.insts| + 1
    requires StmtStands(fn, s, at, x) && StmtKindsStand(fn, k, s, at)
    requires at + StmtSize(s) < |fn.insts| && NonePending(k, at) && NonePending(k, at + StmtSize(s))
    requires ExitsReady(fn, k, x)
    ensures AllOk(fn, k, at, at + StmtSize(s))
    decreases s, 1
  {
    hide Fallen, TermsStand, Stands, KindsStand, CodeKindsStand, Typed, TypedAs, Len, Size, AllOk;
    var b, end := at + Len(s.cond) + 1, at + StmtSize(s);
    var f := b + Size(s.thn) + 1;
    CodeStart(fn, k, s.thn, b); CodeEnd(fn, k, s.thn, b); CodeStart(fn, k, s.els, f);
    CondOk(fn, k, s.cond, at, f);
    CodeOk(fn, k, s.thn, b, x);
    HomeJumpOk(fn, k, f - 1, end);
    CodeOk(fn, k, s.els, f, x);
    OkJoin(fn, k, at, b, f - 1);
    OkJoin(fn, k, at, f - 1, f);
    OkJoin(fn, k, at, f, end);
  }

  lemma {:induction false} WhileOk(fn: Mir.Function, k: seq<Kinds>, s: Stmt, at: nat, x: Exits)
    requires s.While? && Fallen(fn, k) && |k| == |fn.insts| + 1
    requires StmtStands(fn, s, at, x) && StmtKindsStand(fn, k, s, at)
    requires at + StmtSize(s) < |fn.insts| && NonePending(k, at) && NonePending(k, at + StmtSize(s))
    ensures AllOk(fn, k, at, at + StmtSize(s))
    decreases s, 1
  {
    hide Fallen, TermsStand, Stands, KindsStand, CodeKindsStand, Typed, TypedAs, Len, Size, AllOk;
    var b, end := at + Len(s.cond) + 1, at + StmtSize(s);
    var p := b + Size(s.body);
    CodeStart(fn, k, s.body, b); StartOf(fn, k, s.post, p, [], 0);
    CondOk(fn, k, s.cond, at, end);
    CodeOk(fn, k, s.body, b, WhileExits(s, at));
    TermsOk(fn, k, s.post, p, [], 0);
    HomeJumpOk(fn, k, end - 1, at);
    OkJoin(fn, k, at, b, p);
    OkJoin(fn, k, at, p, end - 1);
    OkJoin(fn, k, at, end - 1, end);
  }

  // ---- functions ------------------------------------------------------------------------------------

  lemma {:induction false} EvalLast(code: seq<Stmt>)
    requires EndsInEval(code)
    ensures Size(code) > 0
  {
    if |code| > 1 {
      EvalLast(code[1..]);
    } else {
      assert code[1..] == [];
    }
  }

  lemma {:induction false} FunctionOk(fn: Mir.Function, k: seq<Kinds>, code: seq<Stmt>, at: nat)
    requires Fallen(fn, k) && |k| == |fn.insts| + 1 && Stands(fn, code, at, NoLoop) && CodeKindsStand(fn, k, code, at)
    requires at + Size(code) == |fn.insts| && EndsInEval(code)
    ensures AllOk(fn, k, at, |fn.insts|)
    decreases code
  {
    hide Fallen, AllOk, StmtStands, StmtKindsStand;
    var mid := at + StmtSize(code[0]);
    CodeStart(fn, k, code[1..], mid);
    if |code| == 1 {
      assert code[1..] == [] && code[0].Eval?;
      LastOk(fn, k, code[0], at);
    } else {
      EvalLast(code[1..]);
      StmtOk(fn, k, code[0], at, NoLoop);
      FunctionOk(fn, k, code[1..], mid);
      OkJoin(fn, k, at, mid, |fn.insts|);
    }
  }

  lemma LastOk(fn: Mir.Function, k: seq<Kinds>, s: Stmt, at: nat)
    requires s.Eval? && |k| == |fn.insts| + 1 && StmtStands(fn, s, at, NoLoop) && StmtKindsStand(fn, k, s, at)
    requires at + StmtSize(s) == |fn.insts| && NonePending(k, |fn.insts|)
    ensures AllOk(fn, k, at, |fn.insts|)
  {
    hide TermsStand, KindsStand, AllOk;
    TermsOk(fn, k, s.terms, at, [], 0);
  }

  /** A function whose instructions are lowered from typed structured code that ends in an expression. */
  predicate IsLowered(fn: Mir.Function, code: seq<Stmt>) {
    Shaped(code, false) && Typed(fn, code) && EndsInEval(code) && fn.insts == Lower(code, 0, NoLoop)
  }

  /** It is well-formed, and no operands are pending between its statements. */
  lemma LoweredIsWellFormed(fn: Mir.Function, code: seq<Stmt>)
    requires IsLowered(fn, code)
    ensures WellFormed(fn, StackMapOf(fn, code)) && Stands(fn, code, 0, NoLoop)
      && Settled(StackMapOf(fn, code), code, 0)
  {
    hide Shaped, EndsInEval, Typed, Lower, MapCode, Stands, CodeKindsStand, Settled, PcOk, Size;
    var k := StackMapOf(fn, code);
    LoweredStands(fn, code, 0, NoLoop);
    MapOfCode(fn, k, code, 0);
    StandSettled(fn, k, code, 0);
    CodeStart(fn, k, code, 0);
    CodeFalls(fn, k, code, 0, NoLoop);
    FunctionOk(fn, k, code, 0);
    forall pc: nat | pc < |fn.insts|
      ensures InstOk(fn, k, pc) && DiamondsClosed(fn, pc)
    {
      PcIsOk(fn, k, pc);
    }
  }

  lemma PcIsOk(fn: Mir.Function, k: seq<Kinds>, pc: nat)
    requires |k| == |fn.insts| + 1 && pc < |fn.insts| && AllOk(fn, k, 0, |fn.insts|)
    ensures InstOk(fn, k, pc) && DiamondsClosed(fn, pc)
  {
    hide InstOk, DiamondsClosed;
    assert PcOk(fn, k, pc);
  }
}
