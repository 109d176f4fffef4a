/**
 * Which expressions are emitted. The code of an expression, `&&` and `||` included, is emitted wherever it
 * stands in a well-formed function, except for `||` whose right operand holds an operator of either kind.
 */
module Expressions {
  import opened Words
  import opened StackMap
  import opened Emitter
  import opened Recognition
  import opened Structured
  import Mir

  // ---- what is emitted ------------------------------------------------------------------------

  /** No `&&` and no `||`. */
  predicate Straight(terms: seq<Term>) {
    terms == [] || (terms[0].Op? && Straight(terms[1..]))
  }

  predicate TermsFit(terms: seq<Term>) {
    terms == [] || (TermFits(terms[0]) && TermsFit(terms[1..]))
  }

  predicate TermFits(x: Term) {
    match x
    case Op(_) => true
    case And(l, r) => TermsFit(l) && TermsFit(r)
    case Or(l, r) => TermsFit(l) && Straight(r)
  }

  ghost predicate InLimits(fn: Mir.Function, k: seq<Kinds>) {
    |k| == |fn.insts| + 1 && forall pc :: 0 <= pc < |fn.insts| ==> Within(fn, fn.insts[pc], k[pc])
  }

  ghost predicate Ready(fn: Mir.Function, k: seq<Kinds>) {
    WellFormed(fn, k) && InLimits(fn, k)
  }

  lemma ReadyAt(fn: Mir.Function, k: seq<Kinds>, pc: nat)
    requires Ready(fn, k) && pc < |fn.insts|
    ensures |k| == |fn.insts| + 1 && InstOk(fn, k, pc) && Within(fn, fn.insts[pc], k[pc])
  {
    StackMap.InstAt(fn, k, pc);
  }

  // ---- jumps in expressions -------------------------------------------------------------------

  /** Jumps go forward: unconditional ones behind the false result of an operator, conditional ones behind
      an unconditional one that goes on. */
  predicate TermJump(fn: Mir.Function, end: nat, pc: nat)
    requires pc < |fn.insts|
  {
    match fn.insts[pc]
    case Jump(x) => pc < x <= end && InstIs(fn, x - 1, Mir.PushBool(false))
    case JumpIfFalse(x) =>
      pc < x < end && x - 1 < |fn.insts| && fn.insts[x - 1].Jump? && fn.insts[x - 1].dest > x
    case _ => true
  }

  predicate TermJumps(fn: Mir.Function, a: nat, b: nat, end: nat) {
    forall pc :: a <= pc < b && pc < |fn.insts| ==> TermJump(fn, end, pc)
  }

  lemma JumpsJoin(fn: Mir.Function, a: nat, b: nat, c: nat, end1: nat, end2: nat, end: nat)
    requires TermJumps(fn, a, b, end1) && TermJumps(fn, b, c, end2) && end1 <= end && end2 <= end
    ensures TermJumps(fn, a, c, end)
  {
    forall pc | a <= pc < c && pc < |fn.insts|
      ensures TermJump(fn, end, pc)
    {
      assert TermJump(fn, if pc < b then end1 else end2, pc);
    }
  }

  lemma {:induction false} TermsJumps(fn: Mir.Function, terms: seq<Term>, at: nat)
    requires TermsStand(fn, terms, at)
    ensures at + Len(terms) <= |fn.insts| && TermJumps(fn, at, at + Len(terms), at + Len(terms))
    decreases terms, 1
  {
    hide TermJumps;
    if terms == [] {
      assert TermJumps(fn, at, at, at) by { NoneThere(fn, at, at); }
    } else {
      var mid := at + TermLen(terms[0]);
      TermHasJumps(fn, terms[0], at);
      TermsJumps(fn, terms[1..], mid);
      JumpsJoin(fn, at, mid, at + Len(terms), mid, at + Len(terms), at + Len(terms));
    }
  }

  lemma NoneThere(fn: Mir.Function, a: nat, end: nat)
    ensures TermJumps(fn, a, a, end)
  {
  }

  lemma {:induction false} TermHasJumps(fn: Mir.Function, x: Term, at: nat)
    requires TermStands(fn, x, at)
    ensures at + TermLen(x) <= |fn.insts| && TermJumps(fn, at, at + TermLen(x), at + TermLen(x))
    decreases x, 0
  {
    hide TermJumps, TermsStand, Len;
    var end := at + TermLen(x);
    match x
    case Op(inst) => StraightJump(fn, at, inst);
    case And(l, r) =>
      var b, f := at + Len(l), end - 1;
      TermsJumps(fn, l, at); TermsJumps(fn, r, b + 1);
      BranchJump(fn, b, f, end);
      EndJumps(fn, f);
      JumpsJoin(fn, at, b, b + 1, b, end, end);
      JumpsJoin(fn, at, b + 1, f - 3, end, f - 3, end);
      JumpsJoin(fn, at, f - 3, end, end, end, end);
    case Or(l, r) =>
      var b, f := at + Len(l), end - 1;
      TermsJumps(fn, l, at); TermsJumps(fn, r, b + 3);
      TruthJumps(fn, b, f);
      EndJumps(fn, f);
      JumpsJoin(fn, at, b, b + 3, b, end, end);
      JumpsJoin(fn, at, b + 3, f - 3, end, f - 3, end);
      JumpsJoin(fn, at, f - 3, end, end, end, end);
  }

  lemma StraightJump(fn: Mir.Function, at: nat, inst: Mir.Inst)
    requires InstIs(fn, at, inst) && !inst.Jump? && !inst.JumpIfFalse?
    ensures TermJumps(fn, at, at + 1, at + 1)
  {
  }

  lemma BranchJump(fn: Mir.Function, b: nat, f: nat, end: nat)
    requires InstIs(fn, b, Mir.JumpIfFalse(f)) && b < f < end && DiamondEnds(fn, f)
    ensures TermJumps(fn, b, b + 1, end)
  {
  }

  lemma TruthJumps(fn: Mir.Function, b: nat, f: nat)
    requires InstIs(fn, b, Mir.JumpIfFalse(b + 3)) && InstIs(fn, b + 1, Mir.PushBool(true))
    requires InstIs(fn, b + 2, Mir.Jump(f + 1)) && b + 3 < f && DiamondEnds(fn, f)
    ensures TermJumps(fn, b, b + 3, f + 1)
  {
  }

  lemma EndJumps(fn: Mir.Function, f: nat)
    requires DiamondEnds(fn, f)
    ensures TermJumps(fn, f - 3, f + 1, f + 1)
  {
  }

  lemma {:induction false} StraightHasNone(fn: Mir.Function, terms: seq<Term>, at: nat)
    requires TermsStand(fn, terms, at) && Straight(terms)
    ensures at + Len(terms) <= |fn.insts|
    ensures forall pc :: at <= pc < at + Len(terms) ==> !fn.insts[pc].Jump? && !fn.insts[pc].JumpIfFalse?
    decreases terms
  {
    if terms != [] {
      StraightHasNone(fn, terms[1..], at + 1);
    }
  }

  /** Where there is an operator, there is a conditional jump. */
  lemma {:induction false} OperatorBranches(fn: Mir.Function, terms: seq<Term>, at: nat) returns (pc: nat)
    requires TermsStand(fn, terms, at) && !Straight(terms)
    ensures at <= pc < at + Len(terms) <= |fn.insts| && fn.insts[pc].JumpIfFalse?
    decreases terms
  {
    TermsJumps(fn, terms, at);
    match terms[0]
    case Op(_) => pc := OperatorBranches(fn, terms[1..], at + 1);
    case And(l, r) => pc := at + Len(l);
    case Or(l, r) => pc := at + Len(l);
  }

  // ---- emission of a range, step by step --------------------------------------------------------

  /** Both are accepted, with the same operands, or neither is. */
  predicate Like(a: Emitted, b: Emitted) {
    (a.Ok? <==> b.Ok?) && (a.Ok? ==> a.stack == b.stack)
  }

  lemma StepOn(fn: Mir.Function, t: Targets, s: nat, e: nat, ks: Kinds)
    requires s < e <= |fn.insts|
    ensures var c := EmitConstruct(fn, t, s, e, ks);
      && (c.Fail? ==> EmitRange(fn, t, s, e, ks).Err?)
      && (c.Next? ==> Like(EmitRange(fn, t, s, e, ks), EmitRange(fn, t, c.pc, e, c.stack)))
  {
    hide EmitConstruct;
  }

  lemma EmptyRange(fn: Mir.Function, t: Targets, s: nat, ks: Kinds)
    requires s <= |fn.insts|
    ensures EmitRange(fn, t, s, s, ks) == Ok([], ks)
  {
  }

  /** No jump at `pc` goes back into [lo, hi), unless to where `continue` goes. */
  predicate QuietAt(fn: Mir.Function, t: Targets, lo: nat, hi: nat, pc: nat)
    requires pc < |fn.insts|
  {
    fn.insts[pc].Jump? && lo <= fn.insts[pc].dest < hi ==> ContinuesAt(t, fn.insts[pc].dest)
  }

  predicate Quiet(fn: Mir.Function, t: Targets, lo: nat, hi: nat, a: nat, b: nat) {
    forall pc :: a <= pc < b && pc < |fn.insts| ==> QuietAt(fn, t, lo, hi, pc)
  }

  lemma QuietJoin(fn: Mir.Function, t: Targets, lo: nat, hi: nat, a: nat, b: nat, c: nat)
    requires Quiet(fn, t, lo, hi, a, b) && Quiet(fn, t, lo, hi, b, c)
    ensures Quiet(fn, t, lo, hi, a, c)
  {
  }

  lemma QuietPart(fn: Mir.Function, t: Targets, lo: nat, hi: nat, lo2: nat, hi2: nat, a: nat, b: nat)
    requires Quiet(fn, t, lo, hi, a, b) && lo <= lo2 && hi2 <= hi
    ensures Quiet(fn, t, lo2, hi2, a, b)
  {
    hide ContinuesAt;
    forall pc | a <= pc < b && pc < |fn.insts|
      ensures QuietAt(fn, t, lo2, hi2, pc)
    {
      assert QuietAt(fn, t, lo, hi, pc);
    }
  }

  lemma QuietTerms(fn: Mir.Function, t: Targets, lo: nat, hi: nat, a: nat, b: nat, end: nat)
    requires TermJumps(fn, a, b, end) && hi <= a
    ensures Quiet(fn, t, lo, hi, a, b)
  {
    forall pc | a <= pc < b && pc < |fn.insts|
      ensures QuietAt(fn, t, lo, hi, pc)
    {
      assert TermJump(fn, end, pc);
    }
  }

  lemma NotALoop(fn: Mir.Function, t: Targets, s: nat, e: nat)
    requires s < e <= |fn.insts| && Quiet(fn, t, s, s + 1, s, e)
    ensures KindAt(fn, t, s, e) == if fn.insts[s].JumpIfFalse? then ABranch else ALeaf
  {
    hide KindAt;
    KindExactly(fn, t, s, e);
    if !ContinuesAt(t, s) {
      forall pc | s <= pc < e
        ensures fn.insts[pc] != Mir.Jump(s)
      {
        assert QuietAt(fn, t, s, s + 1, pc);
      }
      assert forall pc :: s <= pc < e ==> !LeavesLoop(fn, s, e, pc);
    }
    PlainKind(fn, t, s, e);
  }

  lemma PlainKind(fn: Mir.Function, t: Targets, s: nat, e: nat)
    requires s < e <= |fn.insts| && !KindAt(fn, t, s, e).AWhile? && !KindAt(fn, t, s, e).AForever?
    ensures KindAt(fn, t, s, e) == if fn.insts[s].JumpIfFalse? then ABranch else ALeaf
  {
  }

  // ---- operators ------------------------------------------------------------------------------

  lemma {:induction false} FirstBranch(fn: Mir.Function, pc: nat, end: nat, target: Option<nat>, b: nat)
    requires pc <= b < end <= |fn.insts| && fn.insts[b].JumpIfFalse?
    requires target.Some? ==> fn.insts[b].dest == target.value
    requires forall j :: pc <= j < b && fn.insts[j].JumpIfFalse? ==> target.Some? && fn.insts[j].dest != target.value
    ensures FindBranch(fn, pc, end, target) == Some(b)
    decreases b - pc
  {
    if pc < b {
      FirstBranch(fn, pc + 1, end, target, b);
    }
  }

  lemma {:induction false} FoundBranch(fn: Mir.Function, pc: nat, end: nat, b: nat)
    requires pc <= b < end <= |fn.insts| && fn.insts[b].JumpIfFalse?
    ensures FindBranch(fn, pc, end, None).Some? && FindBranch(fn, pc, end, None).value <= b
    decreases b - pc
  {
    if pc < b && !fn.insts[pc].JumpIfFalse? {
      FoundBranch(fn, pc + 1, end, b);
    }
  }

  /** The kinds at the four last instructions of an operator. */
  lemma DiamondKinds(fn: Mir.Function, k: seq<Kinds>, f: nat)
    requires Ready(fn, k) && DiamondEnds(fn, f)
    ensures |k| == |fn.insts| + 1
    ensures |k[f - 3]| > 0 && k[f - 3][|k[f - 3]| - 1] == Mir.KI32 && k[f - 3][..|k[f - 3]| - 1] == k[f - 2] == k[f]
    ensures |k[f]| < 256 && k[f + 1] == k[f] + [Mir.KI32]
  {
    hide Low, DiamondsClosed;
    ReadyAt(fn, k, f - 3); ReadyAt(fn, k, f);
  }

  lemma LastAnd(fn: Mir.Function, t: Targets, f: nat, ks: Kinds)
    requires DiamondEnds(fn, f) && |ks| < 256
    ensures EmitAnd(fn, t, f - 2, f, ks).Ok? && EmitAnd(fn, t, f - 2, f, ks).stack == ks + [Mir.KI32]
  {
    assert (ks + [Mir.KI32])[..|ks|] == ks;
  }

  /** The rest of an `&&` is emitted if its right operand is. */
  lemma AndEmitted(fn: Mir.Function, k: seq<Kinds>, t: Targets, start: nat, f: nat)
    requires Ready(fn, k) && DiamondEnds(fn, f) && start <= f - 3 && k[start] == k[f]
    requires TermJumps(fn, start, f - 3, f - 3)
    requires var r := EmitRange(fn, t, start, f - 3, k[start]); r.Ok? ==> r.stack == k[f - 3]
    ensures Like(EmitAnd(fn, t, start, f, k[start]),
                 if EmitRange(fn, t, start, f - 3, k[start]).Ok? then Ok([], k[f + 1]) else Err(BooleanShape))
  {
    hide EmitRange, Ready, EmitAnd;
    DiamondKinds(fn, k, f);
    forall j | start <= j < f - 3
      ensures fn.insts[j] != Mir.JumpIfFalse(f)
    {
      assert TermJump(fn, f - 3, j);
    }
    FirstBranch(fn, start, f, Some(f), f - 3);
    LastAnd(fn, t, f, k[f - 2]);
    AndUnfolds(fn, t, start, f, k[start]);
    assert (k[f] + [Mir.KI32])[..|k[f]|] == k[f];
  }

  lemma AndUnfolds(fn: Mir.Function, t: Targets, start: nat, f: nat, ks: Kinds)
    requires 3 <= f <= |fn.insts| && start <= f - 3 && FindBranch(fn, start, f, Some(f)) == Some(f - 3)
    requires fn.insts[f - 3] == Mir.JumpIfFalse(f)
    ensures var c := EmitRange(fn, t, start, f - 3, ks);
      && (c.Err? ==> EmitAnd(fn, t, start, f, ks).Err?)
      && (c.Ok? && |c.stack| > 0 && c.stack[|c.stack| - 1] == Mir.KI32 ==>
            var rest := EmitAnd(fn, t, f - 2, f, c.stack[..|c.stack| - 1]);
            var thn := if rest.Ok? then Ok(c.code + rest.code, rest.stack) else rest;
            EmitAnd(fn, t, start, f, ks) == BoolIf(thn, BoolConst(ElseStack(thn, |ks|), false), |ks|))
  {
    hide EmitRange, BoolConst, ElseStack;
    assert FindAndOperand(fn, start, f) == Some(f - 3);
  }

  lemma LastOr(fn: Mir.Function, t: Targets, f: nat, ks: Kinds)
    requires DiamondEnds(fn, f) && |ks| < 256
    ensures EmitOr(fn, t, f, f + 1, ks).Ok? && EmitOr(fn, t, f, f + 1, ks).stack == ks + [Mir.KI32]
  {
    assert (ks + [Mir.KI32])[..|ks|] == ks;
  }

  /** The rest of an `||` is emitted if its right operand is and holds no operator. */
  lemma OrEmitted(fn: Mir.Function, k: seq<Kinds>, t: Targets, start: nat, f: nat)
    requires Ready(fn, k) && DiamondEnds(fn, f) && start <= f - 3 && k[start] == k[f]
    requires forall pc :: start <= pc < f - 3 ==> !fn.insts[pc].JumpIfFalse?
    requires var r := EmitRange(fn, t, start, f - 3, k[start]); r.Ok? && r.stack == k[f - 3]
    ensures Like(EmitOr(fn, t, start, f + 1, k[start]), Ok([], k[f + 1]))
  {
    hide EmitRange, Ready, EmitOr;
    DiamondKinds(fn, k, f);
    FirstBranch(fn, start, f + 1, None, f - 3);
    LastOr(fn, t, f, k[f - 2]);
    OrUnfolds(fn, t, start, f, k[start]);
  }

  lemma OrUnfolds(fn: Mir.Function, t: Targets, start: nat, f: nat, ks: Kinds)
    requires DiamondEnds(fn, f) && start <= f - 3 && FindBranch(fn, start, f + 1, None) == Some(f - 3)
    requires |ks| < 256
    requires var c := EmitRange(fn, t, start, f - 3, ks); c.Ok? && |c.stack| > 0 && c.stack[|c.stack| - 1] == Mir.KI32
    ensures var c := EmitRange(fn, t, start, f - 3, ks);
            var rest := EmitOr(fn, t, f, f + 1, c.stack[..|c.stack| - 1]);
            rest.Ok? && ArmOk(rest.stack, |ks|) ==>
              EmitOr(fn, t, start, f + 1, ks).Ok? && EmitOr(fn, t, start, f + 1, ks).stack == rest.stack
  {
    hide EmitRange;
    assert (ks + [Mir.KI32])[..|ks|] == ks;
    assert FindOrOperand(fn, start, f + 1) == Some(f - 3);
  }

  /** And it is refused if the first conditional jump in it is not that of its own last operand. */
  lemma OrRefused(fn: Mir.Function, t: Targets, start: nat, f: nat, ks: Kinds, b: nat)
    requires DiamondEnds(fn, f) && start <= b < f - 3 && fn.insts[b].JumpIfFalse? && TermJumps(fn, start, f - 3, f - 3)
    ensures EmitOr(fn, t, start, f + 1, ks).Err?
  {
    hide EmitRange, TermJumps;
    FoundBranch(fn, start, f + 1, b);
    var p := FindBranch(fn, start, f + 1, None).value;
    InnerJump(fn, start, f - 3, p);
    if fn.insts[p].dest == p + 3 {
      InnerJump(fn, start, f - 3, p + 2);
    }
    assert FindOrOperand(fn, start, f + 1).None?;
  }

  lemma InnerJump(fn: Mir.Function, a: nat, b: nat, pc: nat)
    requires TermJumps(fn, a, b, b) && a <= pc < b && pc < |fn.insts|
    ensures TermJump(fn, b, pc)
  {
  }

  // ---- expressions ----------------------------------------------------------------------------

  lemma LeafKinds(fn: Mir.Function, k: seq<Kinds>, t: Targets, s: nat)
    requires Ready(fn, k) && s < |fn.insts| && !fn.insts[s].Jump? && !fn.insts[s].JumpIfFalse?
    ensures EmitLeaf(fn, t, fn.insts[s], k[s]).Ok? && EmitLeaf(fn, t, fn.insts[s], k[s]).stack == k[s + 1]
  {
    hide KindsAfter, Within, EmitFall, Leave;
    ReadyAt(fn, k, s);
    if !Mir.IsControl(fn.insts[s]) {
      FallEmitted(fn, fn.insts[s], k[s]);
    }
  }

  lemma OpEmitted(fn: Mir.Function, k: seq<Kinds>, t: Targets, s: nat, e: nat)
    requires Ready(fn, k) && s < e <= |fn.insts| && !fn.insts[s].Jump? && !fn.insts[s].JumpIfFalse?
    requires Quiet(fn, t, s, s + 1, s, e)
    ensures |k| == |fn.insts| + 1 && Like(EmitRange(fn, t, s, e, k[s]), EmitRange(fn, t, s + 1, e, k[s + 1]))
  {
    hide EmitRange, Ready, EmitLeaf, KindAt, Quiet;
    ReadyAt(fn, k, s);
    NotALoop(fn, t, s, e);
    LeafKinds(fn, k, t, s);
    StepOn(fn, t, s, e, k[s]);
  }

  lemma {:induction false} TermsEmitted(fn: Mir.Function, k: seq<Kinds>, t: Targets, terms: seq<Term>, at: nat, e: nat)
    requires Ready(fn, k) && TermsStand(fn, terms, at) && at + Len(terms) <= e <= |fn.insts|
    requires Quiet(fn, t, at, at + Len(terms), at + Len(terms), e)
    ensures |k| == |fn.insts| + 1
    ensures TermsFit(terms) ==>
      Like(EmitRange(fn, t, at, e, k[at]), EmitRange(fn, t, at + Len(terms), e, k[at + Len(terms)]))
    ensures !TermsFit(terms) ==> EmitRange(fn, t, at, e, k[at]).Err?
    decreases terms, 3
  {
    hide EmitRange, Ready, Quiet, TermJumps, TermStands, TermFits;
    assert |k| == |fn.insts| + 1 by { Lengths(fn, k); }
    if terms != [] {
      var mid, end := at + TermLen(terms[0]), at + Len(terms);
      TermsJumps(fn, terms[1..], mid);
      QuietTerms(fn, t, at, mid, mid, end, end);
      QuietPart(fn, t, at, end, at, mid, end, e);
      QuietJoin(fn, t, at, mid, mid, end, e);
      QuietPart(fn, t, at, end, mid, end, end, e);
      TermEmitted(fn, k, t, terms[0], at, e);
      TermsEmitted(fn, k, t, terms[1..], mid, e);
    }
  }

  lemma Lengths(fn: Mir.Function, k: seq<Kinds>)
    requires Ready(fn, k)
    ensures |k| == |fn.insts| + 1
  {
  }

  lemma {:induction false} TermEmitted(fn: Mir.Function, k: seq<Kinds>, t: Targets, x: Term, at: nat, e: nat)
    requires Ready(fn, k) && TermStands(fn, x, at) && at + TermLen(x) <= e <= |fn.insts|
    requires Quiet(fn, t, at, at + TermLen(x), at + TermLen(x), e)
    ensures |k| == |fn.insts| + 1
    ensures TermFits(x) ==>
      Like(EmitRange(fn, t, at, e, k[at]), EmitRange(fn, t, at + TermLen(x), e, k[at + TermLen(x)]))
    ensures !TermFits(x) ==> EmitRange(fn, t, at, e, k[at]).Err?
    decreases x, 2
  {
    hide EmitRange, Ready, Quiet, TermsFit, TermsStand, Len;
    assert |k| == |fn.insts| + 1 by { Lengths(fn, k); }
    match x
    case Op(inst) =>
      OpQuiet(fn, t, at, e);
      OpEmitted(fn, k, t, at, e);
    case And(l, r) =>
      var b := at + Len(l);
      LeftEmitted(fn, k, t, x, at, e);
      if TermsFit(l) {
        RightOfAnd(fn, k, t, x, at, e);
      }
    case Or(l, r) =>
      LeftEmitted(fn, k, t, x, at, e);
      if TermsFit(l) {
        RightOfOr(fn, k, t, x, at, e);
      }
  }

  lemma OpQuiet(fn: Mir.Function, t: Targets, s: nat, e: nat)
    requires s < |fn.insts| && !fn.insts[s].Jump? && Quiet(fn, t, s, s + 1, s + 1, e)
    ensures Quiet(fn, t, s, s + 1, s, e)
  {
  }

  function LeftOf(x: Term): seq<Term>
    requires !x.Op?
  {
    match x case And(l, _) => l case Or(l, _) => l
  }

  lemma {:induction false} LeftEmitted(fn: Mir.Function, k: seq<Kinds>, t: Targets, x: Term, at: nat, e: nat)
    requires !x.Op? && Ready(fn, k) && TermStands(fn, x, at) && at + TermLen(x) <= e <= |fn.insts|
    requires Quiet(fn, t, at, at + TermLen(x), at + TermLen(x), e)
    ensures |k| == |fn.insts| + 1
    ensures var b := at + Len(LeftOf(x));
      && (TermsFit(LeftOf(x)) ==> Like(EmitRange(fn, t, at, e, k[at]), EmitRange(fn, t, b, e, k[b])))
      && (!TermsFit(LeftOf(x)) ==> EmitRange(fn, t, at, e, k[at]).Err?)
      && fn.insts[b].JumpIfFalse? && KindAt(fn, t, b, e) == ABranch
    decreases x, 0
  {
    hide EmitRange, Ready, Quiet, TermsFit, TermJumps, KindAt;
    var b, end := at + Len(LeftOf(x)), at + TermLen(x);
    TermHasJumps(fn, x, at);
    TermJumpsPart(fn, at, end, b, end, end);
    QuietTerms(fn, t, at, b, b, end, end);
    QuietPart(fn, t, at, end, at, b, end, e);
    QuietJoin(fn, t, at, b, b, end, e);
    TermsEmitted(fn, k, t, LeftOf(x), at, e);
    TermJumpsPart(fn, at, end, b + 1, end, end);
    QuietTerms(fn, t, b, b + 1, b + 1, end, end);
    QuietPart(fn, t, at, end, b, b + 1, end, e);
    QuietJoin(fn, t, b, b + 1, b + 1, end, e);
    OpQuiet(fn, t, b, e);
    NotALoop(fn, t, b, e);
  }

  lemma TermJumpsPart(fn: Mir.Function, a: nat, b: nat, a2: nat, b2: nat, end: nat)
    requires TermJumps(fn, a, b, end) && a <= a2 && b2 <= b
    ensures TermJumps(fn, a2, b2, end)
  {
  }

  lemma NothingBehind(fn: Mir.Function, t: Targets, lo: nat, hi: nat, a: nat)
    ensures Quiet(fn, t, lo, hi, a, a)
  {
  }

  lemma {:induction false} RightOfAnd(fn: Mir.Function, k: seq<Kinds>, t: Targets, x: Term, at: nat, e: nat)
    requires x.And? && Ready(fn, k) && TermStands(fn, x, at) && at + TermLen(x) <= e <= |fn.insts|
    requires KindAt(fn, t, at + Len(x.left), e) == ABranch
    ensures |k| == |fn.insts| + 1
    ensures var b, end := at + Len(x.left), at + TermLen(x);
      && (TermsFit(x.right) ==> Like(EmitRange(fn, t, b, e, k[b]), EmitRange(fn, t, end, e, k[end])))
      && (!TermsFit(x.right) ==> EmitRange(fn, t, b, e, k[b]).Err?)
    decreases x, 0
  {
    hide EmitRange, Ready, Quiet, TermsFit, TermJumps, KindAt, EmitAnd, Len, TermsStand;
    var b, f := at + Len(x.left), at + TermLen(x) - 1;
    Lengths(fn, k);
    TermsJumps(fn, x.right, b + 1);
    NothingBehind(fn, t, b + 1, f - 3, f - 3);
    TermsEmitted(fn, k, t, x.right, b + 1, f - 3);
    EmptyRange(fn, t, f - 3, k[f - 3]);
    BranchKinds(fn, k, b, f);
    AndEmitted(fn, k, t, b + 1, f);
    AndBranch(fn, t, b, f, e, k[b]);
    StepOn(fn, t, b, e, k[b]);
  }

  lemma BranchKinds(fn: Mir.Function, k: seq<Kinds>, b: nat, x: nat)
    requires Ready(fn, k) && InstIs(fn, b, Mir.JumpIfFalse(x))
    ensures |k| == |fn.insts| + 1 && x < |k| && |k[b]| > 0 && k[b][|k[b]| - 1] == Mir.KI32
    ensures k[b][..|k[b]| - 1] == k[b + 1] == k[x]
  {
    hide Low, DiamondsClosed;
    ReadyAt(fn, k, b);
  }

  lemma AndBranch(fn: Mir.Function, t: Targets, b: nat, f: nat, e: nat, ks: Kinds)
    requires b < f < e <= |fn.insts| && KindAt(fn, t, b, e) == ABranch
    requires InstIs(fn, b, Mir.JumpIfFalse(f)) && DiamondEnds(fn, f) && b + 4 <= f
    requires |ks| > 0 && ks[|ks| - 1] == Mir.KI32
    ensures EmitConstruct(fn, t, b, e, ks) == At(EmitAnd(fn, t, b + 1, f, ks[..|ks| - 1]), f + 1)
  {
    hide EmitAnd, EmitOr, EmitRange, KindAt;
  }

  lemma OrBranch(fn: Mir.Function, t: Targets, b: nat, f: nat, e: nat, ks: Kinds)
    requires b + 6 <= f < e <= |fn.insts| && KindAt(fn, t, b, e) == ABranch
    requires InstIs(fn, b, Mir.JumpIfFalse(b + 3)) && InstIs(fn, b + 1, Mir.PushBool(true))
    requires InstIs(fn, b + 2, Mir.Jump(f + 1))
    requires |ks| > 0 && ks[|ks| - 1] == Mir.KI32
    ensures EmitConstruct(fn, t, b, e, ks) == At(EmitOr(fn, t, b + 3, f + 1, ks[..|ks| - 1]), f + 1)
  {
    hide EmitAnd, EmitOr, EmitRange, KindAt;
  }

  lemma {:induction false} RightOfOr(fn: Mir.Function, k: seq<Kinds>, t: Targets, x: Term, at: nat, e: nat)
    requires x.Or? && Ready(fn, k) && TermStands(fn, x, at) && at + TermLen(x) <= e <= |fn.insts|
    requires KindAt(fn, t, at + Len(x.left), e) == ABranch
    ensures |k| == |fn.insts| + 1
    ensures var b, end := at + Len(x.left), at + TermLen(x);
      && (Straight(x.right) ==> Like(EmitRange(fn, t, b, e, k[b]), EmitRange(fn, t, end, e, k[end])))
      && (!Straight(x.right) ==> EmitRange(fn, t, b, e, k[b]).Err?)
    decreases x, 1
  {
    hide EmitRange, Ready, TermJumps, KindAt, EmitOr, Len, TermsStand, Straight;
    var b, f := at + Len(x.left), at + TermLen(x) - 1;
    Lengths(fn, k);
    BranchKinds(fn, k, b, b + 3);
    BranchKinds(fn, k, f - 3, f);
    RightStart(fn, k, b, f);
    OrBranch(fn, t, b, f, e, k[b]);
    StepOn(fn, t, b, e, k[b]);
    if Straight(x.right) {
      StraightRight(fn, k, t, x, at);
      OrEmitted(fn, k, t, b + 3, f);
    } else {
      TermsJumps(fn, x.right, b + 3);
      var j := OperatorBranches(fn, x.right, b + 3);
      OrRefused(fn, t, b + 3, f, k[b + 3], j);
    }
  }

  lemma {:induction false} StraightRight(fn: Mir.Function, k: seq<Kinds>, t: Targets, x: Term, at: nat)
    requires x.Or? && Ready(fn, k) && TermStands(fn, x, at) && Straight(x.right)
    ensures var b, f := at + Len(x.left), at + TermLen(x) - 1;
      && f < |fn.insts| && |k| == |fn.insts| + 1
      && EmitRange(fn, t, b + 3, f - 3, k[b + 3]).Ok? && EmitRange(fn, t, b + 3, f - 3, k[b + 3]).stack == k[f - 3]
      && forall pc :: b + 3 <= pc < f - 3 ==> !fn.insts[pc].JumpIfFalse?
    decreases x, 0
  {
    hide EmitRange, Ready, Quiet, Len, TermsStand, Straight, TermsFit;
    var b, f := at + Len(x.left), at + TermLen(x) - 1;
    Lengths(fn, k);
    StraightHasNone(fn, x.right, b + 3);
    StraightFits(x.right);
    NothingBehind(fn, t, b + 3, f - 3, f - 3);
    TermsEmitted(fn, k, t, x.right, b + 3, f - 3);
    EmptyRange(fn, t, f - 3, k[f - 3]);
  }

  /** The right operand of `||` starts from the operands that are there at its end. */
  lemma RightStart(fn: Mir.Function, k: seq<Kinds>, b: nat, f: nat)
    requires Ready(fn, k) && DiamondEnds(fn, f) && b + 3 <= f - 3
    requires InstIs(fn, b, Mir.JumpIfFalse(b + 3)) && InstIs(fn, b + 1, Mir.PushBool(true))
    requires InstIs(fn, b + 2, Mir.Jump(f + 1))
    ensures |k| == |fn.insts| + 1 && k[b + 3] == k[f]
  {
    hide Low, DiamondsClosed;
    ReadyAt(fn, k, b); ReadyAt(fn, k, b + 1); ReadyAt(fn, k, b + 2);
    DiamondKinds(fn, k, f);
    assert k[b + 2] == k[b + 1] + [Mir.KI32] && k[f + 1] == k[f] + [Mir.KI32] && k[f + 1] == k[b + 2];
    assert k[b + 1] == k[b + 2][..|k[b + 2]| - 1] && k[f] == k[f + 1][..|k[f + 1]| - 1];
  }

  lemma {:induction false} StraightFits(terms: seq<Term>)
    requires Straight(terms)
    ensures TermsFit(terms)
  {
    if terms != [] {
      StraightFits(terms[1..]);
    }
  }
}
