/**
 * Structured code whose expressions are typed has a stack map once it is lowered, so that what is proved of
 * well-formed functions holds of it.
 */
module Typing {
  import opened Words
  import opened StackMap
  import opened Structured
  import opened Expressions
  import opened Statements
  import Mir

  // ---- typing -----------------------------------------------------------------------------------

  /** The operands after an instruction that takes none of the lowest `low`. */
  function OpKinds(fn: Mir.Function, inst: Mir.Inst, ks: Kinds, low: nat): Option<Kinds> {
    if inst.Jump? || inst.JumpIfFalse? || |ks| < low + Pops(inst, |ks|) then None
    else match inst
      case Return =>
        if |ks| == 1 && fn.result.Some? && Mir.Coercible(ks[0], fn.result.value) then Some([]) else None
      case ReturnVoid => Some(ks)
      case _ => KindsAfter(fn, inst, ks)
  }

  /** What is left when a condition is taken off. */
  function Tested(a: Option<Kinds>, low: nat): Option<Kinds> {
    if a.Some? && |a.value| > low && a.value[|a.value| - 1] == Mir.KI32 then Some(a.value[..|a.value| - 1]) else None
  }

  function TermsKinds(fn: Mir.Function, terms: seq<Term>, ks: Kinds, low: nat): Option<Kinds>
    decreases terms, 1
  {
    if terms == [] then Some(ks)
    else if TermKinds(fn, terms[0], ks, low).None? then None
    else TermsKinds(fn, terms[1..], TermKinds(fn, terms[0], ks, low).value, low)
  }

  function TermKinds(fn: Mir.Function, x: Term, ks: Kinds, low: nat): Option<Kinds>
    decreases x, 0
  {
    match x
    case Op(inst) => OpKinds(fn, inst, ks, low)
    case And(l, r) =>
      var base := Tested(TermsKinds(fn, l, ks, low), low);
      if base.None? || TermsKinds(fn, r, base.value, |base.value|) != Some(base.value + [Mir.KI32]) then None
      else Some(base.value + [Mir.KI32])
    case Or(l, r) =>
      var base := Tested(TermsKinds(fn, l, ks, low), low);
      if base.None? || TermsKinds(fn, r, base.value, |base.value|) != Some(base.value + [Mir.KI32]) then None
      else Some(base.value + [Mir.KI32])
  }

  predicate TypedAs(fn: Mir.Function, terms: seq<Term>, ks: Kinds) {
    TermsKinds(fn, terms, [], 0) == Some(ks)
  }

  /** Expressions start with no operands; a condition leaves one truth value, a statement none. */
  predicate Typed(fn: Mir.Function, code: seq<Stmt>) {
    code == [] || (TypedStmt(fn, code[0]) && Typed(fn, code[1..]))
  }

  predicate TypedStmt(fn: Mir.Function, s: Stmt) {
    match s
    case Eval(terms) => TypedAs(fn, terms, [])
    case IfThen(c, thn) => TypedAs(fn, c, [Mir.KI32]) && Typed(fn, thn)
    case IfElse(c, thn, els) => TypedAs(fn, c, [Mir.KI32]) && Typed(fn, thn) && Typed(fn, els)
    case While(c, body, post) => TypedAs(fn, c, [Mir.KI32]) && Typed(fn, body) && TypedAs(fn, post, [])
    case Forever(body) => Typed(fn, body)
    case _ => true
  }

  /** The lowering ends a function with a return. */
  predicate EndsInEval(code: seq<Stmt>) {
    code != [] && if |code| == 1 then code[0].Eval? && Len(code[0].terms) > 0 else EndsInEval(code[1..])
  }

  // ---- the stack map ------------------------------------------------------------------------------

  function MapTerms(fn: Mir.Function, terms: seq<Term>, ks: Kinds, low: nat): (r: seq<Kinds>)
    requires TermsKinds(fn, terms, ks, low).Some?
    ensures |r| == Len(terms)
    decreases terms, 1
  {
    if terms == [] then []
    else MapTerm(fn, terms[0], ks, low) + MapTerms(fn, terms[1..], TermKinds(fn, terms[0], ks, low).value, low)
  }

  function MapTerm(fn: Mir.Function, x: Term, ks: Kinds, low: nat): (r: seq<Kinds>)
    requires TermKinds(fn, x, ks, low).Some?
    ensures |r| == TermLen(x)
    decreases x, 0
  {
    match x
    case Op(_) => [ks]
    case And(l, r) =>
      var base := Tested(TermsKinds(fn, l, ks, low), low).value;
      MapTerms(fn, l, ks, low) + [base + [Mir.KI32]] + MapTerms(fn, r, base, |base|) + MapEnd(base)
    case Or(l, r) =>
      var base := Tested(TermsKinds(fn, l, ks, low), low).value;
      MapTerms(fn, l, ks, low) + [base + [Mir.KI32], base, base + [Mir.KI32]] + MapTerms(fn, r, base, |base|)
        + MapEnd(base)
  }

  function MapEnd(base: Kinds): (r: seq<Kinds>)
    ensures |r| == 4
  {
    [base + [Mir.KI32], base, base + [Mir.KI32], base]
  }

  function MapCode(fn: Mir.Function, code: seq<Stmt>): (r: seq<Kinds>)
    requires Typed(fn, code)
    ensures |r| == Size(code)
  {
    if code == [] then [] else MapStmt(fn, code[0]) + MapCode(fn, code[1..])
  }

  function MapStmt(fn: Mir.Function, s: Stmt): (r: seq<Kinds>)
    requires TypedStmt(fn, s)
    ensures |r| == StmtSize(s)
  {
    match s
    case Eval(terms) => MapTerms(fn, terms, [], 0)
    case IfThen(c, thn) => MapTerms(fn, c, [], 0) + [[Mir.KI32]] + MapCode(fn, thn)
    case IfElse(c, thn, els) =>
      MapTerms(fn, c, [], 0) + [[Mir.KI32]] + MapCode(fn, thn) + [[]] + MapCode(fn, els)
    case While(c, body, post) =>
      MapTerms(fn, c, [], 0) + [[Mir.KI32]] + MapCode(fn, body) + MapTerms(fn, post, [], 0) + [[]]
    case Forever(body) => MapCode(fn, body) + [[]]
    case _ => [[]]
  }

  function StackMapOf(fn: Mir.Function, code: seq<Stmt>): (k: seq<Kinds>)
    requires Typed(fn, code)
    ensures |k| == Size(code) + 1
  {
    MapCode(fn, code) + [[]]
  }

  // ---- where the stack map stands -------------------------------------------------------------------

  predicate KindsStand(fn: Mir.Function, k: seq<Kinds>, terms: seq<Term>, at: nat, ks: Kinds, low: nat) {
    && at < |k| && k[at] == ks
    && (terms != [] ==>
          && TermKindsStand(fn, k, terms[0], at, ks, low)
          && KindsStand(fn, k, terms[1..], at + TermLen(terms[0]), TermKinds(fn, terms[0], ks, low).value, low))
  }

  predicate TermKindsStand(fn: Mir.Function, k: seq<Kinds>, x: Term, at: nat, ks: Kinds, low: nat) {
    && TermKinds(fn, x, ks, low).Some?
    && match x
       case Op(_) => true
       case And(l, r) =>
         var base := Tested(TermsKinds(fn, l, ks, low), low).value;
         && KindsStand(fn, k, l, at, ks, low) && KindsStand(fn, k, r, at + Len(l) + 1, base, |base|)
         && EndStands(k, at + TermLen(x) - 1, base)
       case Or(l, r) =>
         var base := Tested(TermsKinds(fn, l, ks, low), low).value;
         var b := at + Len(l);
         && KindsStand(fn, k, l, at, ks, low) && KindsStand(fn, k, r, b + 3, base, |base|)
         && EndStands(k, at + TermLen(x) - 1, base) && k[b + 1] == base && k[b + 2] == base + [Mir.KI32]
  }

  predicate EndStands(k: seq<Kinds>, f: nat, base: Kinds) {
    && 3 <= f < |k| - 1 && k[f - 3] == base + [Mir.KI32] && k[f - 2] == base && k[f - 1] == base + [Mir.KI32]
    && k[f] == base && k[f + 1] == base + [Mir.KI32]
  }

  predicate CodeKindsStand(fn: Mir.Function, k: seq<Kinds>, code: seq<Stmt>, at: nat) {
    && NonePending(k, at)
    && (code != [] ==>
          StmtKindsStand(fn, k, code[0], at) && CodeKindsStand(fn, k, code[1..], at + StmtSize(code[0])))
  }

  predicate StmtKindsStand(fn: Mir.Function, k: seq<Kinds>, s: Stmt, at: nat) {
    && TypedStmt(fn, s)
    && match s
       case Eval(terms) => KindsStand(fn, k, terms, at, [], 0)
       case IfThen(c, thn) => KindsStand(fn, k, c, at, [], 0) && CodeKindsStand(fn, k, thn, at + Len(c) + 1)
       case IfElse(c, thn, els) =>
         && KindsStand(fn, k, c, at, [], 0) && CodeKindsStand(fn, k, thn, at + Len(c) + 1)
         && CodeKindsStand(fn, k, els, at + Len(c) + 1 + Size(thn) + 1)
       case While(c, body, post) =>
         && KindsStand(fn, k, c, at, [], 0) && CodeKindsStand(fn, k, body, at + Len(c) + 1)
         && KindsStand(fn, k, post, at + Len(c) + 1 + Size(body), [], 0) && NonePending(k, at + StmtSize(s) - 1)
       case Forever(body) => CodeKindsStand(fn, k, body, at) && NonePending(k, at + StmtSize(s) - 1)
       case _ => true
  }

  lemma OneHolds(k: seq<Kinds>, at: nat, ks: Kinds)
    requires Holds(k, at, [ks])
    ensures at < |k| && k[at] == ks
  {
    assert [ks][0] == ks;
  }

  lemma FourHold(k: seq<Kinds>, at: nat, d: seq<Kinds>)
    requires |d| == 4 && Holds(k, at, d)
    ensures at + 4 <= |k| && k[at] == d[0] && k[at + 1] == d[1] && k[at + 2] == d[2] && k[at + 3] == d[3]
  {
  }

  predicate Then(k: seq<Kinds>, at: nat, ks: Kinds) {
    at < |k| && k[at] == ks
  }

  lemma {:induction false} MapOfTerms(fn: Mir.Function, k: seq<Kinds>, terms: seq<Term>, at: nat, ks: Kinds, low: nat)
    requires TermsKinds(fn, terms, ks, low).Some? && Holds(k, at, MapTerms(fn, terms, ks, low))
    requires Then(k, at + Len(terms), TermsKinds(fn, terms, ks, low).value)
    ensures KindsStand(fn, k, terms, at, ks, low)
    decreases terms, 1
  {
    hide Holds, TermKindsStand, MapTerm, TermKinds;
    if terms != [] {
      var ks2 := TermKinds(fn, terms[0], ks, low).value;
      HoldsParts(k, at, MapTerm(fn, terms[0], ks, low), MapTerms(fn, terms[1..], ks2, low));
      MapOfTerms(fn, k, terms[1..], at + TermLen(terms[0]), ks2, low);
      MapOfTerm(fn, k, terms[0], at, ks, low);
    }
  }

  lemma {:induction false} MapOfTerm(fn: Mir.Function, k: seq<Kinds>, x: Term, at: nat, ks: Kinds, low: nat)
    requires TermKinds(fn, x, ks, low).Some? && Holds(k, at, MapTerm(fn, x, ks, low))
    requires Then(k, at + TermLen(x), TermKinds(fn, x, ks, low).value)
    ensures TermKindsStand(fn, k, x, at, ks, low) && at < |k| && k[at] == ks
    decreases x, 0
  {
    hide Holds, KindsStand, MapTerms, TermsKinds, Len;
    match x
    case Op(_) => OneHolds(k, at, ks);
    case And(l, r) =>
      var base := Tested(TermsKinds(fn, l, ks, low), low).value;
      var a, b, c := MapTerms(fn, l, ks, low), [base + [Mir.KI32]], MapTerms(fn, r, base, |base|);
      HoldsParts(k, at, a + b + c, MapEnd(base));
      ThreeHold(k, at, a, b, c);
      FourHold(k, at + TermLen(x) - 4, MapEnd(base));
      OneHolds(k, at + Len(l), base + [Mir.KI32]);
      MapOfTerms(fn, k, l, at, ks, low);
      MapOfTerms(fn, k, r, at + Len(l) + 1, base, |base|);
      StartOf(fn, k, l, at, ks, low);
    case Or(l, r) =>
      var base := Tested(TermsKinds(fn, l, ks, low), low).value;
      var a, c := MapTerms(fn, l, ks, low), MapTerms(fn, r, base, |base|);
      var b := [base + [Mir.KI32], base, base + [Mir.KI32]];
      HoldsParts(k, at, a + b + c, MapEnd(base));
      ThreeHold(k, at, a, b, c);
      FourHold(k, at + TermLen(x) - 4, MapEnd(base));
      TwoMore(k, at + Len(l), base);
      MapOfTerms(fn, k, l, at, ks, low);
      MapOfTerms(fn, k, r, at + Len(l) + 3, base, |base|);
      StartOf(fn, k, l, at, ks, low);
  }

  lemma TwoMore(k: seq<Kinds>, b: nat, base: Kinds)
    requires Holds(k, b, [base + [Mir.KI32], base, base + [Mir.KI32]])
    ensures b + 3 <= |k| && k[b] == base + [Mir.KI32] && k[b + 1] == base && k[b + 2] == base + [Mir.KI32]
  {
    var d := [base + [Mir.KI32], base, base + [Mir.KI32]];
    assert d[0] == base + [Mir.KI32] && d[1] == base && d[2] == base + [Mir.KI32];
  }

  lemma StartOf(fn: Mir.Function, k: seq<Kinds>, terms: seq<Term>, at: nat, ks: Kinds, low: nat)
    requires KindsStand(fn, k, terms, at, ks, low)
    ensures at < |k| && k[at] == ks
  {
  }

  lemma {:induction false} EndOf(fn: Mir.Function, k: seq<Kinds>, terms: seq<Term>, at: nat, ks: Kinds, low: nat)
    requires KindsStand(fn, k, terms, at, ks, low)
    ensures TermsKinds(fn, terms, ks, low).Some? && Then(k, at + Len(terms), TermsKinds(fn, terms, ks, low).value)
    decreases terms
  {
    hide TermKindsStand, TermKinds;
    if terms != [] {
      assert TermKinds(fn, terms[0], ks, low).Some? by { SomeKinds(fn, k, terms[0], at, ks, low); }
      EndOf(fn, k, terms[1..], at + TermLen(terms[0]), TermKinds(fn, terms[0], ks, low).value, low);
    }
  }

  lemma SomeKinds(fn: Mir.Function, k: seq<Kinds>, x: Term, at: nat, ks: Kinds, low: nat)
    requires TermKindsStand(fn, k, x, at, ks, low)
    ensures TermKinds(fn, x, ks, low).Some?
  {
  }

  lemma {:induction false} MapOfCode(fn: Mir.Function, k: seq<Kinds>, code: seq<Stmt>, at: nat)
    requires Typed(fn, code) && Holds(k, at, MapCode(fn, code)) && NonePending(k, at + Size(code))
    ensures CodeKindsStand(fn, k, code, at)
    decreases code, 2
  {
    hide Holds, StmtKindsStand, MapStmt, TypedStmt;
    if code != [] {
      HoldsParts(k, at, MapStmt(fn, code[0]), MapCode(fn, code[1..]));
      MapOfCode(fn, k, code[1..], at + StmtSize(code[0]));
      MapOfStmt(fn, k, code[0], at);
    }
  }

  lemma {:induction false} MapOfStmt(fn: Mir.Function, k: seq<Kinds>, s: Stmt, at: nat)
    requires TypedStmt(fn, s) && Holds(k, at, MapStmt(fn, s)) && NonePending(k, at + StmtSize(s))
    ensures StmtKindsStand(fn, k, s, at) && NonePending(k, at)
    decreases s, 1
  {
    hide Holds, KindsStand, MapTerms, MapCode, CodeKindsStand, Len, Size, TermsKinds, Typed;
    match s
    case Eval(terms) => MapOfTerms(fn, k, terms, at, [], 0); StartOf(fn, k, terms, at, [], 0);
    case IfThen(c, thn) =>
      ThreeHold(k, at, MapTerms(fn, c, [], 0), [[Mir.KI32]], MapCode(fn, thn));
      OneHolds(k, at + Len(c), [Mir.KI32]);
      MapOfTerms(fn, k, c, at, [], 0); StartOf(fn, k, c, at, [], 0);
      MapOfCode(fn, k, thn, at + Len(c) + 1);
    case IfElse(_, _, _) => MapOfIfElse(fn, k, s, at);
    case While(_, _, _) => MapOfWhile(fn, k, s, at);
    case Forever(body) =>
      var none: Kinds := [];
      HoldsParts(k, at, MapCode(fn, body), [none]);
      OneHolds(k, at + Size(body), none);
      MapOfCode(fn, k, body, at); CodeStart(fn, k, body, at);
    case _ =>
      var none: Kinds := [];
      OneHolds(k, at, none);
  }

  lemma CodeStart(fn: Mir.Function, k: seq<Kinds>, code: seq<Stmt>, at: nat)
    requires CodeKindsStand(fn, k, code, at)
    ensures NonePending(k, at)
  {
  }

  lemma {:induction false} MapOfIfElse(fn: Mir.Function, k: seq<Kinds>, s: Stmt, at: nat)
    requires s.IfElse? && TypedStmt(fn, s) && Holds(k, at, MapStmt(fn, s)) && NonePending(k, at + StmtSize(s))
    ensures StmtKindsStand(fn, k, s, at) && NonePending(k, at)
    decreases s, 0
  {
    hide Holds, KindsStand, MapTerms, MapCode, CodeKindsStand, Len, Size, TermsKinds, Typed;
    var none: Kinds := [];
    var a, b, c := MapTerms(fn, s.cond, [], 0), [[Mir.KI32]], MapCode(fn, s.thn);
    var b1 := at + Len(s.cond) + 1;
    ThreeHold(k, at, a + b + c, [none], MapCode(fn, s.els));
    ThreeHold(k, at, a, b, c);
    OneHolds(k, b1 - 1, [Mir.KI32]); OneHolds(k, b1 + Size(s.thn), none);
    MapOfTerms(fn, k, s.cond, at, [], 0); StartOf(fn, k, s.cond, at, [], 0);
    MapOfCode(fn, k, s.thn, b1);
    MapOfCode(fn, k, s.els, b1 + Size(s.thn) + 1);
  }

  lemma {:induction false} MapOfWhile(fn: Mir.Function, k: seq<Kinds>, s: Stmt, at: nat)
    requires s.While? && TypedStmt(fn, s) && Holds(k, at, MapStmt(fn, s)) && NonePending(k, at + StmtSize(s))
    ensures StmtKindsStand(fn, k, s, at) && NonePending(k, at)
    decreases s, 0
  {
    hide Holds, KindsStand, MapTerms, MapCode, CodeKindsStand, Len, Size, TermsKinds, Typed;
    var none: Kinds := [];
    var a, b, c := MapTerms(fn, s.cond, [], 0), [[Mir.KI32]], MapCode(fn, s.body);
    var start := at + Len(s.cond) + 1;
    var p := start + Size(s.body);
    ThreeHold(k, at, a + b + c, MapTerms(fn, s.post, [], 0), [none]);
    ThreeHold(k, at, a, b, c);
    OneHolds(k, start - 1, [Mir.KI32]); OneHolds(k, p + Len(s.post), none);
    MapOfTerms(fn, k, s.cond, at, [], 0); StartOf(fn, k, s.cond, at, [], 0);
    MapOfTerms(fn, k, s.post, p, [], 0); StartOf(fn, k, s.post, p, [], 0);
    MapOfCode(fn, k, s.body, start);
  }

  lemma {:induction false} StandSettled(fn: Mir.Function, k: seq<Kinds>, code: seq<Stmt>, at: nat)
    requires CodeKindsStand(fn, k, code, at)
    ensures Settled(k, code, at)
    decreases code, 1
  {
    hide StmtKindsStand, StmtSettled;
    if code != [] {
      StmtStandSettled(fn, k, code[0], at);
      StandSettled(fn, k, code[1..], at + StmtSize(code[0]));
    }
  }

  lemma {:induction false} StmtStandSettled(fn: Mir.Function, k: seq<Kinds>, s: Stmt, at: nat)
    requires StmtKindsStand(fn, k, s, at)
    ensures StmtSettled(k, s, at)
    decreases s, 0
  {
    hide CodeKindsStand, Settled, KindsStand, Len, Size;
    match s
    case IfThen(c, thn) => StandSettled(fn, k, thn, at + Len(c) + 1);
    case IfElse(c, thn, els) =>
      StandSettled(fn, k, thn, at + Len(c) + 1);
      StandSettled(fn, k, els, at + Len(c) + 1 + Size(thn) + 1);
    case While(c, body, post) => StandSettled(fn, k, body, at + Len(c) + 1);
    case Forever(body) => StandSettled(fn, k, body, at);
    case _ =>
  }
}
