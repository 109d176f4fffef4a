/**
 * Structured statements and the flat code that they are lowered to: conditions made of `&&` and `||`,
 * `if` with and without `else`, loops with a condition and an optional step, endless loops, `break` and
 * `continue`. Jump targets, which the lowering fills in once it knows them, are computed from lengths.
 */
module Structured {
  import opened Words
  import opened StackMap
  import Mir

  /** Pieces of expressions: instructions that do not jump, and the two operators that do not always
      evaluate their right operand. */
  datatype Term = Op(inst: Mir.Inst) | And(left: seq<Term>, right: seq<Term>) | Or(left: seq<Term>, right: seq<Term>)

  datatype Stmt =
    | Eval(terms: seq<Term>)
    | IfThen(cond: seq<Term>, thn: seq<Stmt>)
    | IfElse(cond: seq<Term>, thn: seq<Stmt>, els: seq<Stmt>)
    | While(cond: seq<Term>, body: seq<Stmt>, post: seq<Term>)
    | Forever(body: seq<Stmt>)
    | Break
    | Continue

  // ---- lengths --------------------------------------------------------------------------------

  function Len(terms: seq<Term>): nat {
    if terms == [] then 0 else TermLen(terms[0]) + Len(terms[1..])
  }

  function TermLen(x: Term): nat {
    match x
    case Op(_) => 1
    case And(l, r) => Len(l) + Len(r) + 5
    case Or(l, r) => Len(l) + Len(r) + 7
  }

  function Size(code: seq<Stmt>): nat {
    if code == [] then 0 else StmtSize(code[0]) + Size(code[1..])
  }

  function StmtSize(s: Stmt): nat {
    match s
    case Eval(terms) => Len(terms)
    case IfThen(c, thn) => Len(c) + 1 + Size(thn)
    case IfElse(c, thn, els) => Len(c) + 1 + Size(thn) + 1 + Size(els)
    case While(c, body, post) => Len(c) + 1 + Size(body) + Len(post) + 1
    case Forever(body) => Size(body) + 1
    case Break => 1
    case Continue => 1
  }

  // ---- lowering -------------------------------------------------------------------------------

  /** Where `continue` and `break` go. */
  datatype Exits = NoLoop | InLoop(next: nat, out: nat)

  predicate ShapedTerms(terms: seq<Term>) {
    terms == [] || (ShapedTerm(terms[0]) && ShapedTerms(terms[1..]))
  }

  predicate ShapedTerm(x: Term) {
    match x
    case Op(inst) => !inst.Jump? && !inst.JumpIfFalse?
    case And(l, r) => ShapedTerms(l) && ShapedTerms(r)
    case Or(l, r) => ShapedTerms(l) && ShapedTerms(r)
  }

  /** `break` and `continue` stand in loops. */
  predicate Shaped(code: seq<Stmt>, inLoop: bool) {
    code == [] || (ShapedStmt(code[0], inLoop) && Shaped(code[1..], inLoop))
  }

  predicate ShapedStmt(s: Stmt, inLoop: bool) {
    match s
    case Eval(terms) => ShapedTerms(terms)
    case IfThen(c, thn) => ShapedTerms(c) && Shaped(thn, inLoop)
    case IfElse(c, thn, els) => ShapedTerms(c) && Shaped(thn, inLoop) && Shaped(els, inLoop)
    case While(c, body, post) => ShapedTerms(c) && Shaped(body, true) && ShapedTerms(post)
    case Forever(body) => Shaped(body, true)
    case Break => inLoop
    case Continue => inLoop
  }

  function LowerTerms(terms: seq<Term>, at: nat): (r: seq<Mir.Inst>)
    ensures |r| == Len(terms)
  {
    if terms == [] then [] else LowerTerm(terms[0], at) + LowerTerms(terms[1..], at + TermLen(terms[0]))
  }

  function LowerTerm(x: Term, at: nat): (r: seq<Mir.Inst>)
    ensures |r| == TermLen(x)
  {
    match x
    case Op(inst) => [inst]
    case And(l, r) =>
      var rhs := at + Len(l) + 1;
      var f := rhs + Len(r) + 3;
      LowerTerms(l, at) + [Mir.JumpIfFalse(f)] + LowerTerms(r, rhs)
        + [Mir.JumpIfFalse(f), Mir.PushBool(true), Mir.Jump(f + 1), Mir.PushBool(false)]
    case Or(l, r) =>
      var rhs := at + Len(l) + 3;
      var f := rhs + Len(r) + 3;
      LowerTerms(l, at) + [Mir.JumpIfFalse(rhs), Mir.PushBool(true), Mir.Jump(f + 1)] + LowerTerms(r, rhs)
        + [Mir.JumpIfFalse(f), Mir.PushBool(true), Mir.Jump(f + 1), Mir.PushBool(false)]
  }

  function Lower(code: seq<Stmt>, at: nat, x: Exits): (r: seq<Mir.Inst>)
    requires Shaped(code, x.InLoop?)
    ensures |r| == Size(code)
  {
    if code == [] then [] else LowerStmt(code[0], at, x) + Lower(code[1..], at + StmtSize(code[0]), x)
  }

  /** `continue` goes to the step if there is one, otherwise to the condition. */
  function WhileExits(s: Stmt, at: nat): Exits
    requires s.While?
  {
    InLoop(if s.post == [] then at else at + Len(s.cond) + 1 + Size(s.body), at + StmtSize(s))
  }

  function LowerStmt(s: Stmt, at: nat, x: Exits): (r: seq<Mir.Inst>)
    requires ShapedStmt(s, x.InLoop?)
    ensures |r| == StmtSize(s)
  {
    var end := at + StmtSize(s);
    match s
    case Eval(terms) => LowerTerms(terms, at)
    case IfThen(c, thn) => LowerTerms(c, at) + [Mir.JumpIfFalse(end)] + Lower(thn, at + Len(c) + 1, x)
    case IfElse(c, thn, els) =>
      var e := at + Len(c) + 1 + Size(thn) + 1;
      LowerTerms(c, at) + [Mir.JumpIfFalse(e)] + Lower(thn, at + Len(c) + 1, x) + [Mir.Jump(end)] + Lower(els, e, x)
    case While(c, body, post) =>
      var start := at + Len(c) + 1;
      LowerTerms(c, at) + [Mir.JumpIfFalse(end)] + Lower(body, start, WhileExits(s, at))
        + LowerTerms(post, start + Size(body)) + [Mir.Jump(at)]
    case Forever(body) => Lower(body, at, InLoop(at, end)) + [Mir.Jump(at)]
    case Break => [Mir.Jump(x.out)]
    case Continue => [Mir.Jump(x.next)]
  }

  // ---- where the flat code of a statement stands ------------------------------------------------

  predicate InstIs(fn: Mir.Function, pc: nat, inst: Mir.Inst) {
    pc < |fn.insts| && fn.insts[pc] == inst
  }

  predicate TermsStand(fn: Mir.Function, terms: seq<Term>, at: nat) {
    if terms == [] then at <= |fn.insts|
    else TermStands(fn, terms[0], at) && TermsStand(fn, terms[1..], at + TermLen(terms[0]))
  }

  predicate TermStands(fn: Mir.Function, x: Term, at: nat) {
    match x
    case Op(inst) => InstIs(fn, at, inst) && !inst.Jump? && !inst.JumpIfFalse?
    case And(l, r) =>
      var f := at + Len(l) + 1 + Len(r) + 3;
      && TermsStand(fn, l, at) && InstIs(fn, at + Len(l), Mir.JumpIfFalse(f)) && TermsStand(fn, r, at + Len(l) + 1)
      && DiamondEnds(fn, f)
    case Or(l, r) =>
      var b := at + Len(l);
      var f := b + 3 + Len(r) + 3;
      && TermsStand(fn, l, at)
      && InstIs(fn, b, Mir.JumpIfFalse(b + 3)) && InstIs(fn, b + 1, Mir.PushBool(true))
      && InstIs(fn, b + 2, Mir.Jump(f + 1))
      && TermsStand(fn, r, b + 3)
      && DiamondEnds(fn, f)
  }

  /** The last four instructions of an operator whose false result is pushed at `f`. */
  predicate DiamondEnds(fn: Mir.Function, f: nat) {
    && f >= 3 && InstIs(fn, f - 3, Mir.JumpIfFalse(f)) && InstIs(fn, f - 2, Mir.PushBool(true))
    && InstIs(fn, f - 1, Mir.Jump(f + 1)) && InstIs(fn, f, Mir.PushBool(false))
  }

  predicate Stands(fn: Mir.Function, code: seq<Stmt>, at: nat, x: Exits) {
    if code == [] then at <= |fn.insts|
    else StmtStands(fn, code[0], at, x) && Stands(fn, code[1..], at + StmtSize(code[0]), x)
  }

  predicate StmtStands(fn: Mir.Function, s: Stmt, at: nat, x: Exits) {
    var end := at + StmtSize(s);
    match s
    case Eval(terms) => TermsStand(fn, terms, at)
    case IfThen(c, thn) =>
      && TermsStand(fn, c, at) && InstIs(fn, at + Len(c), Mir.JumpIfFalse(end)) && Stands(fn, thn, at + Len(c) + 1, x)
    case IfElse(c, thn, els) =>
      var e := at + Len(c) + 1 + Size(thn) + 1;
      && TermsStand(fn, c, at) && InstIs(fn, at + Len(c), Mir.JumpIfFalse(e)) && Stands(fn, thn, at + Len(c) + 1, x)
      && InstIs(fn, e - 1, Mir.Jump(end)) && Stands(fn, els, e, x)
    case While(c, body, post) =>
      var start := at + Len(c) + 1;
      && TermsStand(fn, c, at) && InstIs(fn, at + Len(c), Mir.JumpIfFalse(end))
      && Stands(fn, body, start, WhileExits(s, at)) && TermsStand(fn, post, start + Size(body))
      && InstIs(fn, end - 1, Mir.Jump(at))
    case Forever(body) => Stands(fn, body, at, InLoop(at, end)) && InstIs(fn, end - 1, Mir.Jump(at))
    case Break => x.InLoop? && InstIs(fn, at, Mir.Jump(x.out))
    case Continue => x.InLoop? && InstIs(fn, at, Mir.Jump(x.next))
  }

  // ---- lowered code stands where it was lowered to ----------------------------------------------

  /** `part` stands at `at` in `s`. */
  predicate Holds<T(==)>(s: seq<T>, at: nat, part: seq<T>) {
    at + |part| <= |s| && forall i :: 0 <= i < |part| ==> s[at + i] == part[i]
  }

  lemma HoldsParts<T>(s: seq<T>, at: nat, a: seq<T>, b: seq<T>)
    requires Holds(s, at, a + b)
    ensures Holds(s, at, a) && Holds(s, at + |a|, b)
  {
    forall i | 0 <= i < |a|
      ensures s[at + i] == a[i]
    {
      assert (a + b)[i] == a[i];
    }
    forall i | 0 <= i < |b|
      ensures s[at + |a| + i] == b[i]
    {
      assert (a + b)[|a| + i] == b[i];
    }
  }

  lemma ThreeHold<T>(s: seq<T>, at: nat, a: seq<T>, b: seq<T>, c: seq<T>)
    requires Holds(s, at, a + b + c)
    ensures Holds(s, at, a) && Holds(s, at + |a|, b) && Holds(s, at + |a| + |b|, c)
  {
    hide Holds;
    HoldsParts(s, at, a + b, c);
    HoldsParts(s, at, a, b);
  }

  lemma {:induction false} LoweredTermsStand(fn: Mir.Function, terms: seq<Term>, at: nat)
    requires ShapedTerms(terms) && Holds(fn.insts, at, LowerTerms(terms, at))
    ensures TermsStand(fn, terms, at)
  {
    hide Holds;
    if terms == [] {
      assert TermsStand(fn, terms, at) by { HoldsBounds(fn, at, LowerTerms(terms, at)); }
    } else {
      HoldsParts(fn.insts, at, LowerTerm(terms[0], at), LowerTerms(terms[1..], at + TermLen(terms[0])));
      LoweredTermStands(fn, terms[0], at);
      LoweredTermsStand(fn, terms[1..], at + TermLen(terms[0]));
    }
  }

  lemma HoldsBounds(fn: Mir.Function, at: nat, code: seq<Mir.Inst>)
    requires Holds(fn.insts, at, code)
    ensures at + |code| <= |fn.insts|
    ensures forall i :: 0 <= i < |code| ==> InstIs(fn, at + i, code[i])
  {
  }

  lemma OneHolds(fn: Mir.Function, at: nat, inst: Mir.Inst)
    requires Holds(fn.insts, at, [inst])
    ensures InstIs(fn, at, inst)
  {
    assert [inst][0] == inst;
  }

  lemma DiamondHolds(fn: Mir.Function, f: nat)
    requires f >= 3
    requires Holds(fn.insts, f - 3, [Mir.JumpIfFalse(f), Mir.PushBool(true), Mir.Jump(f + 1), Mir.PushBool(false)])
    ensures DiamondEnds(fn, f)
  {
    var d := [Mir.JumpIfFalse(f), Mir.PushBool(true), Mir.Jump(f + 1), Mir.PushBool(false)];
    assert d[0] == Mir.JumpIfFalse(f) && d[1] == Mir.PushBool(true) && d[2] == Mir.Jump(f + 1)
      && d[3] == Mir.PushBool(false);
  }

  lemma TruthHolds(fn: Mir.Function, b: nat, m: nat)
    requires Holds(fn.insts, b, [Mir.JumpIfFalse(b + 3), Mir.PushBool(true), Mir.Jump(m)])
    ensures InstIs(fn, b, Mir.JumpIfFalse(b + 3)) && InstIs(fn, b + 1, Mir.PushBool(true))
    ensures InstIs(fn, b + 2, Mir.Jump(m))
  {
    var d := [Mir.JumpIfFalse(b + 3), Mir.PushBool(true), Mir.Jump(m)];
    assert d[0] == Mir.JumpIfFalse(b + 3) && d[1] == Mir.PushBool(true) && d[2] == Mir.Jump(m);
  }

  lemma {:induction false} LoweredTermStands(fn: Mir.Function, x: Term, at: nat)
    requires ShapedTerm(x) && Holds(fn.insts, at, LowerTerm(x, at))
    ensures TermStands(fn, x, at)
  {
    hide Holds, InstIs, TermsStand, LowerTerms, Len, DiamondEnds, ShapedTerms;
    match x
    case Op(inst) => OneHolds(fn, at, inst);
    case And(l, r) =>
      var rhs := at + Len(l) + 1;
      var f := rhs + Len(r) + 3;
      var d := [Mir.JumpIfFalse(f), Mir.PushBool(true), Mir.Jump(f + 1), Mir.PushBool(false)];
      HoldsParts(fn.insts, at, LowerTerms(l, at) + [Mir.JumpIfFalse(f)] + LowerTerms(r, rhs), d);
      ThreeHold(fn.insts, at, LowerTerms(l, at), [Mir.JumpIfFalse(f)], LowerTerms(r, rhs));
      LoweredTermsStand(fn, l, at); LoweredTermsStand(fn, r, rhs);
      DiamondHolds(fn, f); OneHolds(fn, rhs - 1, Mir.JumpIfFalse(f));
    case Or(l, r) =>
      var rhs := at + Len(l) + 3;
      var f := rhs + Len(r) + 3;
      var b := [Mir.JumpIfFalse(rhs), Mir.PushBool(true), Mir.Jump(f + 1)];
      var d := [Mir.JumpIfFalse(f), Mir.PushBool(true), Mir.Jump(f + 1), Mir.PushBool(false)];
      HoldsParts(fn.insts, at, LowerTerms(l, at) + b + LowerTerms(r, rhs), d);
      ThreeHold(fn.insts, at, LowerTerms(l, at), b, LowerTerms(r, rhs));
      LoweredTermsStand(fn, l, at); LoweredTermsStand(fn, r, rhs);
      DiamondHolds(fn, f); TruthHolds(fn, rhs - 3, f + 1);
  }

  lemma {:induction false} LoweredStands(fn: Mir.Function, code: seq<Stmt>, at: nat, x: Exits)
    requires Shaped(code, x.InLoop?) && Holds(fn.insts, at, Lower(code, at, x))
    ensures Stands(fn, code, at, x)
    decreases code, 2
  {
    hide Holds;
    HoldsBounds(fn, at, Lower(code, at, x));
    if code != [] {
      HoldsParts(fn.insts, at, LowerStmt(code[0], at, x), Lower(code[1..], at + StmtSize(code[0]), x));
      LoweredStmtStands(fn, code[0], at, x);
      LoweredStands(fn, code[1..], at + StmtSize(code[0]), x);
    }
  }

  lemma {:induction false} LoweredStmtStands(fn: Mir.Function, s: Stmt, at: nat, x: Exits)
    requires ShapedStmt(s, x.InLoop?) && Holds(fn.insts, at, LowerStmt(s, at, x))
    ensures StmtStands(fn, s, at, x)
    decreases s, 1
  {
    hide Holds, InstIs, Stands, TermsStand, LowerTerms, Lower, Len, Size, WhileExits;
    match s
    case Eval(terms) => LoweredTermsStand(fn, terms, at);
    case IfThen(_, _) => LoweredIfStands(fn, s, at, x);
    case IfElse(_, _, _) => LoweredIfElseStands(fn, s, at, x);
    case While(_, _, _) => LoweredWhileStands(fn, s, at, x);
    case Forever(body) =>
      var end := at + StmtSize(s);
      HoldsParts(fn.insts, at, Lower(body, at, InLoop(at, end)), [Mir.Jump(at)]);
      LoweredStands(fn, body, at, InLoop(at, end)); OneHolds(fn, end - 1, Mir.Jump(at));
    case Break => OneHolds(fn, at, Mir.Jump(x.out));
    case Continue => OneHolds(fn, at, Mir.Jump(x.next));
  }

  lemma {:induction false} LoweredIfStands(fn: Mir.Function, s: Stmt, at: nat, x: Exits)
    requires s.IfThen? && ShapedStmt(s, x.InLoop?) && Holds(fn.insts, at, LowerStmt(s, at, x))
    ensures StmtStands(fn, s, at, x)
    decreases s, 0
  {
    hide Holds, InstIs, Stands, TermsStand, LowerTerms, Lower, Len, Size;
    var end := at + StmtSize(s);
    var body := at + Len(s.cond) + 1;
    ThreeHold(fn.insts, at, LowerTerms(s.cond, at), [Mir.JumpIfFalse(end)], Lower(s.thn, body, x));
    LoweredTermsStand(fn, s.cond, at); OneHolds(fn, body - 1, Mir.JumpIfFalse(end)); LoweredStands(fn, s.thn, body, x);
  }

  lemma {:induction false} LoweredIfElseStands(fn: Mir.Function, s: Stmt, at: nat, x: Exits)
    requires s.IfElse? && ShapedStmt(s, x.InLoop?) && Holds(fn.insts, at, LowerStmt(s, at, x))
    ensures StmtStands(fn, s, at, x)
    decreases s, 0
  {
    hide Holds, InstIs, Stands, TermsStand, LowerTerms, Lower, Len, Size;
    var end := at + StmtSize(s);
    var body := at + Len(s.cond) + 1;
    var e := body + Size(s.thn) + 1;
    var a := LowerTerms(s.cond, at) + [Mir.JumpIfFalse(e)] + Lower(s.thn, body, x);
    ThreeHold(fn.insts, at, a, [Mir.Jump(end)], Lower(s.els, e, x));
    ThreeHold(fn.insts, at, LowerTerms(s.cond, at), [Mir.JumpIfFalse(e)], Lower(s.thn, body, x));
    LoweredTermsStand(fn, s.cond, at); OneHolds(fn, body - 1, Mir.JumpIfFalse(e)); LoweredStands(fn, s.thn, body, x);
    OneHolds(fn, e - 1, Mir.Jump(end)); LoweredStands(fn, s.els, e, x);
  }

  lemma {:induction false} LoweredWhileStands(fn: Mir.Function, s: Stmt, at: nat, x: Exits)
    requires s.While? && ShapedStmt(s, x.InLoop?) && Holds(fn.insts, at, LowerStmt(s, at, x))
    ensures StmtStands(fn, s, at, x)
    decreases s, 0
  {
    hide Holds, InstIs, Stands, TermsStand, LowerTerms, Lower, Len, Size;
    var end := at + StmtSize(s);
    var body := at + Len(s.cond) + 1;
    var inside, post := WhileExits(s, at), body + Size(s.body);
    var a := LowerTerms(s.cond, at) + [Mir.JumpIfFalse(end)] + Lower(s.body, body, inside);
    ThreeHold(fn.insts, at, a, LowerTerms(s.post, post), [Mir.Jump(at)]);
    ThreeHold(fn.insts, at, LowerTerms(s.cond, at), [Mir.JumpIfFalse(end)], Lower(s.body, body, inside));
    LoweredTermsStand(fn, s.cond, at); OneHolds(fn, body - 1, Mir.JumpIfFalse(end));
    LoweredStands(fn, s.body, body, inside);
    LoweredTermsStand(fn, s.post, post); OneHolds(fn, end - 1, Mir.Jump(at));
  }
}
