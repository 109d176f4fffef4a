/**
 * What loop recognition finds in the flat code of statements: where a meeting place inside a statement is cut,
 * which conditional jumps look like the exit of a loop, and which jumps are those of inner loops.
 */
module LoopShapes {
  import opened Words
  import opened StackMap
  import opened Emitter
  import opened Recognition
  import opened Structured
  import opened Expressions
  import opened Statements
  import Mir

  // ---- meeting places inside a statement --------------------------------------------------------

  /** What makes it impossible to cut code at `meet`: an operand on the stack, a conditional jump over the
      cut, or a jump back over it. */
  predicate CutShort(fn: Mir.Function, at: nat, end: nat, meet: nat, pc: nat) {
    || (0 < meet && InstIs(fn, meet - 1, Mir.PushBool(false)))
    || (at <= pc < meet && pc < |fn.insts| && fn.insts[pc].JumpIfFalse? && fn.insts[pc].dest > meet)
    || (meet <= pc < end && pc < |fn.insts| && fn.insts[pc].Jump? && at <= fn.insts[pc].dest < meet)
  }

  predicate NoneFurther(fn: Mir.Function, a: nat, b: nat, exit: nat, meet: nat) {
    forall pc :: a <= pc < b && pc < |fn.insts| && fn.insts[pc].Jump? && pc < fn.insts[pc].dest < exit ==>
      fn.insts[pc].dest <= meet
  }

  lemma {:induction false} Inside(fn: Mir.Function, k: seq<Kinds>, code: seq<Stmt>, at: nat, x: Exits, meet: nat,
      j: nat)
    returns (pc: nat)
    requires Ready(fn, k) && Stands(fn, code, at, x) && Settled(k, code, at) && x.InLoop?
    requires at <= j < meet < at + Size(code) < x.out && InstIs(fn, j, Mir.Jump(meet)) && !Between(code, at, meet)
    requires x.next <= at || x.next >= at + Size(code)
    requires NoneFurther(fn, at, at + Size(code), x.out, meet)
    ensures CutShort(fn, at, at + Size(code), meet, pc)
    decreases code, 1
  {
    hide Ready, CodeJumps, StmtStands, StmtSettled;
    var mid, end := at + StmtSize(code[0]), at + Size(code);
    Lengths(fn, k);
    JumpsOfStmt(fn, k, code[0], at, x);
    if meet < mid {
      pc := InsideStmt(fn, k, code[0], at, x, meet, j, end);
    } else {
      assert meet != mid by { assert Between(code[1..], mid, mid); }
      if j < mid {
        JumpThere(fn, k, at, mid, at, mid, x, StmtHasLoop(code[0]), StmtHasContinue(code[0]), j);
        assert false;
      }
      pc := Inside(fn, k, code[1..], mid, x, meet, j);
    }
  }

  lemma JumpThere(fn: Mir.Function, k: seq<Kinds>, a: nat, b: nat, lo: nat, hi: nat, x: Exits, loops: bool, cont: bool,
      pc: nat)
    requires |k| == |fn.insts| + 1 && CodeJumps(fn, k, a, b, lo, hi, x, loops, cont) && a <= pc < b && pc < |fn.insts|
    ensures CodeJump(fn, k, lo, hi, x, loops, cont, pc)
  {
  }

  lemma TermJumpThere(fn: Mir.Function, terms: seq<Term>, at: nat, pc: nat)
    requires TermsStand(fn, terms, at) && at <= pc < at + Len(terms)
    ensures at + Len(terms) <= |fn.insts| && TermJump(fn, at + Len(terms), pc)
  {
    TermsJumps(fn, terms, at);
  }

  lemma InsideStmt(fn: Mir.Function, k: seq<Kinds>, s: Stmt, at: nat, x: Exits, meet: nat, j: nat, end: nat)
    returns (pc: nat)
    requires Ready(fn, k) && StmtStands(fn, s, at, x) && x.InLoop? && at + StmtSize(s) <= end < x.out
    requires at <= j < meet < at + StmtSize(s) && InstIs(fn, j, Mir.Jump(meet))
    requires NoneFurther(fn, at, end, x.out, meet)
    ensures CutShort(fn, at, end, meet, pc)
  {
    hide Ready, TermsStand, Stands, Len, Size;
    var last := at + StmtSize(s);
    pc := at;
    match s
    case Eval(terms) => TermJumpThere(fn, terms, at, j);
    case IfThen(c, thn) =>
      if meet <= at + Len(c) {
        TermJumpThere(fn, c, at, j);
      } else {
        pc := at + Len(c);
      }
    case IfElse(c, thn, els) => assert false;
    case While(c, body, post) =>
      if meet <= at + Len(c) {
        TermJumpThere(fn, c, at, j);
      } else {
        pc := at + Len(c);
      }
    case Forever(body) => pc := last - 1;
    case Break =>
    case Continue =>
  }

  // ---- exits of loops in an endless loop -----------------------------------------------------------

  lemma {:induction false} EndOfCode(fn: Mir.Function, code: seq<Stmt>, at: nat, x: Exits)
    requires Stands(fn, code, at, x) && !HasLoop(code) && x.InLoop? && x.next <= at && at + Size(code) < x.out
    requires Size(code) > 0
    ensures at + Size(code) <= |fn.insts|
    ensures fn.insts[at + Size(code) - 1] == Mir.Jump(x.next) <==> EndsInContinue(code)
    decreases code, 1
  {
    hide StmtStands, StmtHasLoop, StmtEndsInContinue;
    var mid := at + StmtSize(code[0]);
    if Size(code[1..]) > 0 {
      EndOfCode(fn, code[1..], mid, x);
    } else {
      EndOfStmt(fn, code[0], at, x);
    }
  }

  lemma {:induction false} EndOfStmt(fn: Mir.Function, s: Stmt, at: nat, x: Exits)
    requires StmtStands(fn, s, at, x) && !StmtHasLoop(s) && x.InLoop? && x.next <= at && at + StmtSize(s) < x.out
    requires StmtSize(s) > 0
    ensures at + StmtSize(s) <= |fn.insts|
    ensures fn.insts[at + StmtSize(s) - 1] == Mir.Jump(x.next) <==> StmtEndsInContinue(s)
    decreases s, 0
  {
    hide TermsStand, Stands, Len, HasLoop;
    match s
    case Eval(terms) => TermJumpThere(fn, terms, at, at + Len(terms) - 1);
    case IfThen(c, thn) =>
      if Size(thn) > 0 {
        EndOfCode(fn, thn, at + Len(c) + 1, x);
      } else {
        EmptyEnds(thn);
      }
    case IfElse(c, thn, els) =>
      if Size(els) > 0 {
        EndOfCode(fn, els, at + Len(c) + 1 + Size(thn) + 1, x);
      } else {
        EmptyEnds(els);
      }
    case Break =>
    case Continue =>
  }

  lemma {:induction false} EmptyEnds(code: seq<Stmt>)
    requires Size(code) == 0
    ensures !EndsInContinue(code)
  {
    if code != [] {
      assert StmtSize(code[0]) == 0;
    }
  }

  ghost predicate NoneLeaves(fn: Mir.Function, h: nat, e: nat, a: nat, b: nat) {
    forall pc :: a <= pc < b ==> !LeavesLoop(fn, h, e, pc)
  }

  lemma TermsLeaveNot(fn: Mir.Function, terms: seq<Term>, at: nat, h: nat, e: nat)
    requires TermsStand(fn, terms, at) && h <= at
    ensures NoneLeaves(fn, h, e, at, at + Len(terms))
  {
    forall pc | at <= pc < at + Len(terms)
      ensures !LeavesLoop(fn, h, e, pc)
    {
      TermJumpThere(fn, terms, at, pc);
    }
  }

  /** A conditional jump looks like the exit of an endless loop exactly for an `if` that ends in `continue`. */
  lemma {:induction false} CodeLeaves(fn: Mir.Function, code: seq<Stmt>, at: nat, x: Exits, e: nat)
    requires Stands(fn, code, at, x) && !HasLoop(code) && x.InLoop? && x.next <= at && at + Size(code) < x.out
    requires at + Size(code) <= e <= |fn.insts|
    ensures NoneLeaves(fn, x.next, e, at, at + Size(code)) <==> !IfEndsInContinue(code)
    decreases code, 1
  {
    hide StmtStands, StmtHasLoop, StmtIfEndsInContinue, NoneLeaves;
    if code == [] {
      LeavesJoin(fn, x.next, e, at, at, at);
    } else {
      var mid, end := at + StmtSize(code[0]), at + Size(code);
      StmtLeaves(fn, code[0], at, x, e);
      CodeLeaves(fn, code[1..], mid, x, e);
      LeavesJoin(fn, x.next, e, at, mid, end);
    }
  }

  lemma LeavesJoin(fn: Mir.Function, h: nat, e: nat, a: nat, b: nat, c: nat)
    requires a <= b <= c
    ensures NoneLeaves(fn, h, e, a, c) <==> NoneLeaves(fn, h, e, a, b) && NoneLeaves(fn, h, e, b, c)
    ensures NoneLeaves(fn, h, e, a, a)
  {
    hide LeavesLoop;
  }

  lemma LeavesOne(fn: Mir.Function, h: nat, e: nat, pc: nat)
    ensures NoneLeaves(fn, h, e, pc, pc + 1) <==> !LeavesLoop(fn, h, e, pc)
  {
    hide LeavesLoop;
  }

  lemma {:induction false} StmtLeaves(fn: Mir.Function, s: Stmt, at: nat, x: Exits, e: nat)
    requires StmtStands(fn, s, at, x) && !StmtHasLoop(s) && x.InLoop? && x.next <= at && at + StmtSize(s) < x.out
    requires at + StmtSize(s) <= e <= |fn.insts|
    ensures NoneLeaves(fn, x.next, e, at, at + StmtSize(s)) <==> !StmtIfEndsInContinue(s)
    decreases s, 0
  {
    hide TermsStand, Stands, Len, Size, HasLoop, NoneLeaves, IfEndsInContinue, EndsInContinue;
    var h, end := x.next, at + StmtSize(s);
    match s
    case Eval(terms) => TermsLeaveNot(fn, terms, at, h, e);
    case IfThen(c, thn) =>
      var b := at + Len(c);
      TermsLeaveNot(fn, c, at, h, e);
      LeavesOne(fn, h, e, b);
      if Size(thn) > 0 {
        EndOfCode(fn, thn, b + 1, x);
      }
      CodeLeaves(fn, thn, b + 1, x, e);
      LeavesJoin(fn, h, e, at, b, b + 1);
      LeavesJoin(fn, h, e, at, b + 1, end);
    case IfElse(c, thn, els) =>
      var b := at + Len(c);
      var f := b + 1 + Size(thn) + 1;
      TermsLeaveNot(fn, c, at, h, e);
      LeavesOne(fn, h, e, b);
      CodeLeaves(fn, thn, b + 1, x, e);
      LeavesOne(fn, h, e, f - 1);
      CodeLeaves(fn, els, f, x, e);
      LeavesJoin(fn, h, e, at, b, b + 1);
      LeavesJoin(fn, h, e, at, b + 1, f - 1);
      LeavesJoin(fn, h, e, at, f - 1, f);
      LeavesJoin(fn, h, e, at, f, end);
    case Break => LeavesOne(fn, h, e, at);
    case Continue => LeavesOne(fn, h, e, at);
  }

  // ---- loops inside an endless loop ---------------------------------------------------------------

  /** An inner loop jumps back to a place that is not the outer header, or has an exit that looks like one of
      the outer loop. */
  predicate Disturbs(fn: Mir.Function, h: nat, e: nat, pc: nat) {
    LeavesLoop(fn, h, e, pc) || (pc < |fn.insts| && fn.insts[pc].Jump? && h < fn.insts[pc].dest <= pc)
  }

  lemma {:induction false} InnerLoop(fn: Mir.Function, code: seq<Stmt>, at: nat, x: Exits, h: nat, e: nat)
    returns (pc: nat)
    requires Stands(fn, code, at, x) && HasLoop(code) && h < at && at + Size(code) <= e <= |fn.insts|
    ensures at <= pc < at + Size(code) && Disturbs(fn, h, e, pc)
    decreases code, 1
  {
    hide StmtStands, StmtHasLoop;
    if StmtHasLoop(code[0]) {
      pc := InnerLoopOf(fn, code[0], at, x, h, e);
    } else {
      pc := InnerLoop(fn, code[1..], at + StmtSize(code[0]), x, h, e);
    }
  }

  lemma {:induction false} InnerLoopOf(fn: Mir.Function, s: Stmt, at: nat, x: Exits, h: nat, e: nat) returns (pc: nat)
    requires StmtStands(fn, s, at, x) && StmtHasLoop(s) && h <= at && at + StmtSize(s) <= e <= |fn.insts|
    requires at == h ==> !s.While? && !s.Forever?
    ensures at <= pc < at + StmtSize(s) && Disturbs(fn, h, e, pc)
    decreases s, 0
  {
    hide TermsStand, Stands, Len, Size, HasLoop;
    var end := at + StmtSize(s);
    match s
    case IfThen(c, thn) => pc := InnerLoop(fn, thn, at + Len(c) + 1, x, h, e);
    case IfElse(c, thn, els) =>
      if HasLoop(thn) {
        pc := InnerLoop(fn, thn, at + Len(c) + 1, x, h, e);
      } else {
        pc := InnerLoop(fn, els, at + Len(c) + 1 + Size(thn) + 1, x, h, e);
      }
    case While(c, body, post) => pc := end - 1;
    case Forever(body) => pc := end - 1;
  }

  // ---- loops at the header of an endless loop ----------------------------------------------------------

  lemma {:induction false} LeadInner(fn: Mir.Function, code: seq<Stmt>, h: nat, x: Exits, e: nat) returns (pc: nat)
    requires Stands(fn, code, h, x) && LeadHasLoop(code) && h + Size(code) <= e <= |fn.insts|
    ensures h <= pc < h + Size(code) && Disturbs(fn, h, e, pc)
    decreases code, 1
  {
    hide StmtStands, LeadStmtHasLoop;
    if StmtSize(code[0]) == 0 {
      pc := LeadInner(fn, code[1..], h, x, e);
    } else if LeadStmtHasLoop(code[0]) {
      pc := LeadInnerOf(fn, code[0], h, x, e);
    } else {
      pc := InnerLoop(fn, code[1..], h + StmtSize(code[0]), x, h, e);
    }
  }

  lemma {:induction false} LeadInnerOf(fn: Mir.Function, s: Stmt, h: nat, x: Exits, e: nat) returns (pc: nat)
    requires StmtStands(fn, s, h, x) && LeadStmtHasLoop(s) && h + StmtSize(s) <= e <= |fn.insts|
    ensures h <= pc < h + StmtSize(s) && Disturbs(fn, h, e, pc)
    decreases s, 0
  {
    hide TermsStand, Stands, Len, Size, HasLoop;
    match s
    case While(c, _, _) => pc := h + Len(c);
    case Forever(body) => pc := LeadInner(fn, body, h, InLoop(h, h + StmtSize(s)), e);
    case _ => pc := InnerLoopOf(fn, s, h, x, h, e);
  }

  lemma {:induction false} LeadLeaves(fn: Mir.Function, code: seq<Stmt>, h: nat, x: Exits, e: nat)
    requires Stands(fn, code, h, x) && !LeadHasLoop(code) && x.InLoop? && x.next == h && h + Size(code) < x.out
    requires h + Size(code) <= e <= |fn.insts|
    ensures NoneLeaves(fn, h, e, h, h + Size(code)) <==> !LeadIfEnds(code)
    decreases code, 1
  {
    hide StmtStands, LeadStmtHasLoop, LeadStmtIfEnds, NoneLeaves;
    if code == [] {
      LeavesJoin(fn, h, e, h, h, h);
    } else if StmtSize(code[0]) == 0 {
      LeadLeaves(fn, code[1..], h, x, e);
    } else {
      var mid, end := h + StmtSize(code[0]), h + Size(code);
      LeadStmtLeaves(fn, code[0], h, x, e);
      CodeLeaves(fn, code[1..], mid, x, e);
      LeavesJoin(fn, h, e, h, mid, end);
    }
  }

  lemma {:induction false} LeadStmtLeaves(fn: Mir.Function, s: Stmt, h: nat, x: Exits, e: nat)
    requires StmtStands(fn, s, h, x) && !LeadStmtHasLoop(s) && x.InLoop? && x.next == h && h + StmtSize(s) < x.out
    requires h + StmtSize(s) <= e <= |fn.insts|
    ensures NoneLeaves(fn, h, e, h, h + StmtSize(s)) <==> !LeadStmtIfEnds(s)
    decreases s, 0
  {
    hide TermsStand, Stands, Len, Size, HasLoop, NoneLeaves, IfEndsInContinue, LeadHasLoop, LeadIfEnds;
    var end := h + StmtSize(s);
    match s
    case While(c, _, _) =>
      var b := h + Len(c);
      TermsLeaveNot(fn, c, h, h, e);
      LeavesOne(fn, h, e, b); LeavesOne(fn, h, e, b + 1);
      LeavesJoin(fn, h, e, h, b, b + 1);
      LeavesJoin(fn, h, e, h, b + 1, end);
    case Forever(body) =>
      LeadLeaves(fn, body, h, InLoop(h, end), e);
      LeavesOne(fn, h, e, end - 1);
      LeavesJoin(fn, h, e, h, end - 1, end);
    case _ => StmtLeaves(fn, s, h, x, e);
  }

  ghost predicate AllStay(fn: Mir.Function, h: nat, last: nat, a: nat, b: nat) {
    forall pc :: a <= pc < b && pc < |fn.insts| ==> StaysInLoop(fn, h, last, pc)
  }

  lemma StayJoin(fn: Mir.Function, h: nat, last: nat, a: nat, b: nat, c: nat)
    requires AllStay(fn, h, last, a, b) && AllStay(fn, h, last, b, c)
    ensures AllStay(fn, h, last, a, c)
  {
    hide StaysInLoop;
  }

  lemma CodeStays(fn: Mir.Function, k: seq<Kinds>, a: nat, b: nat, lo: nat, hi: nat, x: Exits, cont: bool, h: nat,
      last: nat)
    requires |k| == |fn.insts| + 1 && CodeJumps(fn, k, a, b, lo, hi, x, false, cont)
    requires x.InLoop? && x.next == h && b <= hi <= last && hi < x.out <= last + 1
    ensures AllStay(fn, h, last, a, b)
  {
    forall pc | a <= pc < b && pc < |fn.insts|
      ensures StaysInLoop(fn, h, last, pc)
    {
      assert CodeJump(fn, k, lo, hi, x, false, cont, pc);
    }
  }

  lemma TermsStay(fn: Mir.Function, terms: seq<Term>, at: nat, h: nat, last: nat)
    requires TermsStand(fn, terms, at) && at + Len(terms) <= last
    ensures AllStay(fn, h, last, at, at + Len(terms))
  {
    TermsJumps(fn, terms, at);
    forall pc | at <= pc < at + Len(terms) && pc < |fn.insts|
      ensures StaysInLoop(fn, h, last, pc)
    {
      assert TermJump(fn, at + Len(terms), pc);
    }
  }

  lemma OneStays(fn: Mir.Function, h: nat, last: nat, pc: nat)
    requires pc < |fn.insts| && StaysInLoop(fn, h, last, pc)
    ensures AllStay(fn, h, last, pc, pc + 1)
  {
    hide StaysInLoop;
  }

  lemma {:induction false} LeadStays(fn: Mir.Function, k: seq<Kinds>, code: seq<Stmt>, h: nat, x: Exits, last: nat)
    requires |k| == |fn.insts| + 1 && Stands(fn, code, h, x) && Settled(k, code, h) && !LeadHasLoop(code)
    requires x.InLoop? && x.next == h && h + Size(code) <= last && h + Size(code) < x.out <= last + 1
    ensures AllStay(fn, h, last, h, h + Size(code))
    decreases code, 1
  {
    hide StmtStands, StmtSettled, LeadStmtHasLoop, AllStay, CodeJumps;
    if code == [] {
      NoneStay(fn, h, last);
    } else if StmtSize(code[0]) == 0 {
      LeadStays(fn, k, code[1..], h, x, last);
    } else {
      var mid, end := h + StmtSize(code[0]), h + Size(code);
      LeadStmtStays(fn, k, code[0], h, x, last);
      JumpsOfCode(fn, k, code[1..], mid, x);
      CodeStays(fn, k, mid, end, mid, end, x, HasContinue(code[1..]), h, last);
      StayJoin(fn, h, last, h, mid, end);
    }
  }

  lemma NoneStay(fn: Mir.Function, h: nat, last: nat)
    ensures AllStay(fn, h, last, h, h)
  {
  }

  lemma {:induction false} LeadStmtStays(fn: Mir.Function, k: seq<Kinds>, s: Stmt, h: nat, x: Exits, last: nat)
    requires |k| == |fn.insts| + 1 && StmtStands(fn, s, h, x) && StmtSettled(k, s, h) && NonePending(k, h)
    requires !LeadStmtHasLoop(s) && x.InLoop? && x.next == h && h + StmtSize(s) <= last
    requires h + StmtSize(s) < x.out <= last + 1
    ensures AllStay(fn, h, last, h, h + StmtSize(s))
    decreases s, 0
  {
    hide TermsStand, Stands, Settled, Len, Size, HasLoop, LeadHasLoop, AllStay, CodeJumps, HasContinue;
    var end := h + StmtSize(s);
    match s
    case While(c, _, _) =>
      var b := h + Len(c);
      TermsStay(fn, c, h, h, last);
      OneStays(fn, h, last, b); OneStays(fn, h, last, b + 1);
      StayJoin(fn, h, last, h, b, b + 1);
      StayJoin(fn, h, last, h, b + 1, end);
    case Forever(body) =>
      LeadStays(fn, k, body, h, InLoop(h, end), last);
      OneStays(fn, h, last, end - 1);
      StayJoin(fn, h, last, h, end - 1, end);
    case _ =>
      JumpsOfStmt(fn, k, s, h, x);
      CodeStays(fn, k, h, end, h, end, x, StmtHasContinue(s), h, last);
  }

  // ---- `break` of a loop that has no label ---------------------------------------------------------------

  lemma {:induction false} FindBreak(fn: Mir.Function, code: seq<Stmt>, at: nat, x: Exits) returns (pc: nat)
    requires Stands(fn, code, at, x) && HasBreak(code) && x.InLoop?
    ensures at <= pc < at + Size(code) && InstIs(fn, pc, Mir.Jump(x.out))
    decreases code, 1
  {
    hide StmtStands, StmtHasBreak;
    if StmtHasBreak(code[0]) {
      pc := FindBreakOf(fn, code[0], at, x);
    } else {
      pc := FindBreak(fn, code[1..], at + StmtSize(code[0]), x);
    }
  }

  lemma {:induction false} FindBreakOf(fn: Mir.Function, s: Stmt, at: nat, x: Exits) returns (pc: nat)
    requires StmtStands(fn, s, at, x) && StmtHasBreak(s) && x.InLoop?
    ensures at <= pc < at + StmtSize(s) && InstIs(fn, pc, Mir.Jump(x.out))
    decreases s, 0
  {
    hide TermsStand, Stands, Len, Size, HasBreak;
    match s
    case IfThen(c, thn) => pc := FindBreak(fn, thn, at + Len(c) + 1, x);
    case IfElse(c, thn, els) =>
      if HasBreak(thn) {
        pc := FindBreak(fn, thn, at + Len(c) + 1, x);
      } else {
        pc := FindBreak(fn, els, at + Len(c) + 1 + Size(thn) + 1, x);
      }
    case Break => pc := at;
  }

  /** Code without `break` does not depend on where `break` goes. */
  lemma {:induction false} Restand(fn: Mir.Function, code: seq<Stmt>, at: nat, x: Exits, y: Exits)
    requires Stands(fn, code, at, x) && !HasBreak(code) && x.InLoop? && y.InLoop? && x.next == y.next
    ensures Stands(fn, code, at, y)
    decreases code, 1
  {
    hide StmtStands, StmtHasBreak;
    if code != [] {
      RestandStmt(fn, code[0], at, x, y);
      Restand(fn, code[1..], at + StmtSize(code[0]), x, y);
    }
  }

  lemma {:induction false} RestandStmt(fn: Mir.Function, s: Stmt, at: nat, x: Exits, y: Exits)
    requires StmtStands(fn, s, at, x) && !StmtHasBreak(s) && x.InLoop? && y.InLoop? && x.next == y.next
    ensures StmtStands(fn, s, at, y)
    decreases s, 0
  {
    hide TermsStand, Stands, Len, Size, HasBreak;
    match s
    case IfThen(c, thn) => Restand(fn, thn, at + Len(c) + 1, x, y);
    case IfElse(c, thn, els) =>
      Restand(fn, thn, at + Len(c) + 1, x, y);
      Restand(fn, els, at + Len(c) + 1 + Size(thn) + 1, x, y);
    case _ =>
  }
}
