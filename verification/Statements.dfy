/**
 * Which statements are emitted, said of the statements alone, and what their flat code looks like: where its
 * jumps go, where ways meet in it, and what it ends in.
 */
module Statements {
  import opened Words
  import opened StackMap
  import opened Emitter
  import opened Recognition
  import opened Structured
  import opened Expressions
  import Mir

  // ---- what is emitted ------------------------------------------------------------------------

  function Max(a: nat, b: nat): nat { if a > b then a else b }

  predicate HasLoop(code: seq<Stmt>) {
    code != [] && (StmtHasLoop(code[0]) || HasLoop(code[1..]))
  }

  predicate StmtHasLoop(s: Stmt) {
    match s
    case IfThen(_, thn) => HasLoop(thn)
    case IfElse(_, thn, els) => HasLoop(thn) || HasLoop(els)
    case While(_, _, _) => true
    case Forever(_) => true
    case _ => false
  }

  /** A `continue` of the loop around the statements, not of one inside them. */
  predicate HasContinue(code: seq<Stmt>) {
    code != [] && (StmtHasContinue(code[0]) || HasContinue(code[1..]))
  }

  predicate StmtHasContinue(s: Stmt) {
    match s
    case IfThen(_, thn) => HasContinue(thn)
    case IfElse(_, thn, els) => HasContinue(thn) || HasContinue(els)
    case Continue => true
    case _ => false
  }

  /** A `break` of the loop around the statements. */
  predicate HasBreak(code: seq<Stmt>) {
    code != [] && (StmtHasBreak(code[0]) || HasBreak(code[1..]))
  }

  predicate StmtHasBreak(s: Stmt) {
    match s
    case IfThen(_, thn) => HasBreak(thn)
    case IfElse(_, thn, els) => HasBreak(thn) || HasBreak(els)
    case Break => true
    case _ => false
  }

  /** The last instruction is a `continue`. */
  predicate EndsInContinue(code: seq<Stmt>) {
    code != [] && if Size(code[1..]) > 0 then EndsInContinue(code[1..]) else StmtEndsInContinue(code[0])
  }

  predicate StmtEndsInContinue(s: Stmt) {
    match s
    case IfThen(_, thn) => EndsInContinue(thn)
    case IfElse(_, _, els) => EndsInContinue(els)
    case Continue => true
    case _ => false
  }

  /** Somewhere, an `if` of more than one instruction ends in `continue`. */
  predicate IfEndsInContinue(code: seq<Stmt>) {
    code != [] && (StmtIfEndsInContinue(code[0]) || IfEndsInContinue(code[1..]))
  }

  predicate StmtIfEndsInContinue(s: Stmt) {
    match s
    case IfThen(_, thn) => (Size(thn) > 1 && EndsInContinue(thn)) || IfEndsInContinue(thn)
    case IfElse(_, thn, els) => IfEndsInContinue(thn) || IfEndsInContinue(els)
    case _ => false
  }

  // A loop that begins where the endless loop around it does has the same header. It is not recognised
  // as a loop of its own, and its jumps back are those of the endless loop.

  /** There are loops, other than endless or empty ones that begin where the statements do. */
  predicate LeadHasLoop(code: seq<Stmt>) {
    code != [] &&
    if StmtSize(code[0]) == 0 then LeadHasLoop(code[1..]) else LeadStmtHasLoop(code[0]) || HasLoop(code[1..])
  }

  predicate LeadStmtHasLoop(s: Stmt) {
    match s
    case While(_, body, post) => Size(body) + Len(post) > 0
    case Forever(body) => LeadHasLoop(body)
    case _ => StmtHasLoop(s)
  }

  predicate LeadIfEnds(code: seq<Stmt>) {
    code != [] &&
    if StmtSize(code[0]) == 0 then LeadIfEnds(code[1..]) else LeadStmtIfEnds(code[0]) || IfEndsInContinue(code[1..])
  }

  predicate LeadStmtIfEnds(s: Stmt) {
    match s
    case Forever(body) => LeadIfEnds(body)
    case _ => StmtIfEndsInContinue(s)
  }

  /** The last place in an expression where two ways meet, behind an operator, if it is behind `best`. */
  function TermsMeet(terms: seq<Term>, at: nat, best: nat): (r: nat)
    ensures best <= r <= Max(best, at + Len(terms))
  {
    if terms == [] then best
    else
      var mid := at + TermLen(terms[0]);
      TermsMeet(terms[1..], mid, if terms[0].Op? then best else Max(best, mid))
  }

  /** The last place before `exit` where a jump goes forward to: behind an operator, an `if` with `else` or
      an inner loop that is left, and the step of a loop that is continued. */
  function Meet(code: seq<Stmt>, at: nat, x: Exits, exit: nat, best: nat): nat {
    if code == [] then best
    else Meet(code[1..], at + StmtSize(code[0]), x, exit, StmtMeet(code[0], at, x, exit, best))
  }

  function StmtMeet(s: Stmt, at: nat, x: Exits, exit: nat, best: nat): nat {
    var end := at + StmtSize(s);
    match s
    case Eval(terms) => TermsMeet(terms, at, best)
    case IfThen(c, thn) => Meet(thn, at + Len(c) + 1, x, exit, TermsMeet(c, at, best))
    case IfElse(c, thn, els) =>
      var m := Meet(thn, at + Len(c) + 1, x, exit, TermsMeet(c, at, best));
      Meet(els, at + Len(c) + 1 + Size(thn) + 1, x, exit, Max(m, end))
    case While(c, body, post) =>
      var start := at + Len(c) + 1;
      TermsMeet(post, start + Size(body), Meet(body, start, WhileExits(s, at), exit, TermsMeet(c, at, best)))
    case Forever(body) => Meet(body, at, InLoop(at, end), exit, best)
    case Break => if x.InLoop? && at < x.out < exit then Max(best, x.out) else best
    case Continue => if x.InLoop? && at < x.next < exit then Max(best, x.next) else best
  }

  /** `mark` is the place that the emitter has a label for `continue` for. */
  predicate Fits(code: seq<Stmt>, at: nat, x: Exits, mark: Option<nat>)
    decreases code, 2
  {
    code == [] || (StmtFits(code[0], at, x, mark) && Fits(code[1..], at + StmtSize(code[0]), x, mark))
  }

  predicate StmtFits(s: Stmt, at: nat, x: Exits, mark: Option<nat>)
    decreases s, 1
  {
    var end := at + StmtSize(s);
    match s
    case Eval(terms) => TermsFit(terms)
    case IfThen(c, thn) => TermsFit(c) && Size(thn) > 0 && Fits(thn, at + Len(c) + 1, x, mark)
    case IfElse(c, thn, els) =>
      && TermsFit(c) && Fits(thn, at + Len(c) + 1, x, mark) && Fits(els, at + Len(c) + 1 + Size(thn) + 1, x, mark)
      && (Size(els) > 0 || mark == Some(end))
    case While(c, body, post) =>
      if mark == Some(at) then TermsFit(c) && Size(body) + Len(post) == 0
      else TermsFit(c) && Straight(post) && Size(body) + Len(post) > 0 && BodyFits(s, at)
    case Forever(body) =>
      if mark == Some(at) then OpenFits(body, at, x, mark)
      else Size(body) > 0 && !LeadHasLoop(body) && !LeadIfEnds(body) && Fits(body, at, InLoop(at, end), Some(at))
    case Break => true
    case Continue => x.InLoop? && mark == Some(x.next)
  }

  /** The body of an endless loop that begins where another one does. The emitter has no label for its end, so
      `break` must be the last of an `if` of the body: what follows is then taken for the `else`. */
  predicate OpenFits(code: seq<Stmt>, at: nat, x: Exits, mark: Option<nat>)
    decreases code, 2
  {
    code == [] ||
    (OpenFits(code[1..], at + StmtSize(code[0]), x, mark) &&
     if !StmtHasBreak(code[0]) then StmtFits(code[0], at, x, mark)
     else
       code[0].IfThen? && TermsFit(code[0].cond) && BreakFits(code[0].thn, at + Len(code[0].cond) + 1, x, mark))
  }

  /** Statements of which the last one, and no other, is a `break`. */
  predicate BreakFits(code: seq<Stmt>, at: nat, x: Exits, mark: Option<nat>)
    decreases code, 2
  {
    code != [] &&
    if code[0].Break? then Size(code[1..]) == 0
    else
      !StmtHasBreak(code[0]) && StmtFits(code[0], at, x, mark)
      && BreakFits(code[1..], at + StmtSize(code[0]), x, mark)
  }

  /** The last meeting place in the body of a loop, if there is one, must lie between whole statements of the
      body. In front of it, `continue` is taken to go there; behind it, to the condition. */
  predicate BodyFits(s: Stmt, at: nat)
    requires s.While?
    decreases s, 0
  {
    var start, end, x := at + Len(s.cond) + 1, at + StmtSize(s), WhileExits(s, at);
    var meet := Meet(s.body, start, x, end, 0);
    if meet == 0 || meet == end - 1 then Fits(s.body, start, x, Some(at)) else CutFits(s.body, start, x, at, meet)
  }

  predicate CutFits(code: seq<Stmt>, at: nat, x: Exits, header: nat, meet: nat)
    decreases code, 3
  {
    if at == meet then Fits(code, at, x, Some(header))
    else
      code != [] && StmtFits(code[0], at, x, Some(meet))
      && CutFits(code[1..], at + StmtSize(code[0]), x, header, meet)
  }

  /** `meet` is between two statements of the list, or at an end of it. */
  predicate Between(code: seq<Stmt>, at: nat, meet: nat) {
    at == meet || (code != [] && Between(code[1..], at + StmtSize(code[0]), meet))
  }

  // ---- no operands are pending between statements -------------------------------------------------

  predicate NonePending(k: seq<Kinds>, pc: nat) {
    pc < |k| && k[pc] == []
  }

  ghost predicate Settled(k: seq<Kinds>, code: seq<Stmt>, at: nat) {
    && NonePending(k, at)
    && (code != [] ==> StmtSettled(k, code[0], at) && Settled(k, code[1..], at + StmtSize(code[0])))
  }

  ghost predicate StmtSettled(k: seq<Kinds>, s: Stmt, at: nat) {
    match s
    case IfThen(c, thn) => Settled(k, thn, at + Len(c) + 1)
    case IfElse(c, thn, els) =>
      Settled(k, thn, at + Len(c) + 1) && Settled(k, els, at + Len(c) + 1 + Size(thn) + 1)
    case While(c, body, post) => Settled(k, body, at + Len(c) + 1) && NonePending(k, at + StmtSize(s) - 1)
    case Forever(body) => Settled(k, body, at) && NonePending(k, at + StmtSize(s) - 1)
    case _ => true
  }

  lemma {:induction false} SettledEnd(k: seq<Kinds>, code: seq<Stmt>, at: nat)
    requires Settled(k, code, at)
    ensures at + Size(code) < |k| && k[at + Size(code)] == []
    decreases code
  {
    if code != [] {
      SettledEnd(k, code[1..], at + StmtSize(code[0]));
    }
  }

  // ---- jumps in statements ----------------------------------------------------------------------

  /** A jump is one of an operator, or is taken with no operands: forward, back if there is a loop, or out. */
  ghost predicate CodeJump(fn: Mir.Function, k: seq<Kinds>, lo: nat, hi: nat, x: Exits, loops: bool, cont: bool,
      pc: nat)
    requires pc < |fn.insts| && |k| == |fn.insts| + 1
  {
    match fn.insts[pc]
    case Jump(d) =>
      || (pc < d <= hi && InstIs(fn, d - 1, Mir.PushBool(false)))
      || (k[pc] == [] && lo <= d <= hi && (loops || pc < d))
      || (k[pc] == [] && x.InLoop? && (d == x.out || (cont && d == x.next)))
    case JumpIfFalse(d) => pc < d <= hi
    case _ => true
  }

  ghost predicate CodeJumps(fn: Mir.Function, k: seq<Kinds>, a: nat, b: nat, lo: nat, hi: nat, x: Exits, loops: bool,
      cont: bool)
    requires |k| == |fn.insts| + 1
  {
    forall pc :: a <= pc < b && pc < |fn.insts| ==> CodeJump(fn, k, lo, hi, x, loops, cont, pc)
  }

  lemma JumpsWiden(fn: Mir.Function, k: seq<Kinds>, a: nat, b: nat, lo: nat, hi: nat, x: Exits, loops: bool, cont: bool,
      lo2: nat, hi2: nat, loops2: bool, cont2: bool)
    requires |k| == |fn.insts| + 1 && CodeJumps(fn, k, a, b, lo, hi, x, loops, cont)
    requires lo2 <= lo && hi <= hi2 && (loops ==> loops2) && (cont ==> cont2)
    ensures CodeJumps(fn, k, a, b, lo2, hi2, x, loops2, cont2)
  {
    forall pc | a <= pc < b && pc < |fn.insts|
      ensures CodeJump(fn, k, lo2, hi2, x, loops2, cont2, pc)
    {
      assert CodeJump(fn, k, lo, hi, x, loops, cont, pc);
    }
  }

  /** The jumps out of a loop stay in what surrounds it. */
  lemma JumpsOfLoop(fn: Mir.Function, k: seq<Kinds>, a: nat, b: nat, lo: nat, hi: nat, y: Exits, loops: bool,
      cont: bool,
      x: Exits, lo2: nat, hi2: nat, cont2: bool)
    requires |k| == |fn.insts| + 1 && CodeJumps(fn, k, a, b, lo, hi, y, loops, cont)
    requires lo2 <= lo && hi <= hi2 && y.InLoop? && lo2 <= y.next <= hi2 && lo2 <= y.out <= hi2
    ensures CodeJumps(fn, k, a, b, lo2, hi2, x, true, cont2)
  {
    forall pc | a <= pc < b && pc < |fn.insts|
      ensures CodeJump(fn, k, lo2, hi2, x, true, cont2, pc)
    {
      assert CodeJump(fn, k, lo, hi, y, loops, cont, pc);
    }
  }

  lemma JumpsMeet(fn: Mir.Function, k: seq<Kinds>, a: nat, b: nat, c: nat, lo: nat, hi: nat, x: Exits, loops: bool,
      cont: bool)
    requires |k| == |fn.insts| + 1
    requires CodeJumps(fn, k, a, b, lo, hi, x, loops, cont) && CodeJumps(fn, k, b, c, lo, hi, x, loops, cont)
    ensures CodeJumps(fn, k, a, c, lo, hi, x, loops, cont)
  {
    hide CodeJump;
  }

  lemma JumpsOfTerms(fn: Mir.Function, k: seq<Kinds>, terms: seq<Term>, at: nat, lo: nat, hi: nat, x: Exits,
      loops: bool,
      cont: bool)
    requires |k| == |fn.insts| + 1 && TermsStand(fn, terms, at) && lo <= at && at + Len(terms) <= hi
    ensures CodeJumps(fn, k, at, at + Len(terms), lo, hi, x, loops, cont)
  {
    TermsJumps(fn, terms, at);
    forall pc | at <= pc < at + Len(terms) && pc < |fn.insts|
      ensures CodeJump(fn, k, lo, hi, x, loops, cont, pc)
    {
      assert TermJump(fn, at + Len(terms), pc);
    }
  }

  lemma JumpsOfOne(fn: Mir.Function, k: seq<Kinds>, pc: nat, lo: nat, hi: nat, x: Exits, loops: bool, cont: bool)
    requires |k| == |fn.insts| + 1 && pc < |fn.insts| && CodeJump(fn, k, lo, hi, x, loops, cont, pc)
    ensures CodeJumps(fn, k, pc, pc + 1, lo, hi, x, loops, cont)
  {
    hide CodeJump;
  }

  lemma {:induction false} JumpsOfCode(fn: Mir.Function, k: seq<Kinds>, code: seq<Stmt>, at: nat, x: Exits)
    requires |k| == |fn.insts| + 1 && Stands(fn, code, at, x) && Settled(k, code, at)
    ensures at + Size(code) <= |fn.insts|
    ensures CodeJumps(fn, k, at, at + Size(code), at, at + Size(code), x, HasLoop(code), HasContinue(code))
    decreases code, 2
  {
    hide CodeJumps, StmtHasLoop, StmtHasContinue, StmtStands, StmtSettled;
    if code == [] {
      NoJumps(fn, k, at, x, HasLoop(code), HasContinue(code));
    } else {
      var mid, end := at + StmtSize(code[0]), at + Size(code);
      JumpsOfStmt(fn, k, code[0], at, x);
      JumpsOfCode(fn, k, code[1..], mid, x);
      JumpsWiden(fn, k, at, mid, at, mid, x, StmtHasLoop(code[0]), StmtHasContinue(code[0]),
                 at, end, HasLoop(code), HasContinue(code));
      JumpsWiden(fn, k, mid, end, mid, end, x, HasLoop(code[1..]), HasContinue(code[1..]),
                 at, end, HasLoop(code), HasContinue(code));
      JumpsMeet(fn, k, at, mid, end, at, end, x, HasLoop(code), HasContinue(code));
    }
  }

  lemma NoJumps(fn: Mir.Function, k: seq<Kinds>, at: nat, x: Exits, loops: bool, cont: bool)
    requires |k| == |fn.insts| + 1
    ensures CodeJumps(fn, k, at, at, at, at, x, loops, cont)
  {
  }

  lemma {:induction false} JumpsOfStmt(fn: Mir.Function, k: seq<Kinds>, s: Stmt, at: nat, x: Exits)
    requires |k| == |fn.insts| + 1 && StmtStands(fn, s, at, x) && StmtSettled(k, s, at) && at < |k| && k[at] == []
    ensures at + StmtSize(s) <= |fn.insts|
    ensures CodeJumps(fn, k, at, at + StmtSize(s), at, at + StmtSize(s), x, StmtHasLoop(s), StmtHasContinue(s))
    decreases s, 1
  {
    hide CodeJumps, Stands, TermsStand, HasLoop, HasContinue, Len, Size;
    var end := at + StmtSize(s);
    match s
    case Eval(terms) =>
      TermsJumps(fn, terms, at);
      JumpsOfTerms(fn, k, terms, at, at, end, x, false, false);
    case IfThen(_, _) => JumpsOfIf(fn, k, s, at, x);
    case IfElse(_, _, _) => JumpsOfIfElse(fn, k, s, at, x);
    case While(_, _, _) => JumpsOfWhile(fn, k, s, at, x);
    case Forever(body) =>
      JumpsOfCode(fn, k, body, at, InLoop(at, end));
      JumpsOfLoop(fn, k, at, end - 1, at, end - 1, InLoop(at, end), HasLoop(body), HasContinue(body), x, at, end,
        false);
        JumpsOfOne(fn, k, end - 1, at, end, x, true, false);
      JumpsMeet(fn, k, at, end - 1, end, at, end, x, true, false);
    case Break => JumpsOfOne(fn, k, at, at, end, x, false, false);
    case Continue => JumpsOfOne(fn, k, at, at, end, x, false, true);
  }

  lemma {:induction false} JumpsOfIf(fn: Mir.Function, k: seq<Kinds>, s: Stmt, at: nat, x: Exits)
    requires s.IfThen? && |k| == |fn.insts| + 1 && StmtStands(fn, s, at, x) && StmtSettled(k, s, at) && at < |k|
      && k[at] == []
    ensures at + StmtSize(s) <= |fn.insts|
    ensures CodeJumps(fn, k, at, at + StmtSize(s), at, at + StmtSize(s), x, StmtHasLoop(s), StmtHasContinue(s))
    decreases s, 0
  {
    hide CodeJumps, Stands, TermsStand, HasLoop, HasContinue, Len, Size;
    var b, end := at + Len(s.cond), at + StmtSize(s);
    var loops, cont := HasLoop(s.thn), HasContinue(s.thn);
    JumpsOfTerms(fn, k, s.cond, at, at, end, x, loops, cont);
    JumpsOfOne(fn, k, b, at, end, x, loops, cont);
    JumpsOfCode(fn, k, s.thn, b + 1, x);
    JumpsWiden(fn, k, b + 1, end, b + 1, end, x, loops, cont, at, end, loops, cont);
    JumpsMeet(fn, k, at, b, b + 1, at, end, x, loops, cont);
    JumpsMeet(fn, k, at, b + 1, end, at, end, x, loops, cont);
  }

  lemma {:induction false} JumpsOfIfElse(fn: Mir.Function, k: seq<Kinds>, s: Stmt, at: nat, x: Exits)
    requires s.IfElse? && |k| == |fn.insts| + 1 && StmtStands(fn, s, at, x) && StmtSettled(k, s, at) && at < |k|
      && k[at] == []
    ensures at + StmtSize(s) <= |fn.insts|
    ensures CodeJumps(fn, k, at, at + StmtSize(s), at, at + StmtSize(s), x, StmtHasLoop(s), StmtHasContinue(s))
    decreases s, 0
  {
    hide CodeJumps, Stands, TermsStand, HasLoop, HasContinue, Len, Size, Settled;
    var b, end := at + Len(s.cond), at + StmtSize(s);
    var e := b + 1 + Size(s.thn) + 1;
    var loops, cont := StmtHasLoop(s), StmtHasContinue(s);
    JumpsOfTerms(fn, k, s.cond, at, at, end, x, loops, cont);
    JumpsOfOne(fn, k, b, at, end, x, loops, cont);
    JumpsOfCode(fn, k, s.thn, b + 1, x);
    JumpsWiden(fn, k, b + 1, e - 1, b + 1, e - 1, x, HasLoop(s.thn), HasContinue(s.thn), at, end, loops, cont);
    SettledEnd(k, s.thn, b + 1);
    JumpsOfOne(fn, k, e - 1, at, end, x, loops, cont);
    JumpsOfCode(fn, k, s.els, e, x);
    JumpsWiden(fn, k, e, end, e, end, x, HasLoop(s.els), HasContinue(s.els), at, end, loops, cont);
    JumpsMeet(fn, k, at, b, b + 1, at, end, x, loops, cont);
    JumpsMeet(fn, k, at, b + 1, e - 1, at, end, x, loops, cont);
    JumpsMeet(fn, k, at, e - 1, e, at, end, x, loops, cont);
    JumpsMeet(fn, k, at, e, end, at, end, x, loops, cont);
  }

  lemma {:induction false} JumpsOfWhile(fn: Mir.Function, k: seq<Kinds>, s: Stmt, at: nat, x: Exits)
    requires s.While? && |k| == |fn.insts| + 1 && StmtStands(fn, s, at, x) && StmtSettled(k, s, at) && at < |k|
      && k[at] == []
    ensures at + StmtSize(s) <= |fn.insts|
    ensures CodeJumps(fn, k, at, at + StmtSize(s), at, at + StmtSize(s), x, true, false)
    decreases s, 0
  {
    hide CodeJumps, Stands, TermsStand, HasLoop, HasContinue, Len, Size;
    var b, end := at + Len(s.cond), at + StmtSize(s);
    var p := b + 1 + Size(s.body);
    JumpsOfTerms(fn, k, s.cond, at, at, end, x, true, false);
    JumpsOfOne(fn, k, b, at, end, x, true, false);
    JumpsOfCode(fn, k, s.body, b + 1, WhileExits(s, at));
    JumpsOfLoop(fn, k, b + 1, p, b + 1, p, WhileExits(s, at), HasLoop(s.body), HasContinue(s.body), x, at, end, false);
    JumpsOfTerms(fn, k, s.post, p, at, end, x, true, false);
    JumpsOfOne(fn, k, end - 1, at, end, x, true, false);
    JumpsMeet(fn, k, at, b, b + 1, at, end, x, true, false);
    JumpsMeet(fn, k, at, b + 1, p, at, end, x, true, false);
    JumpsMeet(fn, k, at, p, end - 1, at, end, x, true, false);
    JumpsMeet(fn, k, at, end - 1, end, at, end, x, true, false);
  }

  // ---- where ways meet --------------------------------------------------------------------------

  lemma ScanOne(fn: Mir.Function, pc: nat, exit: nat, best: nat)
    requires pc + 1 < exit <= |fn.insts|
    ensures LastForwardTarget(fn, pc, exit, best)
         == LastForwardTarget(fn, pc + 1, exit,
              if fn.insts[pc].Jump? && pc < fn.insts[pc].dest < exit then Max(best, fn.insts[pc].dest) else best)
  {
  }

  /** Jumps that go no further than what is known already do not matter. */
  lemma {:induction false} ScanTerms(fn: Mir.Function, terms: seq<Term>, at: nat, exit: nat, best: nat)
    requires TermsStand(fn, terms, at) && at + Len(terms) < exit <= |fn.insts|
    ensures LastForwardTarget(fn, at, exit, best)
      == LastForwardTarget(fn, at + Len(terms), exit, TermsMeet(terms, at, best))
    decreases terms, 1
  {
    hide LastForwardTarget, TermStands;
    if terms != [] {
      var mid := at + TermLen(terms[0]);
      ScanTerm(fn, terms[0], at, exit, best);
      ScanTerms(fn, terms[1..], mid, exit, if terms[0].Op? then best else Max(best, mid));
    }
  }

  lemma {:induction false} ScanTerm(fn: Mir.Function, x: Term, at: nat, exit: nat, best: nat)
    requires TermStands(fn, x, at) && at + TermLen(x) < exit <= |fn.insts|
    ensures LastForwardTarget(fn, at, exit, best)
         == LastForwardTarget(fn, at + TermLen(x), exit, if x.Op? then best else Max(best, at + TermLen(x)))
    decreases x, 0
  {
    hide LastForwardTarget, TermsStand, Len, DiamondEnds, TermsMeet;
    match x
    case Op(_) => ScanOne(fn, at, exit, best);
    case And(l, r) =>
      var b, f := at + Len(l), at + TermLen(x) - 1;
      var m := TermsMeet(l, at, best);
      var n := TermsMeet(r, b + 1, m);
      ScanTerms(fn, l, at, exit, best);
      ScanOne(fn, b, exit, m);
      ScanTerms(fn, r, b + 1, exit, m);
      ScanEnd(fn, f, exit, n);
      assert Max(n, f + 1) == Max(best, f + 1);
    case Or(l, r) =>
      var b, f := at + Len(l), at + TermLen(x) - 1;
      var m := TermsMeet(l, at, best);
      var n := TermsMeet(r, b + 3, Max(m, f + 1));
      ScanTerms(fn, l, at, exit, best);
      ScanTruth(fn, b, f, exit, m);
      ScanTerms(fn, r, b + 3, exit, Max(m, f + 1));
      ScanEnd(fn, f, exit, n);
      assert Max(n, f + 1) == Max(best, f + 1);
  }

  lemma ScanTruth(fn: Mir.Function, b: nat, f: nat, exit: nat, best: nat)
    requires InstIs(fn, b, Mir.JumpIfFalse(b + 3)) && InstIs(fn, b + 1, Mir.PushBool(true))
    requires InstIs(fn, b + 2, Mir.Jump(f + 1)) && b + 2 < f + 1 < exit <= |fn.insts|
    ensures LastForwardTarget(fn, b, exit, best) == LastForwardTarget(fn, b + 3, exit, Max(best, f + 1))
  {
    hide LastForwardTarget;
    ScanOne(fn, b, exit, best); ScanOne(fn, b + 1, exit, best); ScanOne(fn, b + 2, exit, best);
  }

  lemma ScanEnd(fn: Mir.Function, f: nat, exit: nat, best: nat)
    requires DiamondEnds(fn, f) && f + 1 < exit <= |fn.insts|
    ensures LastForwardTarget(fn, f - 3, exit, best) == LastForwardTarget(fn, f + 1, exit, Max(best, f + 1))
  {
    hide LastForwardTarget;
    ScanOne(fn, f - 3, exit, best); ScanOne(fn, f - 2, exit, best);
    ScanOne(fn, f - 1, exit, best); ScanOne(fn, f, exit, Max(best, f + 1));
  }

  lemma {:induction false} ScanCode(fn: Mir.Function, code: seq<Stmt>, at: nat, x: Exits, exit: nat, best: nat)
    requires Stands(fn, code, at, x) && at + Size(code) < exit <= |fn.insts|
    ensures LastForwardTarget(fn, at, exit, best)
      == LastForwardTarget(fn, at + Size(code), exit, Meet(code, at, x, exit, best))
    decreases code, 2
  {
    hide LastForwardTarget, StmtMeet;
    if code != [] {
      ScanStmt(fn, code[0], at, x, exit, best);
      ScanCode(fn, code[1..], at + StmtSize(code[0]), x, exit, StmtMeet(code[0], at, x, exit, best));
    }
  }

  lemma {:induction false} ScanStmt(fn: Mir.Function, s: Stmt, at: nat, x: Exits, exit: nat, best: nat)
    requires StmtStands(fn, s, at, x) && at + StmtSize(s) < exit <= |fn.insts|
    ensures LastForwardTarget(fn, at, exit, best)
         == LastForwardTarget(fn, at + StmtSize(s), exit, StmtMeet(s, at, x, exit, best))
    decreases s, 1
  {
    hide LastForwardTarget, TermsStand, Len, Stands, Size, Meet, TermsMeet;
    var end := at + StmtSize(s);
    match s
    case Eval(terms) => ScanTerms(fn, terms, at, exit, best);
    case IfThen(c, thn) =>
      var m := TermsMeet(c, at, best);
      ScanTerms(fn, c, at, exit, best);
      ScanOne(fn, at + Len(c), exit, m);
      ScanCode(fn, thn, at + Len(c) + 1, x, exit, m);
    case IfElse(_, _, _) => ScanIfElse(fn, s, at, x, exit, best);
    case While(_, _, _) => ScanWhile(fn, s, at, x, exit, best);
    case Forever(body) =>
      var m := Meet(body, at, InLoop(at, end), exit, best);
      ScanCode(fn, body, at, InLoop(at, end), exit, best);
      ScanOne(fn, end - 1, exit, m);
    case Break => ScanOne(fn, at, exit, best);
    case Continue => ScanOne(fn, at, exit, best);
  }

  lemma {:induction false} ScanIfElse(fn: Mir.Function, s: Stmt, at: nat, x: Exits, exit: nat, best: nat)
    requires s.IfElse? && StmtStands(fn, s, at, x) && at + StmtSize(s) < exit <= |fn.insts|
    ensures LastForwardTarget(fn, at, exit, best)
         == LastForwardTarget(fn, at + StmtSize(s), exit, StmtMeet(s, at, x, exit, best))
    decreases s, 0
  {
    hide LastForwardTarget, TermsStand, Len, Stands, Size, Meet, TermsMeet;
    var b, end := at + Len(s.cond), at + StmtSize(s);
    var e := b + 1 + Size(s.thn) + 1;
    var m := TermsMeet(s.cond, at, best);
    var n := Meet(s.thn, b + 1, x, exit, m);
    ScanTerms(fn, s.cond, at, exit, best);
    ScanOne(fn, b, exit, m);
    ScanCode(fn, s.thn, b + 1, x, exit, m);
    ScanOne(fn, e - 1, exit, n);
    ScanCode(fn, s.els, e, x, exit, Max(n, end));
  }

  lemma {:induction false} ScanWhile(fn: Mir.Function, s: Stmt, at: nat, x: Exits, exit: nat, best: nat)
    requires s.While? && StmtStands(fn, s, at, x) && at + StmtSize(s) < exit <= |fn.insts|
    ensures LastForwardTarget(fn, at, exit, best)
         == LastForwardTarget(fn, at + StmtSize(s), exit, StmtMeet(s, at, x, exit, best))
    decreases s, 0
  {
    hide LastForwardTarget, TermsStand, Len, Stands, Size, Meet, TermsMeet, WhileExits;
    var b, end := at + Len(s.cond), at + StmtSize(s);
    var p := b + 1 + Size(s.body);
    var m := TermsMeet(s.cond, at, best);
    var n := Meet(s.body, b + 1, WhileExits(s, at), exit, m);
    ScanTerms(fn, s.cond, at, exit, best);
    ScanOne(fn, b, exit, m);
    ScanCode(fn, s.body, b + 1, WhileExits(s, at), exit, m);
    ScanTerms(fn, s.post, p, exit, n);
    ScanOne(fn, end - 1, exit, TermsMeet(s.post, p, n));
  }

  /** A meeting place is one known before, or in the statements, or one of their exits. */
  predicate MeetsBy(m: nat, end: nat, x: Exits, exit: nat, cont: bool, best: nat) {
    best <= m && (m <= best || m <= end || (x.InLoop? && ((x.out < exit && m <= x.out) || (cont && m <= x.next))))
  }

  lemma MeetsInTurn(m: nat, n: nat, mid: nat, end: nat, x: Exits, exit: nat, cont1: bool, cont2: bool, best: nat)
    requires MeetsBy(m, mid, x, exit, cont1, best) && MeetsBy(n, end, x, exit, cont2, m) && mid <= end
    ensures MeetsBy(n, end, x, exit, cont1 || cont2, best)
  {
  }

  lemma {:induction false} MeetBounds(code: seq<Stmt>, at: nat, x: Exits, exit: nat, best: nat)
    ensures MeetsBy(Meet(code, at, x, exit, best), at + Size(code), x, exit, HasContinue(code), best)
    decreases code, 1
  {
    hide StmtMeet, StmtHasContinue, MeetsBy;
    if code == [] {
      NoneMeet(at, x, exit, best);
    } else {
      var mid := at + StmtSize(code[0]);
      var m := StmtMeet(code[0], at, x, exit, best);
      StmtMeetBounds(code[0], at, x, exit, best);
      MeetBounds(code[1..], mid, x, exit, m);
      MeetsInTurn(m, Meet(code[1..], mid, x, exit, m), mid, at + Size(code), x, exit,
                  StmtHasContinue(code[0]), HasContinue(code[1..]), best);
    }
  }

  lemma NoneMeet(at: nat, x: Exits, exit: nat, best: nat)
    ensures MeetsBy(best, at, x, exit, false, best)
  {
  }

  lemma TermsMeetBy(terms: seq<Term>, at: nat, end: nat, x: Exits, exit: nat, best: nat)
    requires at + Len(terms) <= end
    ensures MeetsBy(TermsMeet(terms, at, best), end, x, exit, false, best)
  {
  }

  lemma MeetsWiden(m: nat, end: nat, x: Exits, exit: nat, cont: bool, best: nat, end2: nat)
    requires MeetsBy(m, end, x, exit, cont, best) && end <= end2
    ensures MeetsBy(m, end2, x, exit, cont, best)
  {
  }

  lemma MeetsInside(m: nat, end: nat, y: Exits, exit: nat, cont: bool, best: nat, end2: nat, x: Exits)
    requires MeetsBy(m, end, y, exit, cont, best) && y.InLoop? && end <= end2 && y.next <= end2 && y.out <= end2
    ensures MeetsBy(m, end2, x, exit, false, best)
  {
  }

  lemma MaxMeets(m: nat, end: nat, x: Exits, exit: nat)
    ensures MeetsBy(Max(m, end), end, x, exit, false, m)
  {
  }

  lemma {:induction false} StmtMeetBounds(s: Stmt, at: nat, x: Exits, exit: nat, best: nat)
    ensures MeetsBy(StmtMeet(s, at, x, exit, best), at + StmtSize(s), x, exit, StmtHasContinue(s), best)
    decreases s, 0
  {
    hide Meet, HasContinue, Len, Size, MeetsBy, TermsMeet, Max;
    var end := at + StmtSize(s);
    match s
    case Eval(terms) => TermsMeetBy(terms, at, end, x, exit, best);
    case IfThen(c, thn) =>
      var b, m := at + Len(c), TermsMeet(c, at, best);
      TermsMeetBy(c, at, b, x, exit, best);
      MeetBounds(thn, b + 1, x, exit, m);
      MeetsInTurn(m, Meet(thn, b + 1, x, exit, m), b, end, x, exit, false, HasContinue(thn), best);
    case IfElse(c, thn, els) =>
      var b, m := at + Len(c), TermsMeet(c, at, best);
      var n := Meet(thn, b + 1, x, exit, m);
      var e := b + 1 + Size(thn) + 1;
      var o := Meet(els, e, x, exit, Max(n, end));
      TermsMeetBy(c, at, b, x, exit, best);
      MeetBounds(thn, b + 1, x, exit, m);
      MeetsInTurn(m, n, b, e - 1, x, exit, false, HasContinue(thn), best);
      MaxMeets(n, end, x, exit);
      MeetsInTurn(n, Max(n, end), e - 1, end, x, exit, HasContinue(thn), false, best);
      MeetBounds(els, e, x, exit, Max(n, end));
      MeetsInTurn(Max(n, end), o, end, end, x, exit, HasContinue(thn), HasContinue(els), best);
    case While(c, body, post) =>
      var b, m := at + Len(c), TermsMeet(c, at, best);
      var p, n := b + 1 + Size(body), Meet(body, b + 1, WhileExits(s, at), exit, m);
      TermsMeetBy(c, at, b, x, exit, best);
      MeetBounds(body, b + 1, WhileExits(s, at), exit, m);
      MeetsInside(n, p, WhileExits(s, at), exit, HasContinue(body), m, end, x);
      MeetsInTurn(m, n, b, end, x, exit, false, false, best);
      TermsMeetBy(post, p, end, x, exit, n);
      MeetsInTurn(n, TermsMeet(post, p, n), end, end, x, exit, false, false, best);
    case Forever(body) =>
      MeetBounds(body, at, InLoop(at, end), exit, best);
      MeetsInside(Meet(body, at, InLoop(at, end), exit, best), end - 1, InLoop(at, end), exit, HasContinue(body), best,
                  end, x);
    case Break => ExitMeets(at, x, exit, best);
    case Continue => ExitMeets(at, x, exit, best);
  }

  lemma ExitMeets(at: nat, x: Exits, exit: nat, best: nat)
    ensures MeetsBy(StmtMeet(Break, at, x, exit, best), at + 1, x, exit, false, best)
    ensures MeetsBy(StmtMeet(Continue, at, x, exit, best), at + 1, x, exit, true, best)
  {
  }

  /** The step of a loop that is continued is a meeting place. */
  lemma {:induction false} ContinueMeets(code: seq<Stmt>, at: nat, x: Exits, exit: nat, best: nat)
    requires x.InLoop? && HasContinue(code) && at + Size(code) <= x.next < exit
    ensures x.next <= Meet(code, at, x, exit, best)
    decreases code, 1
  {
    hide StmtMeet, StmtHasContinue;
    var mid := at + StmtSize(code[0]);
    var m := StmtMeet(code[0], at, x, exit, best);
    if StmtHasContinue(code[0]) {
      StmtContinueMeets(code[0], at, x, exit, best);
      MeetBounds(code[1..], mid, x, exit, m);
    } else {
      ContinueMeets(code[1..], mid, x, exit, m);
    }
  }

  lemma {:induction false} StmtContinueMeets(s: Stmt, at: nat, x: Exits, exit: nat, best: nat)
    requires x.InLoop? && StmtHasContinue(s) && at + StmtSize(s) <= x.next < exit
    ensures x.next <= StmtMeet(s, at, x, exit, best)
    decreases s, 0
  {
    hide Meet, HasContinue, Len, Size;
    var end := at + StmtSize(s);
    match s
    case IfThen(c, thn) => ContinueMeets(thn, at + Len(c) + 1, x, exit, TermsMeet(c, at, best));
    case IfElse(c, thn, els) =>
      var e, m := at + Len(c) + 1 + Size(thn) + 1, Meet(thn, at + Len(c) + 1, x, exit, TermsMeet(c, at, best));
      if HasContinue(thn) {
        ContinueMeets(thn, at + Len(c) + 1, x, exit, TermsMeet(c, at, best));
        MeetBounds(els, e, x, exit, Max(m, end));
      } else {
        ContinueMeets(els, e, x, exit, Max(m, end));
      }
    case Continue =>
  }
}
