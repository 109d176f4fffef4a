/**
 * Loops: when an endless loop is recognised at its own end, where a loop with a condition is cut, and the cuts
 * that make the emitter refuse.
 */
module LoopCuts {
  import opened Words
  import opened StackMap
  import opened Emitter
  import opened Recognition
  import opened Structured
  import opened Expressions
  import opened Statements
  import opened LoopShapes
  import opened Jumps
  import opened Tracking
  import opened Placement
  import Mir

  // ---- endless loops -------------------------------------------------------------------------------

  /** No jump behind the loop goes back to its header. */
  lemma NoLaterBack(fn: Mir.Function, t: Targets, at: nat, end: nat, e: nat, pc: nat)
    requires Quiet(fn, t, at, end, end, e) && at < end <= pc < e <= |fn.insts| && !ContinuesAt(t, at)
    ensures fn.insts[pc] != Mir.Jump(at)
  {
    assert QuietAt(fn, t, at, end, pc);
  }

  lemma EmptyForever(fn: Mir.Function, k: seq<Kinds>, t: Targets, s: Stmt, at: nat, e: nat, x: Exits, mark: Option<nat>)
    requires s.Forever? && StmtPlaced(fn, k, t, s, at, e, x, mark) && Size(s.body) == 0 && mark != Some(at)
    ensures EmitRange(fn, t, at, e, k[at]).Err?
  {
    hide Ready, Stands, Size, HasLoop, Settled, EmitRange, KindAt, Quiet;
    KindExactly(fn, t, at, e);
    JumpIsLeaf(fn, t, at, e);
    forall pc | at < pc < e
      ensures fn.insts[pc] != Mir.Jump(at)
    {
      NoLaterBack(fn, t, at, at + 1, e, pc);
    }
    StepOn(fn, t, at, e, k[at]);
  }

  lemma JumpIsLeaf(fn: Mir.Function, t: Targets, s: nat, e: nat)
    requires s < e <= |fn.insts| && fn.insts[s].Jump?
    ensures !KindAt(fn, t, s, e).AWhile? && !KindAt(fn, t, s, e).AForever? ==> KindAt(fn, t, s, e).ALeaf?
  {
  }

  /** An endless loop that is not recognised at its own end is refused. */
  lemma NotItsOwnEnd(fn: Mir.Function, k: seq<Kinds>, t: Targets, s: Stmt, at: nat, e: nat, x: Exits, mark: Option<nat>)
    requires s.Forever? && StmtPlaced(fn, k, t, s, at, e, x, mark) && Size(s.body) > 0 && mark != Some(at)
    requires KindAt(fn, t, at, e) != AForever(at + Size(s.body))
    ensures EmitRange(fn, t, at, e, k[at]).Err?
  {
    hide Ready, Stands, Size, HasLoop, Settled, EmitRange, KindAt, Quiet, CodeJumps;
    var b := at + Size(s.body);
    KindExactly(fn, t, at, e);
    var kind := KindAt(fn, t, at, e);
    if kind.AWhile? {
      ExitInside(fn, k, t, s, at, e, x, mark, kind.region.cond);
    } else if kind.AForever? && kind.backedge > b {
      NoLaterBack(fn, t, at, b + 1, e, kind.backedge);
    }
    RefusedToStart(fn, t, at, e, k[at], b);
  }

  lemma ExitInside(fn: Mir.Function, k: seq<Kinds>, t: Targets, s: Stmt, at: nat, e: nat, x: Exits, mark: Option<nat>,
      pc: nat)
    requires s.Forever? && StmtPlaced(fn, k, t, s, at, e, x, mark) && mark != Some(at)
    requires at <= pc && LeavesLoop(fn, at, e, pc)
    ensures fn.insts[pc].dest <= at + Size(s.body)
  {
    hide Ready, Stands, Size, HasLoop, Settled, Quiet, CodeJumps;
    var b := at + Size(s.body);
    var d := fn.insts[pc].dest;
    if d > b + 1 {
      NoLaterBack(fn, t, at, b + 1, e, d - 1);
    } else if d == b + 1 {
      JumpsOfCode(fn, k, s.body, at, InLoop(at, b + 1));
      JumpThere(fn, k, at, b, at, b, InLoop(at, b + 1), HasLoop(s.body), HasContinue(s.body), pc);
    }
  }

  lemma ForeverDisturbed(fn: Mir.Function, k: seq<Kinds>, t: Targets, s: Stmt, at: nat, e: nat, x: Exits,
      mark: Option<nat>)
    requires s.Forever? && StmtPlaced(fn, k, t, s, at, e, x, mark) && Size(s.body) > 0 && mark != Some(at)
    requires LeadHasLoop(s.body)
    ensures EmitRange(fn, t, at, e, k[at]).Err?
  {
    hide Ready, Stands, Size, LeadHasLoop, Settled, EmitRange, KindAt, Quiet;
    var b := at + Size(s.body);
    var pc := LeadInner(fn, s.body, at, InLoop(at, b + 1), e);
    KindExactly(fn, t, at, e);
    assert !LeavesLoop(fn, at, e, pc) ==> !StaysInLoop(fn, at, b, pc);
    NotItsOwnEnd(fn, k, t, s, at, e, x, mark);
  }

  lemma ForeverMisread(fn: Mir.Function, k: seq<Kinds>, t: Targets, s: Stmt, at: nat, e: nat, x: Exits,
      mark: Option<nat>)
    requires s.Forever? && StmtPlaced(fn, k, t, s, at, e, x, mark) && Size(s.body) > 0 && mark != Some(at)
    requires !LeadHasLoop(s.body) && LeadIfEnds(s.body)
    ensures EmitRange(fn, t, at, e, k[at]).Err?
  {
    hide Ready, Stands, Size, LeadHasLoop, Settled, EmitRange, KindAt, Quiet, LeavesLoop, LeadIfEnds;
    var b := at + Size(s.body);
    LeadLeaves(fn, s.body, at, InLoop(at, b + 1), e);
    KindExactly(fn, t, at, e);
    NotItsOwnEnd(fn, k, t, s, at, e, x, mark);
  }

  lemma ForeverKind(fn: Mir.Function, k: seq<Kinds>, t: Targets, s: Stmt, at: nat, e: nat, x: Exits, mark: Option<nat>)
    requires s.Forever? && StmtPlaced(fn, k, t, s, at, e, x, mark) && Size(s.body) > 0 && mark != Some(at)
    requires !LeadHasLoop(s.body) && !LeadIfEnds(s.body)
    ensures KindAt(fn, t, at, e) == AForever(at + Size(s.body))
  {
    hide Ready, Stands, Size, LeadHasLoop, Settled, EmitRange, KindAt, Quiet, LeadIfEnds, HasLoop, HasContinue;
    var b := at + Size(s.body);
    Lengths(fn, k);
    LeadLeaves(fn, s.body, at, InLoop(at, b + 1), e);
    LeadStays(fn, k, s.body, at, InLoop(at, b + 1), b);
    forall pc | at <= pc < e
      ensures !LeavesLoop(fn, at, e, pc)
    {
      if pc >= b && LeavesLoop(fn, at, e, pc) {
        NoLaterBack(fn, t, at, b + 1, e, fn.insts[pc].dest - 1);
      }
    }
    forall pc | b < pc < e
      ensures fn.insts[pc] != Mir.Jump(at)
    {
      NoLaterBack(fn, t, at, b + 1, e, pc);
    }
    EndlessRecognised(fn, t, at, b, e);
  }

  // ---- loops with a condition ----------------------------------------------------------------------

  /** The region of the loop `s` at `at`, cut at `tail`. */
  function RegionOf(s: Stmt, at: nat, tail: nat): (r: Region)
    requires s.While?
    ensures r.header == at && r.exit == at + StmtSize(s) && r.backedge + 1 == r.exit
  {
    var end := at + StmtSize(s);
    Region(at, at + Len(s.cond), tail, end - 1, end)
  }

  /** Where the emitter cuts the loop: at the last meeting place behind its condition. */
  function Tail(s: Stmt, at: nat): nat
    requires s.While?
  {
    var start, end := at + Len(s.cond) + 1, at + StmtSize(s);
    var meet := TermsMeet(s.post, start + Size(s.body), Meet(s.body, start, WhileExits(s, at), end, 0));
    if meet != 0 then meet else end - 1
  }

  lemma {:induction false} FoundAt(fn: Mir.Function, h: nat, e: nat, pc: nat, c: nat)
    requires pc <= c < e <= |fn.insts| && LeavesLoop(fn, h, e, c) && NoneLeaves(fn, h, e, pc, c)
    ensures var exit := fn.insts[c].dest;
      var last := LastForwardTarget(fn, c + 1, exit, 0);
      FindLoopFrom(fn, h, e, pc) == Some(Region(h, c, if last != 0 then last else exit - 1, exit - 1, exit))
    decreases c - pc
  {
    hide LastForwardTarget;
    if pc < c {
      assert !LeavesLoop(fn, h, e, pc);
      FoundAt(fn, h, e, pc + 1, c);
    }
  }

  lemma WhileKind(fn: Mir.Function, k: seq<Kinds>, t: Targets, s: Stmt, at: nat, e: nat, x: Exits, mark: Option<nat>)
    requires mark != Some(at)
    requires s.While? && StmtPlaced(fn, k, t, s, at, e, x, mark) && Size(s.body) + Len(s.post) > 0
    ensures KindAt(fn, t, at, e) == AWhile(RegionOf(s, at, Tail(s, at)))
    ensures LastForwardTarget(fn, at + Len(s.cond) + 1, at + StmtSize(s), 0)
         == TermsMeet(s.post, at + Len(s.cond) + 1 + Size(s.body),
                      Meet(s.body, at + Len(s.cond) + 1, WhileExits(s, at), at + StmtSize(s), 0))
  {
    hide Ready, TermsStand, Stands, Len, Size, HasLoop, HasContinue, Quiet, Settled, LastForwardTarget, NoneLeaves,
      Meet, TermsMeet, FindLoopFrom, WhileExits;
    var c, end := at + Len(s.cond), at + StmtSize(s);
    var p, x := c + 1 + Size(s.body), WhileExits(s, at);
    TermsLeaveNot(fn, s.cond, at, at, e);
    FoundAt(fn, at, e, at, c);
    ScanCode(fn, s.body, c + 1, x, end, 0);
    ScanTerms(fn, s.post, p, end, Meet(s.body, c + 1, x, end, 0));
    ScanDone(fn, end, TermsMeet(s.post, p, Meet(s.body, c + 1, x, end, 0)));
  }

  lemma ScanDone(fn: Mir.Function, exit: nat, best: nat)
    requires 0 < exit <= |fn.insts|
    ensures LastForwardTarget(fn, exit - 1, exit, best) == best
  {
  }

  /** How the verdict on a loop follows from those on its three ranges. */
  lemma WhileResult(fn: Mir.Function, r: Region, e: nat, ks: Kinds)
    requires e <= |fn.insts| && IsRegion(fn, r.header, e, r)
    ensures var c := EmitRange(fn, NO_TARGETS, r.header, r.cond, ks);
      && (c.Err? ==> EmitWhile(fn, r, e, ks).Err?)
      && (c.Ok? && c.stack == ks + [Mir.KI32] ==>
            var b := EmitRange(fn, BodyTargets(r), r.cond + 1, r.tail, ks);
            && (b.Err? ==> EmitWhile(fn, r, e, ks).Err?)
            && (b.Ok? && b.stack == ks ==>
                  var tl := EmitRange(fn, LoopTargets(r.header, r.exit), r.tail, r.backedge, ks);
                  && (tl.Err? ==> EmitWhile(fn, r, e, ks).Err?)
                  && (tl.Ok? && tl.stack == ks ==> EmitWhile(fn, r, e, ks).Ok? && EmitWhile(fn, r, e, ks).stack == ks)))
  {
    hide EmitRange;
    assert (ks + [Mir.KI32])[..|ks|] == ks;
  }

  /** A loop whose body and step are empty is taken for an endless loop, and refused. */
  lemma EmptyWhile(fn: Mir.Function, k: seq<Kinds>, t: Targets, s: Stmt, at: nat, e: nat, x: Exits, mark: Option<nat>)
    requires mark != Some(at)
    requires s.While? && StmtPlaced(fn, k, t, s, at, e, x, mark) && Size(s.body) + Len(s.post) == 0
    ensures EmitRange(fn, t, at, e, k[at]).Err?
  {
    hide Ready, TermsStand, Stands, Len, Size, HasLoop, HasContinue, Quiet, Settled, EmitRange, KindAt, NoneLeaves;
    var c, b := at + Len(s.cond), at + StmtSize(s) - 1;
    KindExactly(fn, t, at, e);
    var kind := KindAt(fn, t, at, e);
    if kind.AWhile? {
      NoExit(fn, k, t, s, at, e, x, mark, kind.region.cond);
    } else if kind.AForever? && kind.backedge > b {
      NoLaterBack(fn, t, at, b + 1, e, kind.backedge);
    }
    CondNotEmpty(fn, k, s.cond, at, b + 1);
    if kind == AForever(b) {
      RefusedBeyond(fn, LoopTargets(at, b + 1), at, b, k[at], c);
      ForeverRefused(fn, t, at, b, e, k[at]);
      StepOn(fn, t, at, e, k[at]);
    } else {
      RefusedToStart(fn, t, at, e, k[at], b);
    }
  }

  lemma ForeverRefused(fn: Mir.Function, t: Targets, h: nat, b: nat, e: nat, ks: Kinds)
    requires h < b < e <= |fn.insts| && KindAt(fn, t, h, e) == AForever(b)
    requires EmitRange(fn, LoopTargets(h, b + 1), h, b, ks).Err?
    ensures EmitConstruct(fn, t, h, e, ks).Fail?
  {
    hide EmitRange, KindAt;
  }

  lemma NoExit(fn: Mir.Function, k: seq<Kinds>, t: Targets, s: Stmt, at: nat, e: nat, x: Exits, mark: Option<nat>,
      pc: nat)
    requires mark != Some(at)
    requires s.While? && StmtPlaced(fn, k, t, s, at, e, x, mark) && Size(s.body) + Len(s.post) == 0 && at <= pc
    ensures !LeavesLoop(fn, at, e, pc)
  {
    hide Ready, TermsStand, Stands, Len, Size, HasLoop, HasContinue, Quiet, Settled;
    var c, end := at + Len(s.cond), at + StmtSize(s);
    TermsLeaveNot(fn, s.cond, at, at, e);
    if pc >= end && LeavesLoop(fn, at, e, pc) {
      NoLaterBack(fn, t, at, end, e, fn.insts[pc].dest - 1);
    }
  }

  /** A condition leaves something on the empty stack it starts from. */
  lemma CondNotEmpty(fn: Mir.Function, k: seq<Kinds>, c: seq<Term>, at: nat, f: nat)
    requires Ready(fn, k) && at < |k| && k[at] == [] && InstIs(fn, at + Len(c), Mir.JumpIfFalse(f))
    ensures Len(c) > 0
  {
    hide Ready;
    BranchKinds(fn, k, at + Len(c), f);
  }

  // ---- where a loop with a condition is cut --------------------------------------------------------

  lemma {:induction false} StraightMeets(terms: seq<Term>, at: nat, best: nat)
    requires Straight(terms)
    ensures TermsMeet(terms, at, best) == best
    decreases terms
  {
    if terms != [] {
      StraightMeets(terms[1..], at + 1, best);
    }
  }

  lemma {:induction false} OperatorMeets(terms: seq<Term>, at: nat, best: nat)
    requires !Straight(terms)
    ensures TermsMeet(terms, at, best) > at
    decreases terms
  {
    if terms[0].Op? {
      OperatorMeets(terms[1..], at + 1, best);
    }
  }

  lemma {:induction false} ScanFound(fn: Mir.Function, scan: nat, exit: nat, best: nat) returns (j: nat)
    requires exit <= |fn.insts| && LastForwardTarget(fn, scan, exit, best) != best
    ensures scan <= j && j + 1 < exit && j < LastForwardTarget(fn, scan, exit, best) < exit
    ensures fn.insts[j] == Mir.Jump(LastForwardTarget(fn, scan, exit, best))
    decreases exit - scan
  {
    var inst := fn.insts[scan];
    var best' := if inst.Jump? && scan < inst.dest < exit && inst.dest > best then inst.dest else best;
    if LastForwardTarget(fn, scan + 1, exit, best') == best' {
      j := scan;
    } else {
      j := ScanFound(fn, scan + 1, exit, best');
    }
  }

  lemma {:induction false} ScanMost(fn: Mir.Function, scan: nat, exit: nat, best: nat)
    requires 0 < exit <= |fn.insts|
    ensures best <= LastForwardTarget(fn, scan, exit, best)
    ensures NoneFurther(fn, scan, exit - 1, exit, LastForwardTarget(fn, scan, exit, best))
    decreases exit - scan
  {
    if scan + 1 < exit {
      var inst := fn.insts[scan];
      var better := inst.Jump? && scan < inst.dest < exit && inst.dest > best;
      ScanMost(fn, scan + 1, exit, if better then inst.dest else best);
    }
  }

  lemma FurtherPart(fn: Mir.Function, a: nat, b: nat, exit: nat, meet: nat, b2: nat)
    requires NoneFurther(fn, a, b, exit, meet) && b2 <= b
    ensures NoneFurther(fn, a, b2, exit, meet)
  {
  }

  /** The first two instructions of a condition do not jump. */
  lemma {:induction false} StartOfTerms(fn: Mir.Function, terms: seq<Term>, at: nat)
    requires TermsStand(fn, terms, at) && Len(terms) > 0
    ensures at < |fn.insts| && !fn.insts[at].Jump?
    decreases terms
  {
    match terms[0]
    case Op(_) =>
    case And(l, r) => if Len(l) > 0 { StartOfTerms(fn, l, at); }
    case Or(l, r) => if Len(l) > 0 { StartOfTerms(fn, l, at); }
  }

  lemma {:induction false} SecondOfTerms(fn: Mir.Function, terms: seq<Term>, at: nat)
    requires TermsStand(fn, terms, at) && Len(terms) > 1 && at < |fn.insts| && !fn.insts[at].JumpIfFalse?
    ensures at + 1 < |fn.insts| && !fn.insts[at + 1].Jump?
    decreases terms
  {
    hide TermStands;
    assert TermStands(fn, terms[0], at);
    match terms[0]
    case Op(_) => StartOfTerms(fn, terms[1..], at + 1);
    case And(l, r) => SecondOfLeft(fn, terms[0], at);
    case Or(l, r) => SecondOfLeft(fn, terms[0], at);
  }

  lemma {:induction false} SecondOfLeft(fn: Mir.Function, x: Term, at: nat)
    requires !x.Op? && TermStands(fn, x, at) && at < |fn.insts| && !fn.insts[at].JumpIfFalse?
    ensures at + 1 < |fn.insts| && !fn.insts[at + 1].Jump?
    decreases x
  {
    hide TermsStand, Len;
    if Len(LeftOf(x)) > 1 {
      SecondOfTerms(fn, LeftOf(x), at);
    }
  }

  lemma HeaderOutside(fn: Mir.Function, k: seq<Kinds>, c: seq<Term>, at: nat, f: nat)
    requires Ready(fn, k) && at < |k| && k[at] == [] && TermsStand(fn, c, at)
      && InstIs(fn, at + Len(c), Mir.JumpIfFalse(f))
    ensures OutsideDiamond(fn, at)
  {
    hide Ready, TermsStand, Len;
    CondNotEmpty(fn, k, c, at, f);
    StartOfTerms(fn, c, at);
    if fn.insts[at].JumpIfFalse? {
      BranchKinds(fn, k, at, fn.insts[at].dest);
    } else if Len(c) > 1 {
      SecondOfTerms(fn, c, at);
    }
  }

  /** A loop cut where an operand is pending is refused. */
  lemma PendingRefused(fn: Mir.Function, k: seq<Kinds>, r: Region, e: nat)
    requires Ready(fn, k) && e <= |fn.insts| && IsRegion(fn, r.header, e, r) && OutsideDiamond(fn, r.header)
    requires r.header < |k| && k[r.header] == [] && InstIs(fn, r.tail - 1, Mir.PushBool(false))
    ensures EmitWhile(fn, r, e, []).Err?
  {
    hide EmitRange, EmitWhile, InstOk, DiamondsClosed, Within;
    var accepted := EmitWhile(fn, r, e, []).Ok?;
    if accepted {
      WhileTracks(fn, k, r, e);
      PushedThere(fn, k, r.tail - 1);
    }
  }

  lemma PushedThere(fn: Mir.Function, k: seq<Kinds>, pc: nat)
    requires Ready(fn, k) && InstIs(fn, pc, Mir.PushBool(false))
    ensures |k| == |fn.insts| + 1 && |k[pc + 1]| > 0
  {
    ReadyAt(fn, k, pc);
  }

  /** A loop cut inside one of the statements of its body is refused. */
  lemma ShortRefused(fn: Mir.Function, k: seq<Kinds>, r: Region, e: nat, p: nat, pc: nat)
    requires Ready(fn, k) && e <= |fn.insts| && IsRegion(fn, r.header, e, r) && OutsideDiamond(fn, r.header)
    requires r.header < |k| && k[r.header] == [] && r.tail <= p <= r.backedge
    requires CutShort(fn, r.cond + 1, p, r.tail, pc)
    ensures EmitWhile(fn, r, e, []).Err?
  {
    hide EmitRange, EmitWhile, Ready;
    if InstIs(fn, r.tail - 1, Mir.PushBool(false)) {
      PendingRefused(fn, k, r, e);
    } else {
      var accepted := EmitWhile(fn, r, e, []).Ok?;
      if accepted {
        WhileParts(fn, r, e, []);
        var ks := EmitRange(fn, NO_TARGETS, r.header, r.cond, []).stack[..0];
        if pc < r.tail {
          RefusedBeyond(fn, BodyTargets(r), r.cond + 1, r.tail, ks, pc);
        } else {
          var ks2 := EmitRange(fn, BodyTargets(r), r.cond + 1, r.tail, ks).stack;
          RefusedBack(fn, LoopTargets(r.header, r.exit), r.tail, r.backedge, ks2, pc);
        }
      }
    }
  }

  lemma {:induction false} BetweenBounds(code: seq<Stmt>, at: nat, meet: nat)
    requires Between(code, at, meet)
    ensures at <= meet <= at + Size(code)
    decreases code
  {
    if at != meet {
      BetweenBounds(code[1..], at + StmtSize(code[0]), meet);
    }
  }

  // ---- the body of a loop with a condition ---------------------------------------------------------

  /** The rest of a body, behind the cut, with the step. */
  ghost predicate BodyPlaced(fn: Mir.Function, k: seq<Kinds>, code: seq<Stmt>, at: nat, x: Exits, header: nat,
      post: seq<Term>)
  {
    && Ready(fn, k) && Stands(fn, code, at, x) && Settled(k, code, at) && x.InLoop? && header < at
    && TermsStand(fn, post, at + Size(code)) && Straight(post)
    && at + Size(code) + Len(post) < x.out <= |fn.insts|
    && (x.next == header || x.next == at + Size(code))
  }

  lemma PostEmitted(fn: Mir.Function, k: seq<Kinds>, t: Targets, post: seq<Term>, p: nat, back: nat)
    requires Ready(fn, k) && TermsStand(fn, post, p) && Straight(post) && back == p + Len(post) <= |fn.insts|
    ensures Verdict(fn, k, t, p, back, back, true)
  {
    hide Ready, EmitRange;
    StraightFits(post);
    NothingBehind(fn, t, p, back, back);
    TermsEmitted(fn, k, t, post, p, back);
  }

  lemma CutStep(fn: Mir.Function, k: seq<Kinds>, t: Targets, at: nat, mid: nat, meet: nat, fits: bool)
    requires Verdict(fn, k, t, at, mid, meet, fits)
    ensures |k| == |fn.insts| + 1 && mid <= meet <= |fn.insts|
    ensures fits ==> Like(EmitRange(fn, t, at, meet, k[at]), EmitRange(fn, t, mid, meet, k[mid]))
    ensures !fits ==> EmitRange(fn, t, at, meet, k[at]).Err?
  {
    hide EmitRange;
  }

  lemma FrontPlaced(fn: Mir.Function, k: seq<Kinds>, t: Targets, code: seq<Stmt>, at: nat, x: Exits, header: nat,
      meet: nat, post: seq<Term>)
    requires BodyPlaced(fn, k, code, at, x, header, post) && Labelled(t, x, Some(meet)) && code != []
    requires at != meet && at + StmtSize(code[0]) <= meet <= at + Size(code)
    requires HasContinue(code) && x.next != header ==> meet == x.next
    ensures StmtPlaced(fn, k, t, code[0], at, meet, x, Some(meet))
    ensures BodyPlaced(fn, k, code[1..], at + StmtSize(code[0]), x, header, post)
  {
    hide Ready, StmtStands, TermsStand, Len, StmtSettled, StmtHasLoop, StmtHasContinue, Quiet, Straight, CodeJumps;
    var mid, end := at + StmtSize(code[0]), at + Size(code);
    Lengths(fn, k);
    JumpsOfCode(fn, k, code[1..], mid, x);
    QuietCode(fn, k, t, x, Some(meet), at, mid, mid, StmtHasLoop(code[0]), StmtHasContinue(code[0]), mid, end, mid, end,
              HasLoop(code[1..]), HasContinue(code[1..]));
    QuietSome(fn, t, at, mid, mid, end, meet);
  }

  lemma {:induction false} CutBetween(code: seq<Stmt>, at: nat, x: Exits, header: nat, meet: nat)
    requires CutFits(code, at, x, header, meet)
    ensures Between(code, at, meet)
    decreases code
  {
    if at != meet {
      CutBetween(code[1..], at + StmtSize(code[0]), x, header, meet);
    }
  }

  /** A `continue` to the step makes the step the last meeting place. */
  lemma ContinueMark(s: Stmt, at: nat)
    requires s.While?
    ensures var start, end, x := at + Len(s.cond) + 1, at + StmtSize(s), WhileExits(s, at);
      var meet := Meet(s.body, start, x, end, 0);
      && meet <= start + Size(s.body)
      && (HasContinue(s.body) && x.next != at ==> meet == x.next && meet != 0 && meet != end - 1)
  {
    hide Meet, HasContinue;
    var start, end, x := at + Len(s.cond) + 1, at + StmtSize(s), WhileExits(s, at);
    MeetBounds(s.body, start, x, end, 0);
    if HasContinue(s.body) && x.next != at {
      ContinueMeets(s.body, start, x, end, 0);
      assert TermLen(s.post[0]) > 0;
    }
  }

  lemma CondRange(fn: Mir.Function, k: seq<Kinds>, s: Stmt, at: nat, x: Exits)
    requires s.While? && Ready(fn, k) && StmtStands(fn, s, at, x) && StmtSettled(k, s, at)
    requires at < |k| && k[at] == []
    ensures |k| == |fn.insts| + 1 && at + Len(s.cond) <= |fn.insts|
    ensures var r := EmitRange(fn, NO_TARGETS, at, at + Len(s.cond), []);
      if TermsFit(s.cond) then r.Ok? && r.stack == [] + [Mir.KI32] else r.Err?
  {
    hide Ready, TermsStand, Len, EmitRange, Quiet, TermsFit, Size, Stands;
    var c := at + Len(s.cond);
    BranchKinds(fn, k, c, at + StmtSize(s));
    SettledStart(k, s.body, c + 1);
    assert k[c] == [] + [Mir.KI32];
    NothingBehind(fn, NO_TARGETS, at, c, c);
    TermsEmitted(fn, k, NO_TARGETS, s.cond, at, c);
    EmptyRange(fn, NO_TARGETS, c, k[c]);
  }

  lemma BodyIsPlaced(fn: Mir.Function, k: seq<Kinds>, s: Stmt, at: nat, x: Exits)
    requires s.While? && Ready(fn, k) && StmtStands(fn, s, at, x) && StmtSettled(k, s, at) && Straight(s.post)
    ensures BodyPlaced(fn, k, s.body, at + Len(s.cond) + 1, WhileExits(s, at), at, s.post)
  {
    hide Ready, TermsStand, Len, Size, Stands, Straight, Settled;
  }

  /** A step with an operator, and a meeting place inside a statement, make the loop be refused. */
  lemma BadCutRefused(fn: Mir.Function, k: seq<Kinds>, t: Targets, s: Stmt, at: nat, e: nat, x: Exits,
      mark: Option<nat>)
    requires mark != Some(at)
    requires s.While? && StmtPlaced(fn, k, t, s, at, e, x, mark) && Size(s.body) + Len(s.post) > 0
    requires KindAt(fn, t, at, e) == AWhile(RegionOf(s, at, Tail(s, at)))
    requires var meet := Meet(s.body, at + Len(s.cond) + 1, WhileExits(s, at), at + StmtSize(s), 0);
      !Straight(s.post)
      || (meet != 0 && meet != at + StmtSize(s) - 1 && !Between(s.body, at + Len(s.cond) + 1, meet))
    ensures EmitWhile(fn, RegionOf(s, at, Tail(s, at)), e, []).Err?
  {
    hide Ready, TermsStand, Len, Size, Stands, Settled, HasContinue, HasLoop, Meet, TermsMeet, EmitRange, EmitWhile,
      KindAt,
      Between, LastForwardTarget, CodeJumps, NoneFurther, Quiet, Straight, CutShort;
    var start, end, y := at + Len(s.cond) + 1, at + StmtSize(s), WhileExits(s, at);
    var p := start + Size(s.body);
    var r := RegionOf(s, at, Tail(s, at));
    WhileKind(fn, k, t, s, at, e, x, mark);
    HeaderOutside(fn, k, s.cond, at, end);
    ContinueMark(s, at);
    if Straight(s.post) {
      StraightMeets(s.post, p, Meet(s.body, start, y, end, 0));
      BetweenEnds(s.body, start);
      var j := ScanFound(fn, start, end, 0);
      ScanMost(fn, start, end, 0);
      FurtherPart(fn, start, end - 1, end, r.tail, p);
      var pc := Inside(fn, k, s.body, start, y, r.tail, j);
      ShortRefused(fn, k, r, e, p, pc);
    } else {
      OperatorMeets(s.post, p, Meet(s.body, start, y, end, 0));
      var j := ScanFound(fn, start, end, 0);
      if j < p {
        JumpsOfCode(fn, k, s.body, start, y);
        JumpThere(fn, k, start, p, start, p, y, HasLoop(s.body), HasContinue(s.body), j);
      } else {
        TermJumpThere(fn, s.post, p, j);
      }
      PendingRefused(fn, k, r, e);
    }
  }

  /** The ends of a list are between its statements. */
  lemma {:induction false} BetweenEnds(code: seq<Stmt>, at: nat)
    ensures Between(code, at, at) && Between(code, at, at + Size(code))
    decreases code
  {
    if code != [] {
      BetweenEnds(code[1..], at + StmtSize(code[0]));
    }
  }

  lemma WhileFits(s: Stmt, at: nat, x: Exits, mark: Option<nat>)
    requires s.While? && mark != Some(at)
    ensures var start, end, y := at + Len(s.cond) + 1, at + StmtSize(s), WhileExits(s, at);
      var meet := Meet(s.body, start, y, end, 0);
      StmtFits(s, at, x, mark) <==>
        && TermsFit(s.cond) && Straight(s.post) && Size(s.body) + Len(s.post) > 0
        && (if meet == 0 || meet == end - 1 then Fits(s.body, start, y, Some(at))
            else CutFits(s.body, start, y, at, meet))
  {
    hide Meet, Fits, CutFits, TermsFit, Straight, Len, Size;
    var whole := BodyFits(s, at);
  }
}
