/**
 * Calls by planned index. The number that is written for a call is the callee's place in the module's
 * function index space, not its number in the program: here it is shown that a function whose calls
 * are renumbered so means what it meant, when each index is taken for what the module names by it.
 */
module Linking {
  import opened Words
  import opened Memory
  import M = Mir
  import W = Wasm
  import opened StackMap
  import opened Binary
  import opened Leb
  import opened Framing
  import opened Emitter
  import opened FrameEntry
  import opened EmitterMethods
  import opened Compiler
  import opened FunctionBodies
  import S = Signatures
  import I = IndexSpaces
  import opened ModuleSections
  import N = NamedIndices
  import R = Reachability

  type Indices = seq<nat>

  function Place(index: Indices, f: nat): nat {
    if f < |index| then index[f] else f
  }

  // ---- renumbered functions ---------------------------------------------------------------------------------

  function Renumber(index: Indices, i: M.Inst): M.Inst {
    if i.CallFn? then i.(callee := Place(index, i.callee)) else i
  }

  /** `fn` as it is written: calls by index, signatures by index. */
  function Linked(fn: M.Function, index: Indices, sigs: seq<M.Signature>): M.Function {
    fn.(insts := seq(|fn.insts|, i requires 0 <= i < |fn.insts| => Renumber(index, fn.insts[i])), sigs := sigs)
  }

  predicate CalledBy(fn: M.Function, f: nat) {
    exists pc :: 0 <= pc < |fn.insts| && fn.insts[pc].CallFn? && fn.insts[pc].callee == f
  }

  /** Every callee has a signature, the same under its number and under its index. */
  predicate SigsAgree(fn: M.Function, index: Indices, sigs: seq<M.Signature>) {
    forall pc :: 0 <= pc < |fn.insts| && fn.insts[pc].CallFn? ==> SigAgrees(fn, index, sigs, fn.insts[pc].callee)
  }

  predicate SigAgrees(fn: M.Function, index: Indices, sigs: seq<M.Signature>, f: nat) {
    f < |fn.sigs| && Place(index, f) < |sigs| && sigs[Place(index, f)] == fn.sigs[f]
  }

  lemma SameShapes(fn: M.Function, index: Indices, sigs: seq<M.Signature>, pc: nat)
    requires pc < |fn.insts|
    ensures var l := Linked(fn, index, sigs);
      && OrShape(l, pc, |l.insts|) == OrShape(fn, pc, |fn.insts|)
      && AndShape(l, pc, |l.insts|) == AndShape(fn, pc, |fn.insts|)
      && IsTruthArm(l, pc) == IsTruthArm(fn, pc)
  {
  }

  lemma SameJumps(fn: M.Function, index: Indices, sigs: seq<M.Signature>, lo: nat, hi: nat)
    ensures JumpsClosed(Linked(fn, index, sigs), lo, hi) == JumpsClosed(fn, lo, hi)
  {
    var l := Linked(fn, index, sigs);
    forall j: nat | j < |fn.insts|
      ensures JumpStays(l.insts[j], lo, hi) == JumpStays(fn.insts[j], lo, hi)
    {
    }
    if JumpsClosed(l, lo, hi) {
      forall j | lo < j < hi && j < |fn.insts|
        ensures JumpStays(fn.insts[j], lo, hi)
      {
        assert JumpStays(l.insts[j], lo, hi);
      }
    }
  }

  lemma SameHeights(fn: M.Function, index: Indices, sigs: seq<M.Signature>, k: seq<Kinds>, from: nat, to: nat,
      base: nat)
    requires |k| == |fn.insts| + 1 && StaysAbove(fn, k, from, to, base)
    ensures StaysAbove(Linked(fn, index, sigs), k, from, to, base)
  {
    var l := Linked(fn, index, sigs);
    forall j | from <= j < to && j < |l.insts|
      ensures Low(l, k, j) >= base
    {
      assert Low(l, k, j) == Low(fn, k, j);
    }
  }

  lemma SameKinds(fn: M.Function, index: Indices, sigs: seq<M.Signature>, pc: nat, ks: Kinds)
    requires SigsAgree(fn, index, sigs) && pc < |fn.insts|
    ensures var l := Linked(fn, index, sigs); KindsAfter(l, l.insts[pc], ks) == KindsAfter(fn, fn.insts[pc], ks)
  {
    hide UnaryKind, BinaryKind, CanCast;
    assert fn.insts[pc].CallFn? ==> SigAgrees(fn, index, sigs, fn.insts[pc].callee);
  }

  lemma SameInst(fn: M.Function, index: Indices, sigs: seq<M.Signature>, k: seq<Kinds>, pc: nat)
    requires SigsAgree(fn, index, sigs) && |k| == |fn.insts| + 1 && pc < |fn.insts| && InstOk(fn, k, pc)
    ensures InstOk(Linked(fn, index, sigs), k, pc)
  {
    hide StaysAbove, KindsAfter;
    SameShapes(fn, index, sigs, pc);
    SameKinds(fn, index, sigs, pc, k[pc]);
    match fn.insts[pc]
    case Jump(t) =>
      SameShapes(fn, index, sigs, t);
      var after := if IsTruthArm(fn, pc) then k[pc - 1] else k[pc];
      if t > pc {
        SameHeights(fn, index, sigs, k, pc + 1, t, |after|);
      } else {
        SameHeights(fn, index, sigs, k, t, pc, |after|);
      }
    case JumpIfFalse(t) =>
      SameShapes(fn, index, sigs, t);
      if t > pc {
        SameHeights(fn, index, sigs, k, pc + 1, t, |k[pc + 1]|);
      }
    case _ =>
  }

  /** The stack map of a function is the stack map of the renumbered one. */
  lemma LinkedWellFormed(fn: M.Function, index: Indices, sigs: seq<M.Signature>, k: seq<Kinds>)
    requires WellFormed(fn, k) && SigsAgree(fn, index, sigs)
    ensures WellFormed(Linked(fn, index, sigs), k)
  {
    hide InstOk, JumpsClosed, OrShape, AndShape, SigsAgree;
    var l := Linked(fn, index, sigs);
    forall pc: nat | pc < |l.insts|
      ensures InstOk(l, k, pc) && DiamondsClosed(l, pc)
    {
      InstAt(fn, k, pc);
      SameInst(fn, index, sigs, k, pc);
      SameShapes(fn, index, sigs, pc);
      assert DiamondsClosed(fn, pc);
      var d, e := OrShape(fn, pc, |fn.insts|), AndShape(fn, pc, |fn.insts|);
      if d.Some? {
        SameJumps(fn, index, sigs, pc, d.value.mergeTarget);
      }
      if e.Some? {
        SameJumps(fn, index, sigs, pc, e.value.mergeTarget);
      }
    }
  }

  // ---- what renumbered functions do ---------------------------------------------------------------------------

  function LinkTrace(index: Indices, t: M.Trace): (r: M.Trace)
    ensures |r| == |t|
  {
    seq(|t|, i requires 0 <= i < |t| => (Place(index, t[i].0), t[i].1))
  }

  function LinkState(index: Indices, st: M.State): M.State {
    st.(trace := LinkTrace(index, st.trace))
  }

  function LinkStep(index: Indices, r: M.StepResult): M.StepResult {
    match r
    case Goto(pc, stack, st) => M.Goto(pc, stack, LinkState(index, st))
    case Returned(v, st) => M.Returned(v, LinkState(index, st))
    case Trapped(st) => M.Trapped(LinkState(index, st))
    case Faulted => r
  }

  function LinkOutcome(index: Indices, o: M.Outcome): M.Outcome {
    match o
    case Exit(pc, stack, st) => M.Exit(pc, stack, LinkState(index, st))
    case Finished(v, st) => M.Finished(v, LinkState(index, st))
    case Crashed(st) => M.Crashed(LinkState(index, st))
    case OutOfFuel(st) => M.OutOfFuel(LinkState(index, st))
    case Refused => o
  }

  /** What `byIndex` answers for an index is what `byNumber` answers for the callee. */
  ghost predicate Resolves(fn: M.Function, index: Indices, byNumber: M.Oracle, byIndex: M.Oracle) {
    forall t: M.Trace, f: nat, a: seq<M.Value> ::
      CalledBy(fn, f) ==> byNumber.reply(t, f, a) == byIndex.reply(LinkTrace(index, t), Place(index, f), a)
  }

  lemma LinkedCall(fn: M.Function, index: Indices, sigs: seq<M.Signature>, byNumber: M.Oracle, byIndex: M.Oracle,
      pc: nat, stack: seq<M.Value>, st: M.State)
    requires SigsAgree(fn, index, sigs) && Resolves(fn, index, byNumber, byIndex)
    requires pc < |fn.insts| && fn.insts[pc].CallFn?
    ensures var i := fn.insts[pc];
      M.StepCall(Linked(fn, index, sigs), byIndex, Place(index, i.callee), i.argc, pc, stack, LinkState(index, st))
      == LinkStep(index, M.StepCall(fn, byNumber, i.callee, i.argc, pc, stack, st))
  {
    hide M.ArgsCoercible;
    var f, argc := fn.insts[pc].callee, fn.insts[pc].argc;
    assert SigAgrees(fn, index, sigs, f) && CalledBy(fn, f);
    if argc <= |stack| && M.ArgsCoercible(stack[|stack| - argc..], fn.sigs[f].params) {
      var args := M.CoerceAll(stack[|stack| - argc..], fn.sigs[f].params);
      assert LinkTrace(index, st.trace + [(f, args)]) == LinkTrace(index, st.trace) + [(Place(index, f), args)];
    }
  }

  lemma LinkedSimple(fn: M.Function, index: Indices, sigs: seq<M.Signature>, byNumber: M.Oracle, byIndex: M.Oracle,
      inst: M.Inst, pc: nat, stack: seq<M.Value>, st: M.State)
    requires !inst.CallFn?
    ensures M.StepSimple(Linked(fn, index, sigs), byIndex, inst, pc, stack, LinkState(index, st))
      == LinkStep(index, M.StepSimple(fn, byNumber, inst, pc, stack, st))
  {
    hide M.StepCall, M.UnaryOp, M.BinaryOp, M.CastTo, LinkTrace;
  }

  lemma CallSteps(fn: M.Function, oracle: M.Oracle, pc: nat, stack: seq<M.Value>, st: M.State)
    requires pc < |fn.insts| && fn.insts[pc].CallFn?
    ensures M.Step(fn, oracle, pc, stack, st)
      == M.StepCall(fn, oracle, fn.insts[pc].callee, fn.insts[pc].argc, pc, stack, st)
  {
    hide M.StepCall;
  }

  lemma LinkedStep(fn: M.Function, index: Indices, sigs: seq<M.Signature>, byNumber: M.Oracle, byIndex: M.Oracle,
      pc: nat, stack: seq<M.Value>, st: M.State)
    requires SigsAgree(fn, index, sigs) && Resolves(fn, index, byNumber, byIndex) && pc < |fn.insts|
    ensures M.Step(Linked(fn, index, sigs), byIndex, pc, stack, LinkState(index, st))
      == LinkStep(index, M.Step(fn, byNumber, pc, stack, st))
  {
    hide M.StepSimple, LinkTrace, Resolves, SigsAgree;
    if fn.insts[pc].CallFn? {
      LinkedCall(fn, index, sigs, byNumber, byIndex, pc, stack, st);
      CallSteps(fn, byNumber, pc, stack, st);
      CallSteps(Linked(fn, index, sigs), byIndex, pc, stack, LinkState(index, st));
    } else {
      LinkedSimple(fn, index, sigs, byNumber, byIndex, fn.insts[pc], pc, stack, st);
    }
  }

  lemma {:induction false} LinkedRun(fn: M.Function, index: Indices, sigs: seq<M.Signature>, byNumber: M.Oracle,
      byIndex: M.Oracle, lo: nat, hi: nat, pc: nat, stack: seq<M.Value>, st: M.State)
    requires SigsAgree(fn, index, sigs) && Resolves(fn, index, byNumber, byIndex) && hi <= |fn.insts|
    ensures M.Run(Linked(fn, index, sigs), byIndex, lo, hi, pc, stack, LinkState(index, st))
      == LinkOutcome(index, M.Run(fn, byNumber, lo, hi, pc, stack, st))
    decreases st.fuel, if pc < hi then hi - pc else 0
  {
    hide M.Step, LinkTrace, Resolves, SigsAgree;
    if pc < hi {
      LinkedStep(fn, index, sigs, byNumber, byIndex, pc, stack, st);
      M.StepKeepsFuel(fn, byNumber, pc, stack, st);
      match M.Step(fn, byNumber, pc, stack, st)
      case Goto(pc1, stack1, st1) =>
        if lo <= pc1 < hi {
          if pc1 > pc {
            LinkedRun(fn, index, sigs, byNumber, byIndex, lo, hi, pc1, stack1, st1);
          } else if st1.fuel > 0 {
            LinkedRun(fn, index, sigs, byNumber, byIndex, lo, hi, pc1, stack1, st1.(fuel := st1.fuel - 1));
          }
        }
      case _ =>
    }
  }

  /** The bytes that are written for the renumbered function do what the function does, the calls they
      make being those of the function, each by its index. */
  lemma LinkedBytesPreserveMeaning(fn: M.Function, k: seq<Kinds>, index: Indices, sigs: seq<M.Signature>,
      paramCount: nat, byNumber: M.Oracle, byIndex: M.Oracle, locals: seq<M.Value>, trace: M.Trace, start: W.State)
    requires WellFormed(fn, k) && SigsAgree(fn, index, sigs) && Resolves(fn, index, byNumber, byIndex)
    requires var l := Linked(fn, index, sigs);
      && CountsParams(l, paramCount) && FunctionBytes(l, paramCount).Some? && SizesFit(l)
      && Starts(l, locals, start) && start.trace == LinkTrace(index, trace)
    ensures var l := Linked(fn, index, sigs);
      && ParseDecls(FunctionBytes(l, paramCount).value).Parsed?
      && var body := ParseCode(ParseDecls(FunctionBytes(l, paramCount).value).rest);
         && body.Parsed? && body.rest == []
         && EndAlike(l, LinkOutcome(index, FlatRun(fn, byNumber, locals, trace, start.fuel)),
              W.Exec(W.HostOf(l, byIndex), body.value.code, [], start))
  {
    hide WellFormed, M.Run, W.Exec, FunctionBytes, Starts, EndAlike, ParseDecls, ParseCode, LinkTrace, CountsParams,
      SizesFit, SigsAgree, Resolves;
    LinkedWellFormed(fn, index, sigs, k);
    BytesPreserveMeaning(Linked(fn, index, sigs), k, paramCount, byIndex, locals, start);
    LinkedRun(fn, index, sigs, byNumber, byIndex, 0, |fn.insts|, 0, [], M.State(locals, trace, start.fuel));
  }

  // ---- indices in a written module ------------------------------------------------------------------------------

  /** The planned indices. */
  function PlannedIndices(p: I.Program): (r: Indices)
    ensures |r| == |p.decls|
    ensures forall f :: 0 <= f < |r| && OwnIndex(p, f).Some? ==> r[f] == OwnIndex(p, f).value
  {
    seq(|p.decls|, f requires 0 <= f < |p.decls| => if OwnIndex(p, f).Some? then OwnIndex(p, f).value else 0)
  }

  lemma IndexIs(p: I.Program, f: nat)
    requires I.Reached(p, f)
    ensures OwnIndex(p, f) == match I.FirstImport(p, f, |p.foreign|)
      case Some(i) => Some(|I.FnImports(p, i)|)
      case None => Some(I.ImportCount(p) + |I.Defined(p, f)|)
    ensures |I.FnImports(p, |p.foreign|)| <= I.ImportCount(p)
  {
    hide I.FnImports, I.Defined, I.FirstImport;
  }

  /** No two functions have one index. */
  lemma IndicesDistinct(p: I.Program, f: nat, g: nat)
    requires I.Sized(p) && I.Reached(p, f) && I.Reached(p, g) && OwnIndex(p, f) == OwnIndex(p, g)
    ensures f == g
  {
    hide OwnIndex, I.FnImports, I.Defined, I.FirstImport, I.ImportCount;
    IndexIs(p, f);
    IndexIs(p, g);
    var a, b := I.FirstImport(p, f, |p.foreign|), I.FirstImport(p, g, |p.foreign|);
    if a.Some? {
      I.FnImportAt(p, a.value, |p.foreign|);
    } else {
      I.DefinedAt(p, f, |p.decls|);
    }
    if b.Some? {
      I.FnImportAt(p, b.value, |p.foreign|);
    } else {
      I.DefinedAt(p, g, |p.decls|);
    }
  }

  /** What the functions of a module do, entry by entry. */
  datatype Meaning = Meaning(
    reply: (M.Trace, N.Function, seq<M.Value>) -> Option<(int, int)>,
    effect: (Store, M.Trace, N.Function, seq<M.Value>) -> Store)

  ghost predicate Behaved(m: Meaning) {
    forall s, t, x, a :: KeepsFrames(s, m.effect(s, t, x, a))
  }

  /** Calling an index is calling what the module names by it. */
  function Indexed(w: Module, m: Meaning): M.Callees {
    M.Callees((t: M.Trace, i: nat, a: seq<M.Value>) => m.reply(t, N.FunctionAt(w, i), a),
      (s: Store, t: M.Trace, i: nat, a: seq<M.Value>) => m.effect(s, t, N.FunctionAt(w, i), a))
  }

  /** Calling a function of the program is calling its own import or body. */
  function Numbered(p: I.Program, sigs: seq<S.Sig>, m: Meaning): M.Callees
    requires Fitting(p, sigs)
  {
    M.Callees(
      (t: M.Trace, f: nat, a: seq<M.Value>) =>
        if f < |sigs| then m.reply(LinkTrace(PlannedIndices(p), t), N.Expected(p, sigs, f), a) else None,
      (s: Store, t: M.Trace, f: nat, a: seq<M.Value>) => s)
  }

  lemma IndexedBehaves(w: Module, m: Meaning)
    requires Behaved(m)
    ensures M.LeavesFrames(Indexed(w, m))
  {
    hide N.FunctionAt;
    var c := Indexed(w, m);
    forall s, t, f, a
      ensures KeepsFrames(s, c.effect(s, t, f, a))
    {
      assert KeepsFrames(s, m.effect(s, t, N.FunctionAt(w, f), a));
    }
  }

  lemma NumberedBehaves(p: I.Program, sigs: seq<S.Sig>, m: Meaning)
    requires Fitting(p, sigs)
    ensures M.LeavesFrames(Numbered(p, sigs, m))
  {
    hide Fitting;
  }

  /** All callees are functions that the module keeps. */
  ghost predicate CallsReached(p: I.Program, fn: M.Function) {
    forall f: nat :: CalledBy(fn, f) ==> I.Reached(p, f)
  }

  /** So it is when the marks are those of the functions that are reached. */
  lemma CallsOfReached(p: I.Program, g: R.CallGraph, roots: seq<nat>, fn: M.Function, f: nat)
    requires R.MarksReached(g, roots, p.reachable) && I.Reached(p, f)
    requires forall c: nat :: CalledBy(fn, c) ==> R.Calls(g, f, c)
    ensures CallsReached(p, fn)
  {
    hide CalledBy, R.Reached;
    forall c: nat | CalledBy(fn, c)
      ensures I.Reached(p, c)
    {
      assert R.Marked(p.reachable, f);
      R.CallIsReached(g, roots, f, c);
      assert R.Marked(p.reachable, c);
    }
  }

  lemma PlannedResolves(p: I.Program, sigs: seq<S.Sig>, fn: M.Function, m: Meaning)
    requires Fitting(p, sigs) && Behaved(m) && CallsReached(p, fn)
    ensures M.LeavesFrames(Numbered(p, sigs, m)) && M.LeavesFrames(Indexed(N.Written(p, sigs), m))
    ensures Resolves(fn, PlannedIndices(p), Numbered(p, sigs, m), Indexed(N.Written(p, sigs), m))
  {
    hide N.FunctionAt, N.Expected, N.Written, LinkTrace, CalledBy;
    IndexedBehaves(N.Written(p, sigs), m);
    NumberedBehaves(p, sigs, m);
    forall t: M.Trace, f: nat, a: seq<M.Value> | CalledBy(fn, f)
      ensures Numbered(p, sigs, m).reply(t, f, a)
        == Indexed(N.Written(p, sigs), m).reply(LinkTrace(PlannedIndices(p), t), Place(PlannedIndices(p), f), a)
    {
      assert I.Reached(p, f);
      N.FunctionNamed(p, sigs, f);
    }
  }

  // ---- signatures by index --------------------------------------------------------------------------------------

  /** The signature of the function, among the first `n`, that has the index. */
  function SigAt(p: I.Program, known: seq<M.Signature>, i: nat, n: nat): M.Signature
    requires n <= |known|
  {
    if n == 0 then M.Signature([], None)
    else if I.Reached(p, n - 1) && OwnIndex(p, n - 1) == Some(i) then known[n - 1]
    else SigAt(p, known, i, n - 1)
  }

  lemma {:induction false} SigAtIs(p: I.Program, sigs: seq<S.Sig>, known: seq<M.Signature>, f: nat, n: nat)
    requires Fitting(p, sigs) && I.Reached(p, f) && f < n <= |known|
    ensures OwnIndex(p, f).Some? && SigAt(p, known, OwnIndex(p, f).value, n) == known[f]
    decreases n
  {
    hide OwnIndex, N.FunctionAt, N.Expected, N.Written, I.InRange;
    N.FunctionNamed(p, sigs, f);
    if f < n - 1 {
      if I.Reached(p, n - 1) && OwnIndex(p, n - 1) == OwnIndex(p, f) {
        IndicesDistinct(p, f, n - 1);
      }
      SigAtIs(p, sigs, known, f, n - 1);
    }
  }

  function IndexBound(p: I.Program, n: nat): (b: nat)
    ensures forall f: nat :: f < n && OwnIndex(p, f).Some? ==> OwnIndex(p, f).value < b
  {
    if n == 0 then 0
    else
      var b := IndexBound(p, n - 1);
      if OwnIndex(p, n - 1).Some? && OwnIndex(p, n - 1).value >= b then OwnIndex(p, n - 1).value + 1 else b
  }

  /** Signatures in the order of the index space. */
  function SigsByIndex(p: I.Program, known: seq<M.Signature>): seq<M.Signature> {
    seq(IndexBound(p, |known|), i requires 0 <= i => SigAt(p, known, i, |known|))
  }

  lemma PlannedSigs(p: I.Program, sigs: seq<S.Sig>, fn: M.Function)
    requires Fitting(p, sigs) && |fn.sigs| == |p.decls| && CallsReached(p, fn)
    ensures SigsAgree(fn, PlannedIndices(p), SigsByIndex(p, fn.sigs))
  {
    hide OwnIndex, SigAt;
    forall pc | 0 <= pc < |fn.insts| && fn.insts[pc].CallFn?
      ensures SigAgrees(fn, PlannedIndices(p), SigsByIndex(p, fn.sigs), fn.insts[pc].callee)
    {
      var f := fn.insts[pc].callee;
      assert CalledBy(fn, f);
      SigAtIs(p, sigs, fn.sigs, f, |fn.sigs|);
    }
  }

  /** A function of the program as it stands in the module. */
  function Placed(p: I.Program, fn: M.Function): M.Function {
    Linked(fn, PlannedIndices(p), SigsByIndex(p, fn.sigs))
  }

  /**
   * From the bytes of a function in a written module: with every call index taken for the import or the
   * body that the module names by it, the code the bytes parse into ends as the flat function does when
   * a call of a function is a call of that function's own import or body.
   */
  lemma CallsReachTheirCallees(p: I.Program, sigs: seq<S.Sig>, fn: M.Function, k: seq<Kinds>, paramCount: nat,
      m: Meaning, locals: seq<M.Value>, trace: M.Trace, start: W.State)
    requires Fitting(p, sigs) && Behaved(m) && |fn.sigs| == |p.decls| && CallsReached(p, fn) && WellFormed(fn, k)
    requires var l := Placed(p, fn);
      && CountsParams(l, paramCount) && FunctionBytes(l, paramCount).Some? && SizesFit(l)
      && Starts(l, locals, start) && start.trace == LinkTrace(PlannedIndices(p), trace)
    ensures M.LeavesFrames(Numbered(p, sigs, m)) && M.LeavesFrames(Indexed(N.Written(p, sigs), m))
    ensures var l := Placed(p, fn);
      && ParseDecls(FunctionBytes(l, paramCount).value).Parsed?
      && var body := ParseCode(ParseDecls(FunctionBytes(l, paramCount).value).rest);
         && body.Parsed? && body.rest == []
         && EndAlike(l,
              LinkOutcome(PlannedIndices(p), FlatRun(fn, Numbered(p, sigs, m), locals, trace, start.fuel)),
              W.Exec(W.HostOf(l, Indexed(N.Written(p, sigs), m)), body.value.code, [], start))
  {
    hide WellFormed, M.Run, W.Exec, FunctionBytes, Starts, EndAlike, ParseDecls, ParseCode, LinkTrace, CountsParams,
      SizesFit, SigsAgree, Resolves, CallsReached, Numbered, Indexed, N.Written, SigsByIndex;
    PlannedResolves(p, sigs, fn, m);
    PlannedSigs(p, sigs, fn);
    LinkedBytesPreserveMeaning(fn, k, PlannedIndices(p), SigsByIndex(p, fn.sigs), paramCount, Numbered(p, sigs, m),
      Indexed(N.Written(p, sigs), m), locals, trace, start);
  }
}
