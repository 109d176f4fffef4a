/**
 * The frame global over whole runs of emitted functions: a function that returns has put the frame
 * pointer back and left its callers' frames alone, provided the functions it calls do; so whole
 * programs do, at any depth of calls, recursion included. Live frames lie one above the other.
 */
module FrameDiscipline {
  import opened Words
  import opened Memory
  import M = Mir
  import opened StackMap
  import opened Wasm
  import opened Emitter
  import opened Slots
  import opened FrameSlots
  import FrameEntry
  import Straightline
  import opened FrameKeeping
  import opened FrameEmission
  import opened EmitterMethods
  import opened FunctionBodies
  import opened Validation
  import opened ValidLeaves
  import opened ValidEmission
  import opened ValidBodies
  import opened Soundness

  function FrameSize(fn: M.Function): nat {
    if fn.frame.None? then 0 else fn.frame.value.size
  }

  /** The function's frame was planned, and taking it does not wrap the frame pointer. */
  ghost predicate CanEnter(fn: M.Function, start: State) {
    fn.frame.Some? ==>
      && FrameOk(fn) && fn.frame.value.pointer == start.store.frameGlobal < |start.store.globals|
        && FrameBase(fn) < |start.locals|
      && FramePointer(start.store) + fn.frame.value.size < TWO32
  }

  /** Where a function that is entered in `start` stands once it has its frame. */
  function FootingOf(fn: M.Function, start: Store): Footing {
    if fn.frame.None? || fn.frame.value.pointer >= |start.globals| then NoFrame(start)
    else OwnFrame(FrameBase(fn), start.globals[fn.frame.value.pointer], fn.frame.value.size, start)
  }

  /** The frame starts where the frame pointer was, above all live frames. */
  lemma FrameTaken(fn: M.Function, start: State)
    requires fn.frame.Some? && CanEnter(fn, start)
    ensures Standing(FootingOf(fn, start.store), FrameEntry.Taken(fn, start))
    ensures Footed(fn, FootingOf(fn, start.store))
  {
    hide FrameOk, FrameBase;
    AddressSum(start.store.globals[fn.frame.value.pointer], fn.frame.value.size);
  }

  lemma {:induction false} SpillKeeps(fn: M.Function, f: Footing, host: Host, n: nat)
    requires fn.frame.Some? && Footed(fn, f) && n <= ParamCount(fn)
    ensures n <= |fn.frame.value.offsets| && Keeps(f, host, SpillParams(fn, n))
    decreases n
  {
    hide Keeps, StoreLocal, FrameBase;
    if n == 0 {
      KeepsNothing(f, host);
    } else {
      SpillKeeps(fn, f, host, n - 1);
      SlotInside(fn, n - 1);
      var k, offset, x := fn.localKinds[n - 1], fn.frame.value.offsets[n - 1], LocalIndex(fn, n - 1);
      StoreLocalKeeps(f, host, fn, k, offset, x);
      KeepsThen(f, host, SpillParams(fn, n - 1), StoreLocal(fn, k, offset, x));
    }
  }

  /** Everything after the frame was taken. */
  function AfterTaking(fn: M.Function): seq<Instr>
    requires EmitBody(fn).Ok?
  {
    var code := EmitRange(fn, NO_TARGETS, 0, |fn.insts|, []).code;
    if fn.frame.None? || ParamCount(fn) > |fn.frame.value.offsets| then code else SpillParams(fn, ParamCount(fn)) + code
  }

  lemma BodyIs(fn: M.Function)
    requires EmitBody(fn).Ok? && (fn.frame.Some? ==> FrameOk(fn))
    ensures EmitBody(fn).code == (if fn.frame.None? then [] else TakeFrame(fn)) + AfterTaking(fn)
  {
    hide EmitRange, TakeFrame, SpillParams;
    if fn.frame.Some? {
      var code := EmitRange(fn, NO_TARGETS, 0, |fn.insts|, []).code;
      assert TakeFrame(fn) + SpillParams(fn, ParamCount(fn)) + code
        == TakeFrame(fn) + (SpillParams(fn, ParamCount(fn)) + code);
    }
  }

  lemma AfterTakingKeeps(fn: M.Function, f: Footing, host: Host)
    requires EmitBody(fn).Ok? && Footed(fn, f) && RespectsAt(host, Top(f))
    ensures Keeps(f, host, AfterTaking(fn))
  {
    hide EmitRange, SpillParams, Keeps, RespectsAt, FrameOk;
    RangeKeeps(fn, f, host, NO_TARGETS, 0, |fn.insts|, []);
    if fn.frame.Some? {
      SpillKeeps(fn, f, host, ParamCount(fn));
      KeepsThen(f, host, SpillParams(fn, ParamCount(fn)), EmitRange(fn, NO_TARGETS, 0, |fn.insts|, []).code);
    }
  }

  /** How a whole function is run is how its code runs once it has its frame. */
  lemma Entered(fn: M.Function, host: Host, start: State) returns (w: State)
    requires EmitBody(fn).Ok? && CanEnter(fn, start)
    ensures Footed(fn, FootingOf(fn, start.store)) && Standing(FootingOf(fn, start.store), w)
    ensures Top(FootingOf(fn, start.store)) == FramePointer(start.store) + FrameSize(fn)
    ensures Exec(host, EmitBody(fn).code, [], start) == Exec(host, AfterTaking(fn), [], w)
    ensures w == if fn.frame.None? then start else FrameEntry.Taken(fn, start)
  {
    hide Exec, EmitBody, AfterTaking, TakeFrame, FrameOk, FrameBase;
    BodyIs(fn);
    if fn.frame.None? {
      w := start;
      assert [] + AfterTaking(fn) == AfterTaking(fn);
    } else {
      w := FrameEntry.Taken(fn, start);
      FrameTaken(fn, start);
      FrameEntry.TakeFrameExec(host, fn, start);
      Straightline.ExecThen(host, TakeFrame(fn), AfterTaking(fn), [], start, [], w);
    }
  }

  /**
   * One call of an emitted function, from any state: if the functions it calls put the frame pointer
   * back, so does every `return` of it; its callers' frames are untouched; and all its calls are
   * made with the frame pointer at the end of its own frame.
   */
  lemma BodyKeepsFrames(fn: M.Function, host: Host, start: State)
    requires EmitBody(fn).Ok? && CanEnter(fn, start)
    requires RespectsAt(host, FramePointer(start.store) + FrameSize(fn))
    ensures var o := Exec(host, EmitBody(fn).code, [], start);
      && (o.Returning? ==> KeepsFrames(start.store, o.st.store))
      && (o.Normal? ==> FramePointer(o.st.store) == FramePointer(start.store) + FrameSize(fn))
      && (o.Normal? && fn.frame.None? ==> KeepsFrames(start.store, o.st.store))
      && Exec(Guarded(host, FramePointer(start.store) + FrameSize(fn)), EmitBody(fn).code, [], start) == o
  {
    hide Exec, EmitBody, AfterTaking, FrameOk, RespectsAt, Footed;
    var f := FootingOf(fn, start.store);
    var w := Entered(fn, host, start);
    AfterTakingKeeps(fn, f, host);
    var w2 := Entered(fn, Guarded(host, Top(f)), start);
    assert KeepsOn(f, host, AfterTaking(fn), [], w);
  }

  /** A function that is left by running off its end keeps the frame pointer where it is: the frame is
      given back exactly when it was empty. */
  lemma FallingOffKeepsTheFrame(fn: M.Function, host: Host, start: State)
    requires EmitBody(fn).Ok? && CanEnter(fn, start)
    requires RespectsAt(host, FramePointer(start.store) + FrameSize(fn))
    requires Exec(host, EmitBody(fn).code, [], start).Normal?
    ensures FramePointer(Exec(host, EmitBody(fn).code, [], start).st.store) == FramePointer(start.store)
      <==> FrameSize(fn) == 0
  {
    hide Exec, EmitBody, RespectsAt, FrameOk;
    BodyKeepsFrames(fn, host, start);
  }

  /** A function with a frame and no instructions at all. */
  const OPEN_ENDED := M.Function([], [], [], None, Some(M.Frame(0, [], 16, 0)))

  const SILENT := Host([], (s: Store, t: M.Trace, f: nat, a: seq<M.Value>) => None)

  const AT_ZERO := State([I32V(0)], [], 0, Store([0], [], 0, 0))

  /** It can be entered, runs off its end, and leaves the frame pointer 16 bytes higher. */
  lemma OpenEndedKeepsItsFrame()
    ensures EmitBody(OPEN_ENDED).Ok? && CanEnter(OPEN_ENDED, AT_ZERO) && FramePointer(AT_ZERO.store) == 0
    ensures RespectsAt(SILENT, FramePointer(AT_ZERO.store) + FrameSize(OPEN_ENDED))
    ensures var o := Exec(SILENT, EmitBody(OPEN_ENDED).code, [], AT_ZERO);
      o.Normal? && FramePointer(o.st.store) == 16
  {
    hide Exec;
    assert EmitBody(OPEN_ENDED).code == TakeFrame(OPEN_ENDED);
    FrameEntry.TakeFrameExec(SILENT, OPEN_ENDED, AT_ZERO);
  }

  // ---- functions that end in a return never run off their end --------------------------------------------

  lemma DeadIsLeft(host: Host, code: seq<Instr>, stack: seq<Value>, st: State)
    requires EndsDead(code)
    ensures !Exec(host, code, stack, st).Normal?
  {
    hide ExecNumeric, ExecCall, LeaveBlock, ExecLoad, ExecStore, ExecGlobalSet;
    var n := |code| - 1;
    assert code == code[..n] + [code[n]];
    ExecConcat(host, code[..n], [code[n]], stack, st);
    var o := Exec(host, code[..n], stack, st);
    if o.Normal? {
      Single(host, code[n], o.stack, o.st);
    }
  }

  // ---- whole programs -------------------------------------------------------------------------------------

  /** All functions of a program, the global with the frame pointer, and how often each call may go
      around its loops. */
  datatype Program = Program(fns: seq<M.Function>, sigs: seq<M.Signature>, pointer: nat, budget: nat)

  /** Every function returns explicitly, and has its frame planned. */
  ghost predicate Planned(p: Program, k: seq<seq<Kinds>>, largest: nat) {
    |k| == |p.fns| && forall f :: 0 <= f < |p.fns| ==> PlannedOne(p.fns[f], k[f], p.pointer, largest)
  }

  ghost predicate PlannedOne(fn: M.Function, k: seq<Kinds>, pointer: nat, largest: nat) {
    && WellFormed(fn, k) && EndsInReturn(fn) && FrameSize(fn) <= largest
    && (fn.frame.Some? ==> FrameOk(fn) && fn.frame.value.pointer == pointer)
  }

  /** The function can be called with these arguments: they are of its parameters' kinds. */
  predicate Callable(p: Program, s: Store, f: nat, args: seq<M.Value>) {
    && f < |p.fns| && f < |p.sigs| && EmitBody(p.fns[f]).Ok? && s.frameGlobal == p.pointer < |s.globals|
    && CountsParams(p.fns[f], |p.sigs[f].params|) && p.sigs[f].params <= p.fns[f].localKinds
    && M.KindsOf(args) == p.sigs[f].params
  }

  /** A call, with at most `depth` calls live at a time: arguments, then zeroed locals. */
  function Invoke(p: Program, depth: nat, s: Store, f: nat, args: seq<M.Value>): Option<Reply>
    decreases depth, 0
  {
    if depth == 0 || !Callable(p, s, f, args) then None
    else Answer(Exec(HostAt(p, depth - 1), EmitBody(p.fns[f]).code, [], Entry(p, s, f, args)))
  }

  function HostAt(p: Program, depth: nat): Host
    decreases depth, 1
  {
    Host(p.sigs, (s: Store, t: M.Trace, f: nat, a: seq<M.Value>) => Invoke(p, depth, s, f, a))
  }

  /** The arguments, then a zero in each local that the body declares. */
  function Entry(p: Program, s: Store, f: nat, args: seq<M.Value>): State
    requires Callable(p, s, f, args)
  {
    var declared := DeclaredTypes(p.fns[f], |p.sigs[f].params|);
    State(Expand(args) + Zeros(DeclaredValTypes(declared)), [], p.budget, s)
  }

  function Zeros(ts: Types): (r: seq<Value>)
    ensures |r| == |ts|
  {
    seq(|ts|, i requires 0 <= i < |ts| => if ts[i] == TI64 then I64V(0) else I32V(0))
  }

  /** So a function starts with locals of the types that its body was validated with. */
  lemma EntryTyped(p: Program, s: Store, f: nat, args: seq<M.Value>)
    requires Callable(p, s, f, args)
    ensures var fn := p.fns[f]; var params := |p.sigs[f].params|;
      var c := BodyContext(fn, params, DeclaredTypes(fn, params), |s.globals|);
      && TypesOf(Entry(p, s, f, args).locals) == c.locals
      && (fn.frame.Some? ==> FrameBase(fn) < |c.locals|)
  {
    hide EmitBody, ExpandTypes, TypeBytes;
    var fn := p.fns[f];
    var n := |p.sigs[f].params|;
    var ts := DeclaredValTypes(DeclaredTypes(fn, n));
    ExpandTyped(args);
    assert fn.localKinds[..n] == p.sigs[f].params;
    assert TypesOf(Zeros(ts)) == ts;
    TypesOfConcat(Expand(args), Zeros(ts));
  }

  function Answer(o: Outcome): Option<Reply> {
    match o
    case Returning(stack, st) => Some(Reply(PayloadOf(stack), st.store))
    case Normal(stack, st) => Some(Reply(PayloadOf(stack), st.store))
    case _ => None
  }

  /** The payload of a result: the topmost word, or the topmost two. */
  function PayloadOf(stack: seq<Value>): (int, int) {
    var n := |stack|;
    if n == 0 then (0, 0)
    else if n == 1 then (WordOf(stack[0]), 0)
    else (WordOf(stack[n - 2]), WordOf(stack[n - 1]))
  }

  function WordOf(v: Value): int {
    match v
    case I32V(x) => x
    case I64V(x) => x
  }

  /** What `depth` frames of the largest size take. */
  function Room(depth: nat, largest: nat): nat {
    if depth == 0 then 0 else largest + Room(depth - 1, largest)
  }

  lemma EntrySuits(p: Program, k: seq<seq<Kinds>>, largest: nat, s: Store, f: nat, args: seq<M.Value>)
    requires Planned(p, k, largest) && Callable(p, s, f, args) && FramePointer(s) + FrameSize(p.fns[f]) < TWO32
    ensures CanEnter(p.fns[f], Entry(p, s, f, args))
    ensures FrameSize(p.fns[f]) <= largest
  {
    hide FrameOk, WellFormed, EmitBody, FrameBase, DeclaredTypes;
    EntryTyped(p, s, f, args);
    assert PlannedOne(p.fns[f], k[f], p.pointer, largest);
  }

  /** A call of a planned function ends in a return if it ends at all. */
  lemma NeverFallsOff(p: Program, k: seq<seq<Kinds>>, largest: nat, host: Host, s: Store, f: nat, args: seq<M.Value>)
    requires Planned(p, k, largest) && Callable(p, s, f, args)
    ensures !Exec(host, EmitBody(p.fns[f]).code, [], Entry(p, s, f, args)).Normal?
  {
    hide FrameOk, WellFormed, EmitBody, Entry;
    assert PlannedOne(p.fns[f], k[f], p.pointer, largest);
    DeadCode(p.fns[f], k[f]);
    DeadIsLeft(host, EmitBody(p.fns[f]).code, [], Entry(p, s, f, args));
  }

  /** Whole programs, recursion included: while the frames fit below 4 GiB, every call puts the frame
      pointer back and leaves all frames below it as they were. */
  lemma {:induction false} ProgramKeepsFrames(p: Program, k: seq<seq<Kinds>>, largest: nat, depth: nat, top: nat)
    requires Planned(p, k, largest) && top + Room(depth, largest) < TWO32
    ensures RespectsAt(HostAt(p, depth), top)
    decreases depth
  {
    hide Planned, EmitBody, Exec, KeepsFrames, FrameSize;
    var host := HostAt(p, depth);
    forall s: Store, t: M.Trace, f: nat, a: seq<M.Value> | FramePointer(s) == top && host.call(s, t, f, a).Some?
      ensures KeepsFrames(s, host.call(s, t, f, a).value.store)
    {
      CallKeepsFrames(p, k, largest, depth, s, f, a);
    }
  }

  /** One call at the top of the frames, and how its own calls are made. */
  lemma {:induction false} CallKeepsFrames(p: Program, k: seq<seq<Kinds>>, largest: nat, depth: nat, s: Store, f: nat,
      args: seq<M.Value>)
    requires Planned(p, k, largest) && FramePointer(s) + Room(depth, largest) < TWO32 && depth > 0
      && Callable(p, s, f, args)
    ensures var o := Exec(HostAt(p, depth - 1), EmitBody(p.fns[f]).code, [], Entry(p, s, f, args));
      && !o.Normal? && (o.Returning? ==> KeepsFrames(s, o.st.store))
      && Exec(Guarded(HostAt(p, depth - 1), FramePointer(s) + FrameSize(p.fns[f])), EmitBody(p.fns[f]).code, [],
        Entry(p, s, f, args)) == o
    ensures FramePointer(s) + FrameSize(p.fns[f]) + Room(depth - 1, largest) < TWO32
    decreases depth, 0
  {
    hide Planned, EmitBody, Exec, KeepsFrames, CanEnter, HostAt, RespectsAt, Guarded;
    var fn := p.fns[f];
    LargestBounds(p, k, largest, f);
    EntrySuits(p, k, largest, s, f, args);
    ProgramKeepsFrames(p, k, largest, depth - 1, FramePointer(s) + FrameSize(fn));
    BodyKeepsFrames(fn, HostAt(p, depth - 1), Entry(p, s, f, args));
    NeverFallsOff(p, k, largest, HostAt(p, depth - 1), s, f, args);
  }

  lemma LargestBounds(p: Program, k: seq<seq<Kinds>>, largest: nat, f: nat)
    requires Planned(p, k, largest) && f < |p.fns|
    ensures FrameSize(p.fns[f]) <= largest
  {
    assert PlannedOne(p.fns[f], k[f], p.pointer, largest);
  }

  // ---- calls never get stuck ------------------------------------------------------------------------------

  lemma {:induction false} RunKeepsShape(host: Host, code: seq<Instr>, stack: seq<Value>, st: State)
    requires LeavesShape(host)
    ensures var o := Exec(host, code, stack, st); o.Stuck? || KeepsShape(st.store, o.st.store)
    decreases st.fuel, code, 1
  {
    hide ExecInstr, LeavesShape;
    if code != [] {
      StepKeepsShape(host, code[0], stack, st);
      var o := ExecInstr(host, code[0], stack, st);
      if o.Normal? {
        RunKeepsShape(host, code[1..], o.stack, o.st);
      }
    }
  }

  lemma {:induction false} StepKeepsShape(host: Host, i: Instr, stack: seq<Value>, st: State)
    requires LeavesShape(host)
    ensures var o := ExecInstr(host, i, stack, st); o.Stuck? || KeepsShape(st.store, o.st.store)
    decreases st.fuel, i, 0
  {
    hide Exec, Unop, Binop, Collapse, ExpandTypes, WordAt, WordBytes;
    match i
    case Block(body) => RunKeepsShape(host, body, [], st);
    case Loop(body) =>
      RunKeepsShape(host, body, [], st);
      var o := Exec(host, body, [], st);
      if o.Branch? && o.depth == 0 && o.st.fuel > 0 {
        StepKeepsShape(host, i, stack, o.st.(fuel := o.st.fuel - 1));
      }
    case If(thn) => RunKeepsShape(host, thn, [], st);
    case IfElse(_, thn, els) =>
      RunKeepsShape(host, thn, [], st);
      RunKeepsShape(host, els, [], st);
    case _ =>
  }

  lemma {:induction false} ProgramKeepsShape(p: Program, depth: nat)
    ensures LeavesShape(HostAt(p, depth))
    decreases depth
  {
    hide EmitBody, Exec, Entry;
    var host := HostAt(p, depth);
    forall s: Store, t: M.Trace, f: nat, a: seq<M.Value> | host.call(s, t, f, a).Some?
      ensures KeepsShape(s, host.call(s, t, f, a).value.store)
    {
      assert host.call(s, t, f, a) == Invoke(p, depth, s, f, a);
      EntryStore(p, s, f, a);
      ProgramKeepsShape(p, depth - 1);
      RunKeepsShape(HostAt(p, depth - 1), EmitBody(p.fns[f]).code, [], Entry(p, s, f, a));
    }
  }

  lemma EntryStore(p: Program, s: Store, f: nat, args: seq<M.Value>)
    requires Callable(p, s, f, args)
    ensures Entry(p, s, f, args).store == s
  {
  }

  /** A call of a planned function on arguments of its kinds is never stuck, at any depth: if it does not
      answer, it trapped, ran out of its budget, or called more deeply than was allowed. */
  lemma CallsNeverStuck(p: Program, k: seq<seq<Kinds>>, largest: nat, depth: nat, s: Store, f: nat,
      args: seq<M.Value>)
    requires Planned(p, k, largest) && Callable(p, s, f, args) && SizesFit(p.fns[f]) && p.fns[f].sigs == p.sigs
    ensures !Exec(HostAt(p, depth), EmitBody(p.fns[f]).code, [], Entry(p, s, f, args)).Stuck?
  {
    hide Exec, EmitBody, Entry, DeclaredTypes, Suits, BodyOk, WellFormed, FrameOk, LeavesShape;
    var fn := p.fns[f];
    var params := |p.sigs[f].params|;
    assert PlannedOne(fn, k[f], p.pointer, largest);
    EntryTyped(p, s, f, args);
    EntryStore(p, s, f, args);
    ProgramKeepsShape(p, depth);
    DeclaredSuits(fn, params, |s.globals|);
    var c := BodyContext(fn, params, DeclaredTypes(fn, params), |s.globals|);
    EmittedFunctionValidates(fn, k[f], c);
    ValidBodyIsSafe(c, HostAt(p, depth), EmitBody(fn).code, Entry(p, s, f, args));
  }

  // ---- live frames lie end to end ----------------------------------------------------------------------------

  /** The same call, except that a frame may only begin where its caller's frame ends. */
  function NestedInvoke(p: Program, depth: nat, end: nat, s: Store, f: nat, args: seq<M.Value>): Option<Reply>
    decreases depth, 0
  {
    if depth == 0 || FramePointer(s) != end || !Callable(p, s, f, args) then None
    else Answer(Exec(NestedHost(p, depth - 1, end + FrameSize(p.fns[f])), EmitBody(p.fns[f]).code, [],
      Entry(p, s, f, args)))
  }

  function NestedHost(p: Program, depth: nat, end: nat): Host
    decreases depth, 1
  {
    Host(p.sigs, (s: Store, t: M.Trace, f: nat, a: seq<M.Value>) => NestedInvoke(p, depth, end, s, f, a))
  }

  ghost predicate SameAnswers(a: Host, b: Host) {
    a.sigs == b.sigs && forall s, t, f, args :: a.call(s, t, f, args) == b.call(s, t, f, args)
  }

  /** Code sees its host through the answers only. */
  lemma {:induction false} SameHostSameRun(a: Host, b: Host, code: seq<Instr>, stack: seq<Value>, st: State)
    requires SameAnswers(a, b)
    ensures Exec(a, code, stack, st) == Exec(b, code, stack, st)
    decreases st.fuel, code, 1
  {
    hide ExecInstr, SameAnswers;
    if code != [] {
      SameHostSameStep(a, b, code[0], stack, st);
      var o := ExecInstr(a, code[0], stack, st);
      if o.Normal? {
        SameHostSameRun(a, b, code[1..], o.stack, o.st);
      }
    }
  }

  lemma {:induction false} SameHostSameStep(a: Host, b: Host, i: Instr, stack: seq<Value>, st: State)
    requires SameAnswers(a, b)
    ensures ExecInstr(a, i, stack, st) == ExecInstr(b, i, stack, st)
    decreases st.fuel, i, 0
  {
    hide Exec, LeaveBlock, ExecNumeric, ExecLoad, ExecStore, ExecGlobalSet, Collapse, ExpandTypes;
    match i
    case Block(body) => SameHostSameRun(a, b, body, [], st);
    case Loop(body) =>
      SameHostSameRun(a, b, body, [], st);
      var o := Exec(a, body, [], st);
      if o.Branch? && o.depth == 0 && o.st.fuel > 0 {
        SameHostSameStep(a, b, i, stack, o.st.(fuel := o.st.fuel - 1));
      }
    case If(thn) => SameHostSameRun(a, b, thn, [], st);
    case IfElse(_, thn, els) =>
      SameHostSameRun(a, b, thn, [], st);
      SameHostSameRun(a, b, els, [], st);
    case _ =>
  }

  /** Live frames lie end to end, so no two of them overlap: requiring it of every call changes nothing. */
  lemma {:induction false} FramesLieEndToEnd(p: Program, k: seq<seq<Kinds>>, largest: nat, depth: nat, s: Store,
      f: nat, args: seq<M.Value>)
    requires Planned(p, k, largest) && FramePointer(s) + Room(depth, largest) < TWO32
    ensures NestedInvoke(p, depth, FramePointer(s), s, f, args) == Invoke(p, depth, s, f, args)
    decreases depth
  {
    hide Planned, EmitBody, Exec, KeepsFrames, Entry, FrameSize, FramePointer;
    if depth > 0 && Callable(p, s, f, args) {
      CallKeepsFrames(p, k, largest, depth, s, f, args);
      var end := FramePointer(s) + FrameSize(p.fns[f]);
      var nested, guarded := NestedHost(p, depth - 1, end), Guarded(HostAt(p, depth - 1), end);
      forall s1: Store, t: M.Trace, g: nat, a: seq<M.Value>
        ensures nested.call(s1, t, g, a) == guarded.call(s1, t, g, a)
      {
        assert nested.call(s1, t, g, a) == NestedInvoke(p, depth - 1, end, s1, g, a);
        if FramePointer(s1) == end {
          FramesLieEndToEnd(p, k, largest, depth - 1, s1, g, a);
          assert guarded.call(s1, t, g, a) == HostAt(p, depth - 1).call(s1, t, g, a) == Invoke(p, depth - 1, s1, g, a);
        }
      }
      SameHostSameRun(nested, guarded, EmitBody(p.fns[f]).code, [], Entry(p, s, f, args));
    }
  }
}
