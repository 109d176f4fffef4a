/** The main theorems about whole functions. */
module Compiler {
  import opened Words
  import M = Mir
  import W = Wasm
  import opened StackMap
  import opened Emitter
  import opened Slots
  import opened FrameSlots
  import opened FrameEntry
  import opened Straightline
  import opened Matching
  import opened Simulation
  import opened Adequacy

  /** The flat run of a whole function, and the run of the code emitted for it. */
  function FlatRun(fn: M.Function, oracle: M.Oracle, locals: seq<M.Value>, trace: M.Trace, fuel: nat): M.Outcome {
    M.Run(fn, oracle, 0, |fn.insts|, 0, [], M.State(locals, trace, fuel))
  }

  function WasmRun(fn: M.Function, oracle: M.Oracle, start: W.State): W.Outcome
    requires EmitBody(fn).Ok?
  {
    W.Exec(W.HostOf(fn, oracle), EmitBody(fn).code, [], start)
  }

  /** The two runs end alike: same result, or a trap, or the budget is used up, after the same
      calls; or both fall off the end. A missing result is an explicit trap in the emitted code. */
  ghost predicate EndAlike(fn: M.Function, fo: M.Outcome, wo: W.Outcome) {
    match fo
    case Finished(Some(v), st) => wo.Returning? && wo.stack == W.Slots(v) && wo.st.trace == st.trace
    case Finished(None, st) => (if fn.result.Some? then wo.Trap? else wo.Returning?) && wo.st.trace == st.trace
    case Crashed(st) => wo.Trap? && wo.st.trace == st.trace
    case OutOfFuel(st) => wo.Exhausted? && wo.st.trace == st.trace
    case Exit(pc, stack, st) =>
      pc == |fn.insts| && wo.Normal? && wo.stack == W.Expand(stack) && wo.st.trace == st.trace
        && Held(fn, st.locals, wo.st)
    case Refused => false
  }

  lemma NeverBelowEmpty(fn: M.Function, k: seq<Kinds>)
    requires WellFormed(fn, k)
    ensures StaysAbove(fn, k, 0, |fn.insts|, 0)
  {
    forall j: nat | j < |fn.insts|
      ensures Low(fn, k, j) >= 0
    {
      InstAt(fn, k, j);
    }
  }

  /** Structuring preserves meaning, for all inputs, all callees, and every budget. */
  lemma StructuringPreservesMeaning(fn: M.Function, k: seq<Kinds>, oracle: M.Oracle, locals: seq<M.Value>,
      start: W.State)
    requires WellFormed(fn, k) && EmitBody(fn).Ok? && Starts(fn, locals, start)
    ensures EndAlike(fn, FlatRun(fn, oracle, locals, start.trace, start.fuel), WasmRun(fn, oracle, start))
  {
    hide M.Step, W.ExecInstr, EmitRange, Held, Starts, InstOk, Prologue;
    var code := EmitRange(fn, NO_TARGETS, 0, |fn.insts|, []).code;
    var w := PrologueCorrect(W.HostOf(fn, oracle), fn, locals, start);
    if fn.frame.Some? {
      ExecThen(W.HostOf(fn, oracle), Prologue(fn), code, [], start, [], w);
    } else {
      NoPrologue(W.HostOf(fn, oracle), fn, start);
    }
    NeverBelowEmpty(fn, k);
    RangeSim(fn, k, oracle, NO_TARGETS, 0, |fn.insts|, [], [], M.State(locals, start.trace, start.fuel), w);
    var fo := FlatRun(fn, oracle, locals, start.trace, start.fuel);
    if fo.Exit? {
      assert fo.stack[0..] == fo.stack;
    }
  }

  lemma NoPrologue(host: W.Host, fn: M.Function, start: W.State)
    requires fn.frame.None?
    ensures W.Exec(host, Prologue(fn), [], start) == W.Normal([], start)
  {
  }

  /** How a function starts does not depend on the budget. */
  lemma StartsWithFuel(fn: M.Function, locals: seq<M.Value>, start: W.State, fuel: nat)
    requires Starts(fn, locals, start)
    ensures Starts(fn, locals, start.(fuel := fuel))
  {
    hide InMemory, LocalsMatch, FrameOk, LocalCount;
  }

  /** A flat run that ends is matched by the emitted code. */
  lemma RunsArePreserved(fn: M.Function, k: seq<Kinds>, oracle: M.Oracle, locals: seq<M.Value>, start: W.State, n: nat)
    requires WellFormed(fn, k) && EmitBody(fn).Ok? && Starts(fn, locals, start)
    requires !Iterate(fn, oracle, n, 0, [], M.State(locals, start.trace, 0)).OutOfFuel?
    ensures forall fuel: nat :: fuel >= n ==>
      EndAlike(fn, Iterate(fn, oracle, n, 0, [], M.State(locals, start.trace, 0)),
        WasmRun(fn, oracle, start.(fuel := fuel)))
  {
    forall fuel: nat | fuel >= n
      ensures EndAlike(fn, Iterate(fn, oracle, n, 0, [], M.State(locals, start.trace, 0)),
        WasmRun(fn, oracle, start.(fuel := fuel)))
    {
      IterationWithinBudget(fn, oracle, n, 0, [], M.State(locals, start.trace, 0), fuel);
      StartsWithFuel(fn, locals, start, fuel);
      StructuringPreservesMeaning(fn, k, oracle, locals, start.(fuel := fuel));
      EndSame(fn, Iterate(fn, oracle, n, 0, [], M.State(locals, start.trace, 0)),
        FlatRun(fn, oracle, locals, start.trace, fuel), WasmRun(fn, oracle, start.(fuel := fuel)));
    }
  }

  /** Emitted code that ends does what the flat machine does. */
  lemma EmittedRunsAreReal(fn: M.Function, k: seq<Kinds>, oracle: M.Oracle, locals: seq<M.Value>, start: W.State,
      fuel: nat) returns (n: nat)
    requires WellFormed(fn, k) && EmitBody(fn).Ok? && Starts(fn, locals, start)
    requires !WasmRun(fn, oracle, start.(fuel := fuel)).Exhausted?
    ensures EndAlike(fn, Iterate(fn, oracle, n, 0, [], M.State(locals, start.trace, 0)),
      WasmRun(fn, oracle, start.(fuel := fuel)))
  {
    StartsWithFuel(fn, locals, start, fuel);
      StructuringPreservesMeaning(fn, k, oracle, locals, start.(fuel := fuel));
    n := BudgetIsIteration(fn, oracle, 0, [], M.State(locals, start.trace, fuel), M.State(locals, start.trace, 0));
    EndSame(fn, Iterate(fn, oracle, n, 0, [], M.State(locals, start.trace, 0)),
      FlatRun(fn, oracle, locals, start.trace, fuel), WasmRun(fn, oracle, start.(fuel := fuel)));
  }

  /** The flat machine stops if and only if the emitted code stops. */
  lemma SameTermination(fn: M.Function, k: seq<Kinds>, oracle: M.Oracle, locals: seq<M.Value>, start: W.State)
    requires WellFormed(fn, k) && EmitBody(fn).Ok? && Starts(fn, locals, start)
    ensures (exists n: nat :: !Iterate(fn, oracle, n, 0, [], M.State(locals, start.trace, 0)).OutOfFuel?)
       <==> (exists fuel: nat :: !WasmRun(fn, oracle, start.(fuel := fuel)).Exhausted?)
  {
    if n: nat :| !Iterate(fn, oracle, n, 0, [], M.State(locals, start.trace, 0)).OutOfFuel? {
      RunsArePreserved(fn, k, oracle, locals, start, n);
      EndNotExhausted(fn, Iterate(fn, oracle, n, 0, [], M.State(locals, start.trace, 0)),
        WasmRun(fn, oracle, start.(fuel := n)));
    }
    if fuel: nat :| !WasmRun(fn, oracle, start.(fuel := fuel)).Exhausted? {
      var n := EmittedRunsAreReal(fn, k, oracle, locals, start, fuel);
      EndNotExhausted(fn, Iterate(fn, oracle, n, 0, [], M.State(locals, start.trace, 0)),
        WasmRun(fn, oracle, start.(fuel := fuel)));
    }
  }

  lemma EndSame(fn: M.Function, a: M.Outcome, b: M.Outcome, wo: W.Outcome)
    requires SameButFuel(a, b) && EndAlike(fn, b, wo)
    ensures EndAlike(fn, a, wo)
  {
  }

  lemma EndNotExhausted(fn: M.Function, fo: M.Outcome, wo: W.Outcome)
    requires EndAlike(fn, fo, wo)
    ensures fo.OutOfFuel? <==> wo.Exhausted?
  {
  }
}
