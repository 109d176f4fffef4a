/**
 * The budgeted machine of `Mir.Run` against plain iteration of the flat machine's step: a budget
 * of backward jumps only ever cuts a run short, and every run that ends does so within some budget.
 */
module Adequacy {
  import opened Words
  import opened Mir

  /** At most `n + 1` steps of the flat machine, with no other budget. */
  function Iterate(fn: Function, oracle: Oracle, n: nat, pc: nat, stack: seq<Value>, st: State): Outcome {
    if pc >= |fn.insts| then Exit(pc, stack, st)
    else
      match Step(fn, oracle, pc, stack, st)
      case Returned(v, st') => Finished(v, st')
      case Trapped(st') => Crashed(st')
      case Faulted => Refused
      case Goto(pc', stack', st') =>
        if pc' >= |fn.insts| then Exit(pc', stack', st')
        else if n == 0 then OutOfFuel(st')
        else Iterate(fn, oracle, n - 1, pc', stack', st')
  }

  /** An outcome with its leftover budget replaced. */
  function WithFuel(o: Outcome, fuel: nat): Outcome {
    match o
    case Exit(pc, stack, st) => Exit(pc, stack, st.(fuel := fuel))
    case Finished(v, st) => Finished(v, st.(fuel := fuel))
    case Crashed(st) => Crashed(st.(fuel := fuel))
    case OutOfFuel(st) => OutOfFuel(st.(fuel := fuel))
    case Refused => o
  }

  predicate SameButFuel(a: Outcome, b: Outcome) {
    WithFuel(a, 0) == WithFuel(b, 0)
  }

  /** The flat machine never looks at the budget. */
  lemma StepIgnoresFuel(fn: Function, oracle: Oracle, pc: nat, stack: seq<Value>, st: State, fuel: nat)
    requires pc < |fn.insts|
    ensures Step(fn, oracle, pc, stack, st.(fuel := fuel)) ==
      match Step(fn, oracle, pc, stack, st)
      case Goto(pc', stack', st') => Goto(pc', stack', st'.(fuel := fuel))
      case Returned(v, st') => Returned(v, st'.(fuel := fuel))
      case Trapped(st') => Trapped(st'.(fuel := fuel))
      case Faulted => Faulted
  {
    hide Binary32, Binary64;
  }

  /** A run that ends within `n` steps ends the same way within a budget of `n` backward jumps. */
  lemma {:induction false} IterationWithinBudget(fn: Function, oracle: Oracle, n: nat, pc: nat, stack: seq<Value>,
      st: State, fuel: nat)
    requires !Iterate(fn, oracle, n, pc, stack, st).OutOfFuel? && fuel >= n
    ensures SameButFuel(Iterate(fn, oracle, n, pc, stack, st),
      Run(fn, oracle, 0, |fn.insts|, pc, stack, st.(fuel := fuel)))
    decreases n
  {
    hide StepSimple;
    if pc < |fn.insts| {
      StepIgnoresFuel(fn, oracle, pc, stack, st, fuel);
      StepKeepsFuel(fn, oracle, pc, stack, st.(fuel := fuel));
      var g := Step(fn, oracle, pc, stack, st);
      if g.Goto? && g.pc < |fn.insts| {
        IterationWithinBudget(fn, oracle, n - 1, g.pc, g.stack, g.st, if g.pc > pc then fuel else fuel - 1);
      }
    }
  }

  /** A run that ends within its budget ends the same way after some number of steps. */
  lemma {:induction false} BudgetIsIteration(fn: Function, oracle: Oracle, pc: nat, stack: seq<Value>, st: State,
      plain: State) returns (n: nat)
    requires st == plain.(fuel := st.fuel) && !Run(fn, oracle, 0, |fn.insts|, pc, stack, st).OutOfFuel?
    ensures SameButFuel(Iterate(fn, oracle, n, pc, stack, plain), Run(fn, oracle, 0, |fn.insts|, pc, stack, st))
    decreases st.fuel, if pc < |fn.insts| then |fn.insts| - pc else 0
  {
    hide StepSimple;
    n := 0;
    if pc < |fn.insts| {
      StepIgnoresFuel(fn, oracle, pc, stack, plain, st.fuel);
      StepKeepsFuel(fn, oracle, pc, stack, st);
      var g, g' := Step(fn, oracle, pc, stack, st), Step(fn, oracle, pc, stack, plain);
      if g.Goto? && g.pc < |fn.insts| {
        var m := BudgetIsIteration(fn, oracle, g.pc, g.stack, if g.pc > pc then g.st
          else g.st.(fuel := g.st.fuel - 1), g'.st);
        n := m + 1;
      }
    }
  }
}
