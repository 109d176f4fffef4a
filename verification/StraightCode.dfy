/** Code without jumps is emitted instruction by instruction. */
module StraightCode {
  import M = Mir
  import opened StackMap
  import opened Wasm
  import opened Emitter

  predicate NoJumps(fn: M.Function, s: nat, e: nat) {
    forall j :: s <= j < e && j < |fn.insts| ==> !fn.insts[j].JumpIfFalse? && !fn.insts[j].Jump?
  }

  /** The code of the instructions in [s, e), one after the other. */
  function EmitLeaves(fn: M.Function, t: Targets, s: nat, e: nat, ks: Kinds): Emitted
    requires e <= |fn.insts|
    decreases if s < e then e - s else 0
  {
    if s >= e then Ok([], ks)
    else
      match EmitLeaf(fn, t, fn.insts[s], ks)
      case Err(x) => Err(x)
      case Ok(code, stack) =>
        match EmitLeaves(fn, t, s + 1, e, stack)
        case Err(x) => Err(x)
        case Ok(more, stack') => Ok(code + more, stack')
  }

  lemma {:induction false} NoLoop(fn: M.Function, start: nat, s: nat, e: nat)
    requires e <= |fn.insts| && NoJumps(fn, s, e)
    ensures FindLoopFrom(fn, start, e, s).None?
    decreases if s < e then e - s else 0
  {
    if s < e {
      NoLoop(fn, start, s + 1, e);
    }
  }

  lemma {:induction false} NoBackedge(fn: M.Function, s: nat, e: nat)
    requires e <= |fn.insts| && NoJumps(fn, s, e)
    ensures FindBackedge(fn, s, e).None?
    decreases e
  {
    if e > s + 1 {
      NoBackedge(fn, s, e - 1);
    }
  }

  lemma {:induction false} StraightIsLeaves(fn: M.Function, t: Targets, s: nat, e: nat, ks: Kinds)
    requires e <= |fn.insts| && NoJumps(fn, s, e)
    ensures EmitRange(fn, t, s, e, ks) == EmitLeaves(fn, t, s, e, ks)
    decreases if s < e then e - s else 0
  {
    hide EmitLeaf, EmitBranch, EmitWhile, EmitForever;
    if s < e {
      NoLoop(fn, s, s, e);
      NoBackedge(fn, s, e);
      var leaf := EmitLeaf(fn, t, fn.insts[s], ks);
      if leaf.Ok? {
        StraightIsLeaves(fn, t, s + 1, e, leaf.stack);
      }
    }
  }
}
