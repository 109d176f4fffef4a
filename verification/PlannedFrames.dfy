/** The frames that are planned are frames as the emitted code needs them. */
module PlannedFrames {
  import M = Mir
  import opened FrameSlots
  import opened FrameLayout

  /** The function's frame is the plan for its locals, each of the size of its kind. */
  predicate IsPlanned(fn: M.Function, locals: seq<Local>, needs: seq<Need>) {
    && fn.frame.Some? && fn.frame.value.params <= |fn.localKinds| == |locals| == |fn.frame.value.offsets|
    && fn.frame.value.size == FrameSize(locals, needs)
    && forall i :: 0 <= i < |locals| ==>
         locals[i].size == SlotSize(fn.localKinds[i]) && fn.frame.value.offsets[i] == Align4(LocalsEnd(locals, i))
  }

  lemma {:induction false} EndsRise(locals: seq<Local>, i: nat, n: nat)
    requires i <= n <= |locals|
    ensures LocalsEnd(locals, i) <= LocalsEnd(locals, n)
    decreases n
  {
    if i < n {
      EndsRise(locals, i, n - 1);
    }
  }

  lemma {:induction false} TempsRise(start: nat, needs: seq<Need>, n: nat)
    requires n <= |needs|
    ensures start <= TempsEnd(start, needs, n) && start <= ClosuresEnd(start, needs, n)
    decreases n
  {
    if n > 0 {
      TempsRise(start, needs, n - 1);
    }
  }

  lemma LocalStep(locals: seq<Local>, i: nat)
    requires i < |locals|
    ensures LocalsEnd(locals, i) <= Align4(LocalsEnd(locals, i))
    ensures Align4(LocalsEnd(locals, i)) + locals[i].size <= LocalsEnd(locals, i + 1)
  {
  }

  lemma LocalsFit(locals: seq<Local>, needs: seq<Need>)
    ensures LocalsEnd(locals, |locals|) <= FrameSize(locals, needs)
  {
    hide LocalsEnd, ClosuresEnd, TempsEnd, HasAlloc;
    var start := TempStart(locals);
    TempsRise(start, needs, |needs|);
    TempsRise(AllocEnd(TempsEnd(start, needs, |needs|), needs), needs, |needs|);
  }

  /** Planned slots lie inside the frame and do not overlap. */
  lemma PlannedFrameIsOk(fn: M.Function, locals: seq<Local>, needs: seq<Need>)
    requires IsPlanned(fn, locals, needs)
    ensures FrameOk(fn)
  {
    hide LocalsEnd, FrameSize, Align4;
    LocalsFit(locals, needs);
    forall i | 0 <= i < |fn.localKinds|
      ensures SlotEnd(fn, i) <= fn.frame.value.size
    {
      LocalStep(locals, i);
      EndsRise(locals, i + 1, |locals|);
    }
    forall i, j | 0 <= i < j < |fn.localKinds|
      ensures SlotsApart(fn, i, j)
    {
      LocalStep(locals, i);
      LocalStep(locals, j);
      EndsRise(locals, i + 1, j);
    }
  }
}
