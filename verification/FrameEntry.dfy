/** Entering a function: taking a frame and storing the parameters in it. */
module FrameEntry {
  import opened Words
  import opened Memory
  import M = Mir
  import W = Wasm
  import opened StackMap
  import opened Emitter
  import opened Slots
  import opened FrameSlots
  import opened Straightline
  import opened InstSim
  import opened FrameSim

  /** There is room for the frame between the frame pointer and the end of memory. */
  ghost predicate Room(fn: M.Function, w: W.State)
    requires fn.frame.Some?
  {
    && |w.locals| == LocalCount(fn) && fn.frame.value.pointer == w.store.frameGlobal < |w.store.globals|
    && w.store.frameStart <= FramePointer(w.store)
    && FramePointer(w.store) + fn.frame.value.size <= |w.store.memory|
      && FramePointer(w.store) + fn.frame.value.size < TWO32
  }

  /** The parameters are where the caller put them; a local of a frame that is not a parameter starts
      as whatever its slot held before. */
  ghost predicate Starts(fn: M.Function, locals: seq<M.Value>, w: W.State) {
    if fn.frame.None? then LocalsMatch(fn, locals, w.locals)
    else
      && FrameOk(fn) && M.KindsOf(locals) == fn.localKinds && Room(fn, w)
      && W.Expand(locals[..ParamCount(fn)]) <= w.locals
      && forall i :: ParamCount(fn) <= i < |locals| ==>
        InMemory(locals[i], w.store.memory, FramePointer(w.store) + fn.frame.value.offsets[i])
  }

  /** The frame is taken and `n` parameters are stored. */
  ghost predicate Spilled(fn: M.Function, locals: seq<M.Value>, n: nat, w: W.State) {
    && FrameOk(fn) && M.KindsOf(locals) == fn.localKinds && HoldsFrame(fn, w)
      && W.Expand(locals[..ParamCount(fn)]) <= w.locals
    && forall i :: 0 <= i < |locals| && (i < n || ParamCount(fn) <= i) ==>
         InMemory(locals[i], w.store.memory, BaseOf(fn, w) + fn.frame.value.offsets[i])
  }

  // ---- taking the frame --------------------------------------------------------------------------

  function Taken(fn: M.Function, w: W.State): W.State
    requires fn.frame.Some? && fn.frame.value.pointer < |w.store.globals| && FrameBase(fn) < |w.locals|
  {
    var g := w.store.globals[fn.frame.value.pointer];
    w.(locals := w.locals[FrameBase(fn) := W.I32V(g)],
       store := w.store.(globals := w.store.globals[fn.frame.value.pointer := Wrap32(g + Wrap32(fn.frame.value.size))]))
  }

  lemma TakeFrameExec(host: W.Host, fn: M.Function, w: W.State)
    requires fn.frame.Some? && fn.frame.value.pointer < |w.store.globals| && FrameBase(fn) < |w.locals|
    ensures W.Exec(host, TakeFrame(fn), [], w) == W.Normal([], Taken(fn, w))
  {
    hide W.ExecNumeric, W.ExecCall, W.LeaveBlock, FrameBase;
    var p, b := fn.frame.value.pointer, FrameBase(fn);
    var size: I32 := Wrap32(fn.frame.value.size);
    var g: I32 := w.store.globals[p];
    var next: I32 := Wrap32(g as int + size as int);
    var w1 := w.(locals := w.locals[b := W.I32V(g)]);
    var save, sum := [W.GlobalGet(p), W.LocalSet(b)], [W.LocalGet(b), W.I32Const(size), W.Numeric(0x6a)];
    ExecTwo(host, save[0], save[1], [], w);
    assert ([] + [W.I32V(g)])[..0] == [];
    assert TakeFrame(fn) == save + (sum + [W.GlobalSet(p)]);
    ExecThen(host, save, sum + [W.GlobalSet(p)], [], w, [], w1);
    AddressCorrect(host, fn, fn.frame.value.size, [], w1);
    assert FrameAddress(fn, fn.frame.value.size) == sum && [] + [W.I32V(next)] == [W.I32V(next)];
    ExecThen(host, sum, [W.GlobalSet(p)], [], w1, [W.I32V(next)], w1);
    SetPointer(host, p, next, w1);
  }

  lemma SetPointer(host: W.Host, p: nat, next: I32, w: W.State)
    requires p < |w.store.globals|
    ensures W.Exec(host, [W.GlobalSet(p)], [W.I32V(next)], w)
      == W.Normal([], w.(store := w.store.(globals := w.store.globals[p := next])))
  {
    ExecOne(host, W.GlobalSet(p), [W.I32V(next)], w);
    assert [W.I32V(next)][..0] == [];
  }

  /** The new frame starts where the frame pointer was. */
  lemma TakenHolds(fn: M.Function, locals: seq<M.Value>, w: W.State)
    requires fn.frame.Some? && Starts(fn, locals, w)
    ensures FrameBase(fn) < |w.locals| && BaseOf(fn, Taken(fn, w)) == FramePointer(w.store)
    ensures Spilled(fn, locals, 0, Taken(fn, w))
  {
    hide LocalCount, InMemory, FrameOk, FrameBase;
    Parks(fn, M.KI32);
    AddressSum(w.store.globals[fn.frame.value.pointer], fn.frame.value.size);
    ParamsBelow(fn, locals);
    var w1 := Taken(fn, w);
    assert W.Expand(locals[..ParamCount(fn)]) <= w1.locals;
  }

  lemma ParamsBelow(fn: M.Function, locals: seq<M.Value>)
    requires M.KindsOf(locals) == fn.localKinds
    ensures |W.Expand(locals[..ParamCount(fn)])| == FrameBase(fn)
  {
    ExpandTyped(locals[..ParamCount(fn)]);
    KindsOfTake(locals, ParamCount(fn));
    assert |W.TypesOf(W.Expand(locals[..ParamCount(fn)]))| == |W.Expand(locals[..ParamCount(fn)])|;
  }

  // ---- storing the parameters --------------------------------------------------------------------

  lemma ParamInLocals(fn: M.Function, locals: seq<M.Value>, i: nat, wlocals: seq<W.Value>)
    requires M.KindsOf(locals) == fn.localKinds && i < ParamCount(fn) && W.Expand(locals[..ParamCount(fn)]) <= wlocals
    ensures InLocals(locals[i], LocalIndex(fn, i), wlocals)
  {
    hide W.Slots, W.Expand, W.ExpandTypes;
    var params := locals[..ParamCount(fn)];
    var pre, v, post := params[..i], params[i], params[i + 1..];
    assert params == pre + [v] + post && pre == locals[..i];
    ExpandTyped(pre);
    KindsOfTake(locals, i);
    ExpandPush(pre, v);
    ExpandConcat(pre + [v], post);
    assert |W.TypesOf(W.Expand(pre))| == |W.Expand(pre)|;
    Middle(W.Expand(pre), W.Slots(v), W.Expand(post));
    var x, e := LocalIndex(fn, i), W.Expand(params);
    assert wlocals[x..x + |W.Slots(v)|] == e[x..x + |W.Slots(v)|];
  }

  lemma SpillOne(host: W.Host, fn: M.Function, locals: seq<M.Value>, n: nat, w: W.State) returns (w1: W.State)
    requires n < ParamCount(fn) && Spilled(fn, locals, n, w)
    ensures W.Exec(host, StoreLocal(fn, fn.localKinds[n], fn.frame.value.offsets[n], LocalIndex(fn, n)), [], w)
      == W.Normal([], w1)
    ensures Spilled(fn, locals, n + 1, w1) && w1.trace == w.trace && w1.fuel == w.fuel
  {
    hide W.Exec, StoreLocal, Stored, InMemory, LocalCount, FrameBase, W.Expand;
    var offsets := fn.frame.value.offsets;
    KindHeld(locals, fn.localKinds, n);
    ParamInLocals(fn, locals, n, w.locals);
    SlotFits(fn, n, w);
    StoreLocalCorrect(host, fn, locals[n], offsets[n], LocalIndex(fn, n), [], w);
    w1 := Stored(fn, offsets[n], locals[n], w);
    StoredHolds(fn, offsets[n], locals[n], w);
    SameBase(fn, w, w1.store.memory);
    assert |w1.store.memory| == |w.store.memory|;
    forall j | 0 <= j < |locals| && (j < n + 1 || ParamCount(fn) <= j)
      ensures InMemory(locals[j], w1.store.memory, BaseOf(fn, w1) + offsets[j])
    {
      if j != n {
        KindHeld(locals, fn.localKinds, j);
        assert InMemory(locals[j], w.store.memory, BaseOf(fn, w) + offsets[j]);
        assert if j < n then SlotsApart(fn, j, n) else SlotsApart(fn, n, j);
        assert SlotEnd(fn, j) <= fn.frame.value.size;
        InMemorySame(locals[j], w.store.memory, w1.store.memory, BaseOf(fn, w) + offsets[j]);
      }
    }
  }

  lemma NothingSpilled(host: W.Host, fn: M.Function, w: W.State)
    requires fn.frame.Some?
    ensures W.Exec(host, SpillParams(fn, 0), [], w) == W.Normal([], w)
  {
  }

  lemma {:induction false} SpillCorrect(host: W.Host, fn: M.Function, locals: seq<M.Value>, n: nat, w: W.State)
      returns (w1: W.State)
    requires n <= ParamCount(fn) && Spilled(fn, locals, 0, w)
    ensures W.Exec(host, SpillParams(fn, n), [], w) == W.Normal([], w1)
    ensures Spilled(fn, locals, n, w1) && w1.trace == w.trace && w1.fuel == w.fuel
    decreases n
  {
    hide StoreLocal, InMemory, HoldsFrame, W.Expand, W.Exec, LocalIndex;
    if n == 0 {
      NothingSpilled(host, fn, w);
      w1 := w;
    } else {
      var w0 := SpillCorrect(host, fn, locals, n - 1, w);
      w1 := SpillOne(host, fn, locals, n - 1, w0);
      var store := StoreLocal(fn, fn.localKinds[n - 1], fn.frame.value.offsets[n - 1], LocalIndex(fn, n - 1));
      ExecThen(host, SpillParams(fn, n - 1), store, [], w, [], w0);
    }
  }

  /** After the prologue the MIR locals are where the function keeps them. */
  lemma PrologueCorrect(host: W.Host, fn: M.Function, locals: seq<M.Value>, w: W.State) returns (w1: W.State)
    requires Starts(fn, locals, w)
    ensures W.Exec(host, Prologue(fn), [], w) == W.Normal([], w1)
    ensures Held(fn, locals, w1) && w1.trace == w.trace && w1.fuel == w.fuel
  {
    hide InMemory, HoldsFrame, W.Expand, W.ExecInstr, TakeFrame, SpillParams, Taken, LocalsMatch;
    if fn.frame.None? {
      w1 := w;
    } else {
      TakenHolds(fn, locals, w);
      TakeFrameExec(host, fn, w);
      w1 := SpillCorrect(host, fn, locals, ParamCount(fn), Taken(fn, w));
      TakenHistory(fn, w);
      ExecThen(host, TakeFrame(fn), SpillParams(fn, ParamCount(fn)), [], w, [], Taken(fn, w));
    }
  }

  lemma TakenHistory(fn: M.Function, w: W.State)
    requires fn.frame.Some? && fn.frame.value.pointer < |w.store.globals| && FrameBase(fn) < |w.locals|
    ensures Taken(fn, w).trace == w.trace && Taken(fn, w).fuel == w.fuel
  {
  }
}
