/** How the locals of a function with a frame lie in linear memory. */
module FrameSlots {
  import opened Words
  import opened Memory
  import M = Mir
  import W = Wasm
  import opened StackMap
  import opened Emitter
  import opened Slots

  function SlotSize(k: M.Kind): nat {
    if k == M.KI32 then 4 else 8
  }

  /** The planned slots lie inside the frame and do not overlap. */
  predicate FrameOk(fn: M.Function) {
    && fn.frame.Some? && fn.frame.value.params <= |fn.localKinds| == |fn.frame.value.offsets|
    && (forall i :: 0 <= i < |fn.localKinds| ==> SlotEnd(fn, i) <= fn.frame.value.size)
    && (forall i, j :: 0 <= i < j < |fn.localKinds| ==> SlotsApart(fn, i, j))
  }

  function SlotEnd(fn: M.Function, i: nat): nat
    requires fn.frame.Some? && i < |fn.localKinds| && i < |fn.frame.value.offsets|
  {
    fn.frame.value.offsets[i] + SlotSize(fn.localKinds[i])
  }

  predicate SlotsApart(fn: M.Function, i: nat, j: nat)
    requires fn.frame.Some? && i < |fn.localKinds| == |fn.frame.value.offsets| && j < |fn.localKinds|
  {
    SlotEnd(fn, i) <= fn.frame.value.offsets[j] || SlotEnd(fn, j) <= fn.frame.value.offsets[i]
  }

  /** What memory holds at `a` is the value. */
  ghost predicate InMemory(v: M.Value, memory: seq<Byte>, a: nat) {
    a + SlotSize(M.KindOf(v)) <= |memory|
    && match v
       case MI32(n) => WordAt(memory, a, 4) == Unsigned(n)
       case MI64(n) => WordAt(memory, a, 8) == Unsigned64(n)
       case MStr(p, l) => WordAt(memory, a, 4) == Unsigned(p) && WordAt(memory, a + 4, 4) == Unsigned(l)
  }

  /** The address of the frame, as the function remembers it. */
  function BaseOf(fn: M.Function, w: W.State): nat {
    if FrameBase(fn) < |w.locals| && w.locals[FrameBase(fn)].I32V? then Unsigned(w.locals[FrameBase(fn)].i32) else 0
  }

  /** The function's frame is the topmost one, and lies in memory. */
  ghost predicate HoldsFrame(fn: M.Function, w: W.State)
    requires fn.frame.Some?
  {
    && |w.locals| == LocalCount(fn) && w.locals[FrameBase(fn)].I32V?
    && fn.frame.value.pointer == w.store.frameGlobal < |w.store.globals|
    && w.store.frameStart <= BaseOf(fn, w) && BaseOf(fn, w) + fn.frame.value.size <= |w.store.memory|
    && FramePointer(w.store) == BaseOf(fn, w) + fn.frame.value.size
  }

  /** The MIR locals are in their slots. */
  ghost predicate FrameMatch(fn: M.Function, locals: seq<M.Value>, w: W.State) {
    && FrameOk(fn) && M.KindsOf(locals) == fn.localKinds && HoldsFrame(fn, w)
    && forall i :: 0 <= i < |locals| ==> InMemory(locals[i], w.store.memory, BaseOf(fn, w) + fn.frame.value.offsets[i])
  }

  /** The MIR locals are where the emitted function keeps them. */
  ghost predicate Held(fn: M.Function, locals: seq<M.Value>, w: W.State) {
    if fn.frame.None? then LocalsMatch(fn, locals, w.locals) else FrameMatch(fn, locals, w)
  }

  lemma InMemorySame(v: M.Value, m1: seq<Byte>, m2: seq<Byte>, a: nat)
    requires InMemory(v, m1, a) && |m1| == |m2|
    requires forall x :: a <= x < a + SlotSize(M.KindOf(v)) ==> m1[x] == m2[x]
    ensures InMemory(v, m2, a)
  {
    match v
    case MI32(_) => WordAtSame(m1, m2, a, 4);
    case MI64(_) => WordAtSame(m1, m2, a, 8);
    case MStr(_, _) =>
      WordAtSame(m1, m2, a, 4);
      WordAtSame(m1, m2, a + 4, 4);
  }

  lemma KindHeld(locals: seq<M.Value>, ks: Kinds, i: nat)
    requires M.KindsOf(locals) == ks && i < |locals|
    ensures i < |ks| && M.KindOf(locals[i]) == ks[i]
  {
  }

  /** The slots are untouched when only scratch locals and memory outside the frame change. */
  lemma FrameKept(fn: M.Function, locals: seq<M.Value>, w: W.State, w1: W.State)
    requires FrameMatch(fn, locals, w) && |w1.locals| == |w.locals|
      && w1.locals[FrameBase(fn)] == w.locals[FrameBase(fn)]
    requires KeepsFrames(w.store, w1.store)
    ensures FrameMatch(fn, locals, w1)
  {
    hide InMemory, LocalCount;
    var b := BaseOf(fn, w);
    forall i | 0 <= i < |locals|
      ensures InMemory(locals[i], w1.store.memory, b + fn.frame.value.offsets[i])
    {
      KindHeld(locals, fn.localKinds, i);
      assert SlotEnd(fn, i) <= fn.frame.value.size;
      InMemorySame(locals[i], w.store.memory, w1.store.memory, b + fn.frame.value.offsets[i]);
    }
  }

  /** Where locals are held does not depend on the budget. */
  lemma HeldWithFuel(fn: M.Function, locals: seq<M.Value>, w: W.State, fuel: nat)
    requires Held(fn, locals, w)
    ensures Held(fn, locals, w.(fuel := fuel))
  {
    hide InMemory, LocalsMatch, FrameOk, LocalCount;
    if fn.frame.Some? {
      assert BaseOf(fn, w.(fuel := fuel)) == BaseOf(fn, w);
    }
  }

  /** Calls leave the locals of their caller where they are. */
  lemma HeldKept(fn: M.Function, locals: seq<M.Value>, w: W.State, w1: W.State)
    requires Held(fn, locals, w) && |w1.locals| == |w.locals| && KeepsFrames(w.store, w1.store)
    requires forall x :: 0 <= x < |w.locals| && x < ScratchI32(fn) ==> w1.locals[x] == w.locals[x]
    ensures Held(fn, locals, w1)
  {
    if fn.frame.None? {
      LocalsKept(fn, locals, w.locals, w1.locals);
    } else {
      FrameKept(fn, locals, w, w1);
    }
  }

  lemma LocalsKept(fn: M.Function, locals: seq<M.Value>, w: seq<W.Value>, w1: seq<W.Value>)
    requires LocalsMatch(fn, locals, w) && |w1| == |w|
    requires forall x :: 0 <= x < |w| && x < ScratchI32(fn) ==> w1[x] == w[x]
    ensures LocalsMatch(fn, locals, w1)
  {
    ExpandTyped(locals);
    assert fn.localKinds[..|fn.localKinds|] == fn.localKinds;
    var e := W.Expand(locals);
    assert |e| == ScratchI32(fn);
    assert forall x :: 0 <= x < |e| ==> e[x] == w[x];
  }

  // ---- addresses ---------------------------------------------------------------------------------

  lemma WrapUnsigned(x: int)
    ensures Unsigned(Wrap32(x)) == x % TWO32 && (IsI32(x) ==> Wrap32(x) == x)
  {
  }

  lemma WrapWord(n: I32, m: I64)
    ensures Wrap32(Unsigned(n)) == n && Wrap64(Unsigned64(m)) == m
  {
  }

  /** Adding an offset to the frame's address, in 32-bit arithmetic, does not wrap inside memory. */
  lemma AddressSum(b: I32, offset: nat)
    requires Unsigned(b) + offset < TWO32
    ensures Unsigned(Wrap32(b + Wrap32(offset))) == Unsigned(b) + offset
  {
    WrapUnsigned(b + Wrap32(offset));
    WrapUnsigned(offset);
    var o: int := Wrap32(offset);
    assert o == offset || o == offset - TWO32;
    assert b == Unsigned(b) || b == Unsigned(b) - TWO32;
  }
}
