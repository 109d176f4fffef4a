/** Instructions of functions with a frame: loads and stores of frame slots, and leaving the function. */
module FrameSim {
  import opened Words
  import opened Memory
  import M = Mir
  import W = Wasm
  import opened StackMap
  import opened Emitter
  import opened Slots
  import opened FrameSlots
  import opened Straightline
  import opened InstSim

  // ---- single words ------------------------------------------------------------------------------

  /** The operand that addresses a byte of the frame. */
  function AddressAt(fn: M.Function, w: W.State, offset: nat): I32
    requires FrameBase(fn) < |w.locals| && w.locals[FrameBase(fn)].I32V?
  {
    Wrap32(w.locals[FrameBase(fn)].i32 + Wrap32(offset))
  }

  lemma AddressCorrect(host: W.Host, fn: M.Function, offset: nat, stack: seq<W.Value>, w: W.State)
    requires FrameBase(fn) < |w.locals| && w.locals[FrameBase(fn)].I32V?
    ensures W.Exec(host, FrameAddress(fn, offset), stack, w) == W.Normal(stack + [W.I32V(AddressAt(fn, w, offset))], w)
  {
    hide W.ExecNumeric, W.ExecCall, W.LeaveBlock, FrameBase;
    var b := w.locals[FrameBase(fn)];
    var two := [W.LocalGet(FrameBase(fn)), W.I32Const(Wrap32(offset))];
    assert FrameAddress(fn, offset) == two + [W.Numeric(0x6a)];
    ExecTwo(host, two[0], two[1], stack, w);
    ExecThen(host, two, [W.Numeric(0x6a)], stack, w, stack + [b] + [W.I32V(Wrap32(offset))], w);
    NumericCorrect(host, 0x6a, b, W.I32V(Wrap32(offset)), stack, w);
  }

  /** The frame holds a word at the offset. */
  ghost predicate WordInFrame(fn: M.Function, offset: nat, t: W.ValType, w: W.State) {
    && FrameBase(fn) < |w.locals| && w.locals[FrameBase(fn)].I32V?
    && BaseOf(fn, w) + offset + W.WidthOf(t) <= |w.store.memory| && BaseOf(fn, w) + offset < TWO32
  }

  lemma LoadWordCorrect(host: W.Host, fn: M.Function, offset: nat, t: W.ValType, stack: seq<W.Value>, w: W.State)
    requires WordInFrame(fn, offset, t, w)
    ensures W.Exec(host, LoadWord(fn, offset, t), stack, w)
      == W.Normal(stack + [W.FromWord(t, WordAt(w.store.memory, BaseOf(fn, w) + offset, W.WidthOf(t)))], w)
  {
    hide W.ExecNumeric, W.ExecCall, W.LeaveBlock, FrameBase, WordAt, FrameAddress;
    var a := AddressAt(fn, w, offset);
    AddressCorrect(host, fn, offset, stack, w);
    AddressSum(w.locals[FrameBase(fn)].i32, offset);
    ExecThen(host, FrameAddress(fn, offset), [W.MemLoad(t)], stack, w, stack + [W.I32V(a)], w);
    ExecOne(host, W.MemLoad(t), stack + [W.I32V(a)], w);
    assert (stack + [W.I32V(a)])[..|stack|] == stack;
  }

  /** The state after a word was written into the frame. */
  function Written(fn: M.Function, offset: nat, v: W.Value, w: W.State): W.State
    requires BaseOf(fn, w) + offset + W.WidthOf(W.TypeOf(v)) <= |w.store.memory|
  {
    w.(store := w.store.(memory := Overwrite(w.store.memory, BaseOf(fn, w) + offset,
      WordBytes(W.ToWord(v), W.WidthOf(W.TypeOf(v))))))
  }

  /** An operand pushed by one instruction is stored behind the address. */
  lemma StoreBehind(host: W.Host, fn: M.Function, offset: nat, push: W.Instr, v: W.Value, stack: seq<W.Value>,
      w: W.State)
    requires WordInFrame(fn, offset, W.TypeOf(v), w)
    requires W.ExecInstr(host, push, stack + [W.I32V(AddressAt(fn, w, offset))], w)
          == W.Normal(stack + [W.I32V(AddressAt(fn, w, offset))] + [v], w)
    ensures W.Exec(host, FrameAddress(fn, offset) + [push, W.MemStore(W.TypeOf(v))], stack, w)
      == W.Normal(stack, Written(fn, offset, v, w))
  {
    hide W.Exec, W.ExecNumeric, W.ExecCall, W.LeaveBlock, FrameBase, WordBytes, FrameAddress;
    var a := W.I32V(AddressAt(fn, w, offset));
    AddressCorrect(host, fn, offset, stack, w);
    AddressSum(w.locals[FrameBase(fn)].i32, offset);
    ExecThen(host, FrameAddress(fn, offset), [push, W.MemStore(W.TypeOf(v))], stack, w, stack + [a], w);
    ExecTwo(host, push, W.MemStore(W.TypeOf(v)), stack + [a], w);
    assert (stack + [a] + [v])[..|stack|] == stack;
  }

  lemma StoreWordCorrect(host: W.Host, fn: M.Function, offset: nat, x: nat, stack: seq<W.Value>, w: W.State)
    requires x < |w.locals| && WordInFrame(fn, offset, W.TypeOf(w.locals[x]), w)
    ensures W.Exec(host, StoreWord(fn, offset, x, W.TypeOf(w.locals[x])), stack, w)
      == W.Normal(stack, Written(fn, offset, w.locals[x], w))
  {
    hide W.Exec, W.ExecNumeric, W.ExecCall, W.LeaveBlock, FrameBase, FrameAddress;
    StoreBehind(host, fn, offset, W.LocalGet(x), w.locals[x], stack, w);
  }

  lemma ZeroWordCorrect(host: W.Host, fn: M.Function, offset: nat, t: W.ValType, stack: seq<W.Value>, w: W.State)
    requires WordInFrame(fn, offset, t, w)
    ensures var zero := if t == W.TI32 then W.I32V(0) else W.I64V(0);
      W.Exec(host, ZeroWord(fn, offset, t), stack, w) == W.Normal(stack, Written(fn, offset, zero, w))
  {
    hide W.Exec, W.ExecNumeric, W.ExecCall, W.LeaveBlock, FrameBase, FrameAddress;
    var zero := if t == W.TI32 then W.I32V(0) else W.I64V(0);
    StoreBehind(host, fn, offset, if t == W.TI32 then W.I32Const(0) else W.I64Const(0), zero, stack, w);
  }

  // ---- values --------------------------------------------------------------------------------------

  /** The whole slot lies in memory. */
  ghost predicate SlotInFrame(fn: M.Function, offset: nat, k: M.Kind, w: W.State) {
    && FrameBase(fn) < |w.locals| && w.locals[FrameBase(fn)].I32V?
    && BaseOf(fn, w) + offset + SlotSize(k) <= |w.store.memory| && BaseOf(fn, w) + offset + SlotSize(k) <= TWO32
  }

  lemma LoadFrameCorrect(host: W.Host, fn: M.Function, v: M.Value, offset: nat, stack: seq<W.Value>, w: W.State)
    requires SlotInFrame(fn, offset, M.KindOf(v), w) && InMemory(v, w.store.memory, BaseOf(fn, w) + offset)
    ensures W.Exec(host, LoadFrame(fn, M.KindOf(v), offset), stack, w) == W.Normal(stack + W.Slots(v), w)
  {
    hide W.Exec, LoadWord, WordAt, FrameBase, BaseOf;
    match v
    case MI32(n) =>
      WrapWord(n, 0);
      LoadWordCorrect(host, fn, offset, W.TI32, stack, w);
    case MI64(n) =>
      WrapWord(0, n);
      LoadWordCorrect(host, fn, offset, W.TI64, stack, w);
    case MStr(p, l) =>
      WrapWord(p, 0);
      WrapWord(l, 0);
      LoadWordCorrect(host, fn, offset, W.TI32, stack, w);
      LoadWordCorrect(host, fn, offset + 4, W.TI32, stack + [W.I32V(p)], w);
      ExecThen(host, LoadWord(fn, offset, W.TI32), LoadWord(fn, offset + 4, W.TI32), stack, w, stack + [W.I32V(p)], w);
      assert stack + [W.I32V(p)] + [W.I32V(l)] == stack + W.Slots(v);
  }

  /** The state after a value was written into its slot. */
  function Stored(fn: M.Function, offset: nat, v: M.Value, w: W.State): W.State
    requires BaseOf(fn, w) + offset + SlotSize(M.KindOf(v)) <= |w.store.memory|
  {
    match v
    case MStr(p, l) => Written(fn, offset + 4, W.I32V(l), Written(fn, offset, W.I32V(p), w))
    case _ => Written(fn, offset, W.Slots(v)[0], w)
  }

  /** The value is stored from where it lies in the locals. */
  lemma StoreLocalCorrect(host: W.Host, fn: M.Function, v: M.Value, offset: nat, x: nat, stack: seq<W.Value>,
      w: W.State)
    requires SlotInFrame(fn, offset, M.KindOf(v), w) && InLocals(v, x, w.locals)
    ensures W.Exec(host, StoreLocal(fn, M.KindOf(v), offset, x), stack, w) == W.Normal(stack, Stored(fn, offset, v, w))
  {
    hide W.Exec, StoreWord, FrameBase, WordBytes;
    var s := w.locals[x..x + |W.Slots(v)|];
    assert s[0] == w.locals[x];
    StoreWordCorrect(host, fn, offset, x, stack, w);
    if v.MStr? {
      assert s[1] == w.locals[x + 1];
      var w1 := Written(fn, offset, W.I32V(v.ptr), w);
      StoreWordCorrect(host, fn, offset + 4, x + 1, stack, w1);
      ExecThen(host, StoreWord(fn, offset, x, W.TI32), StoreWord(fn, offset + 4, x + 1, W.TI32), stack, w, stack, w1);
    }
  }

  lemma ZeroFrameCorrect(host: W.Host, fn: M.Function, k: M.Kind, offset: nat, stack: seq<W.Value>, w: W.State)
    requires SlotInFrame(fn, offset, k, w)
    ensures W.Exec(host, ZeroFrame(fn, k, offset), stack, w) == W.Normal(stack, Stored(fn, offset, M.ZeroOf(k), w))
  {
    hide W.Exec, ZeroWord, FrameBase, WordBytes;
    ZeroWordCorrect(host, fn, offset, if k == M.KI64 then W.TI64 else W.TI32, stack, w);
    if k == M.KStr {
      var w1 := Written(fn, offset, W.I32V(0), w);
      ZeroWordCorrect(host, fn, offset + 4, W.TI32, stack, w1);
      ExecThen(host, ZeroWord(fn, offset, W.TI32), ZeroWord(fn, offset + 4, W.TI32), stack, w, stack, w1);
    }
  }

  /** What was stored is there, and nothing outside the slot has changed. */
  lemma StoredHolds(fn: M.Function, offset: nat, v: M.Value, w: W.State)
    requires BaseOf(fn, w) + offset + SlotSize(M.KindOf(v)) <= |w.store.memory|
    ensures var a := BaseOf(fn, w) + offset; var w1 := Stored(fn, offset, v, w);
      && InMemory(v, w1.store.memory, a) && w1 == w.(store := w.store.(memory := w1.store.memory))
      && |w1.store.memory| == |w.store.memory|
      && forall x :: 0 <= x < |w.store.memory| && !(a <= x < a + SlotSize(M.KindOf(v))) ==>
        w1.store.memory[x] == w.store.memory[x]
  {
    hide WordAt, WordBytes, BaseOf;
    Powers();
    var a, m := BaseOf(fn, w) + offset, w.store.memory;
    match v
    case MI32(n) => ReadWritten(m, a, Unsigned(n), 4);
    case MI64(n) => ReadWritten(m, a, Unsigned64(n), 8);
    case MStr(p, l) =>
      ReadWritten(m, a, Unsigned(p), 4);
      var m1 := Overwrite(m, a, WordBytes(Unsigned(p), 4));
      SameBase(fn, w, m1);
      ReadWritten(m1, a + 4, Unsigned(l), 4);
      var m2 := Overwrite(m1, a + 4, WordBytes(Unsigned(l), 4));
      WordAtSame(m1, m2, a, 4);
  }

  lemma SameBase(fn: M.Function, w: W.State, memory: seq<Byte>)
    ensures BaseOf(fn, w.(store := w.store.(memory := memory))) == BaseOf(fn, w)
  {
  }

  // ---- slots ---------------------------------------------------------------------------------------

  lemma SlotFits(fn: M.Function, i: nat, w: W.State)
    requires FrameOk(fn) && HoldsFrame(fn, w) && i < |fn.localKinds|
    ensures SlotInFrame(fn, fn.frame.value.offsets[i], fn.localKinds[i], w)
  {
    assert SlotEnd(fn, i) <= fn.frame.value.size;
  }

  /** Writing one slot leaves the others as they are. */
  lemma SlotUpdate(fn: M.Function, locals: seq<M.Value>, i: nat, v: M.Value, w: W.State)
    requires FrameMatch(fn, locals, w) && i < |locals| && M.KindOf(v) == fn.localKinds[i]
    ensures BaseOf(fn, w) + fn.frame.value.offsets[i] + SlotSize(M.KindOf(v)) <= |w.store.memory|
    ensures FrameMatch(fn, locals[i := v], Stored(fn, fn.frame.value.offsets[i], v, w))
  {
    hide InMemory, LocalCount, Stored, FrameBase;
    var offsets := fn.frame.value.offsets;
    SlotFits(fn, i, w);
    StoredHolds(fn, offsets[i], v, w);
    var w1 := Stored(fn, offsets[i], v, w);
    SameBase(fn, w, w1.store.memory);
    var after := locals[i := v];
    assert M.KindsOf(after) == fn.localKinds;
    forall j | 0 <= j < |after|
      ensures InMemory(after[j], w1.store.memory, BaseOf(fn, w1) + offsets[j])
    {
      if j != i {
        OtherSlot(fn, locals, i, j, v, w);
      }
    }
  }

  lemma OtherSlot(fn: M.Function, locals: seq<M.Value>, i: nat, j: nat, v: M.Value, w: W.State)
    requires FrameMatch(fn, locals, w) && i < |locals| && j < |locals| && i != j
      && M.KindOf(v) == fn.localKinds[i]
    requires BaseOf(fn, w) + fn.frame.value.offsets[i] + SlotSize(M.KindOf(v)) <= |w.store.memory|
    ensures InMemory(locals[j], Stored(fn, fn.frame.value.offsets[i], v, w).store.memory,
      BaseOf(fn, w) + fn.frame.value.offsets[j])
  {
    hide InMemory, LocalCount, Stored, FrameBase;
    var offsets := fn.frame.value.offsets;
    StoredHolds(fn, offsets[i], v, w);
    KindHeld(locals, fn.localKinds, j);
    SlotFits(fn, j, w);
    var after := Stored(fn, offsets[i], v, w).store.memory;
    assert if j < i then SlotsApart(fn, j, i) else SlotsApart(fn, i, j);
    assert InMemory(locals[j], w.store.memory, BaseOf(fn, w) + offsets[j]);
    assert |after| == |w.store.memory|;
    InMemorySame(locals[j], w.store.memory, after, BaseOf(fn, w) + offsets[j]);
  }

  /** A scratch local is not the one that holds the frame's address. */
  lemma Parks(fn: M.Function, k: M.Kind)
    ensures FrameBase(fn) < ResultLocal(fn, k) && ResultLocal(fn, k) + |W.SlotTypes(k)| <= FrameBase(fn) + HIDDEN_LOCALS
    ensures fn.frame.Some? ==> FrameBase(fn) + HIDDEN_LOCALS <= LocalCount(fn)
  {
  }

  lemma ParkedFrame(fn: M.Function, locals: seq<M.Value>, v: M.Value, w: W.State)
    requires FrameMatch(fn, locals, w)
    ensures ResultLocal(fn, M.KindOf(v)) + |W.Slots(v)| <= |w.locals|
    ensures FrameMatch(fn, locals, Parked(v, ResultLocal(fn, M.KindOf(v)), w))
    ensures InLocals(v, ResultLocal(fn, M.KindOf(v)), Parked(v, ResultLocal(fn, M.KindOf(v)), w).locals)
  {
    hide InMemory, LocalCount, FrameBase, ResultLocal;
    var x := ResultLocal(fn, M.KindOf(v));
    Parks(fn, M.KindOf(v));
    SlotsTyped(v);
    assert |W.TypesOf(W.Slots(v))| == |W.Slots(v)|;
    FrameKept(fn, locals, w, Parked(v, x, w));
  }

  // ---- instructions -----------------------------------------------------------------------------------

  lemma FramedLoadSim(fn: M.Function, oracle: M.Oracle, i: nat, pc: nat, base: seq<M.Value>, stack: seq<M.Value>,
      ks: Kinds, st: M.State, w: W.State)
    requires fn.frame.Some? && Ready(fn, base, stack, ks, 0, st, w) && EmitFramed(fn, M.LocalLoad(i), ks).Ok?
    ensures KindsAfter(fn, M.LocalLoad(i), ks).Some?
    ensures Agree(fn, base, KindsAfter(fn, M.LocalLoad(i), ks).value, pc + 1,
      M.StepSimple(fn, oracle, M.LocalLoad(i), pc, stack, st),
                  Ran(fn, oracle, EmitFramed(fn, M.LocalLoad(i), ks).code, base, stack, w))
  {
    hide W.Expand, W.Exec, LoadFrame, InMemory, FrameOk, HoldsFrame;
    var v := st.locals[i];
    KindHeld(st.locals, fn.localKinds, i);
    SlotFits(fn, i, w);
    LoadFrameCorrect(W.HostOf(fn, oracle), fn, v, fn.frame.value.offsets[i], W.Expand(stack[|base|..]), w);
    AgreePushed(fn, base, stack, v, pc + 1, st, w);
  }

  lemma FramedStoreSim(fn: M.Function, oracle: M.Oracle, i: nat, pc: nat, base: seq<M.Value>, stack: seq<M.Value>,
      ks: Kinds, st: M.State, w: W.State)
    requires fn.frame.Some? && Ready(fn, base, stack, ks, 1, st, w) && EmitFramed(fn, M.LocalStore(i), ks).Ok?
    ensures KindsAfter(fn, M.LocalStore(i), ks).Some?
    ensures Agree(fn, base, KindsAfter(fn, M.LocalStore(i), ks).value, pc + 1,
      M.StepSimple(fn, oracle, M.LocalStore(i), pc, stack, st),
                  Ran(fn, oracle, EmitFramed(fn, M.LocalStore(i), ks).code, base, stack, w))
  {
    hide W.Exec, W.Expand, StoreFrame, FrameMatch;
    var n := |stack| - 1;
    var v := stack[n];
    Popped(base, stack);
    assert M.KindsOf(st.locals) == fn.localKinds by { FrameKinds(fn, st.locals, w); }
    var w1 := StoredSlot(fn, oracle, i, v, W.Expand(stack[..n][|base|..]), st, w);
    AgreePopped(fn, base, stack[..n], pc + 1, st.(locals := st.locals[i := M.Coerce(v, fn.localKinds[i])]), w1);
  }

  lemma FrameKinds(fn: M.Function, locals: seq<M.Value>, w: W.State)
    requires FrameMatch(fn, locals, w)
    ensures M.KindsOf(locals) == fn.localKinds
  {
  }

  lemma StoredSlot(fn: M.Function, oracle: M.Oracle, i: nat, v: M.Value, below: seq<W.Value>, st: M.State, w: W.State)
      returns (w1: W.State)
    requires fn.frame.Some? && StatesMatch(fn, st, w) && HasSlot(fn, i) && M.Coercible(M.KindOf(v), fn.localKinds[i])
    ensures i < |st.locals|
    ensures W.Exec(W.HostOf(fn, oracle), Adapt(M.KindOf(v), fn.localKinds[i])
      + StoreFrame(fn, fn.localKinds[i], fn.frame.value.offsets[i]), below + W.Slots(v), w)
      == W.Normal(below, w1)
    ensures StatesMatch(fn, st.(locals := st.locals[i := M.Coerce(v, fn.localKinds[i])]), w1)
  {
    hide W.Exec, W.Expand, StoreLocal, WriteLocal, FrameMatch, HoldsFrame, ResultLocal, Stored;
    var host, to, offset := W.HostOf(fn, oracle), fn.localKinds[i], fn.frame.value.offsets[i];
    var c := M.Coerce(v, to);
    var x := ResultLocal(fn, to);
    FrameKinds(fn, st.locals, w);
    ParkedFrame(fn, st.locals, c, w);
    var p := Parked(c, x, w);
    ParkOne(host, v, to, x, StoreLocal(fn, to, offset, x), below, w);
    assert Adapt(M.KindOf(v), to) + StoreFrame(fn, to, offset)
      == Adapt(M.KindOf(v), to) + WriteLocal(to, x) + StoreLocal(fn, to, offset, x);
    SlotUpdate(fn, st.locals, i, c, p);
    StoreSlot(host, fn, st.locals, i, c, x, below, p);
    w1 := Stored(fn, offset, c, p);
    SameHistoryAfter(fn, offset, c, x, w);
  }

  lemma SameHistoryAfter(fn: M.Function, offset: nat, c: M.Value, x: nat, w: W.State)
    requires x + |W.Slots(c)| <= |w.locals|
      && BaseOf(fn, Parked(c, x, w)) + offset + SlotSize(M.KindOf(c)) <= |w.store.memory|
    ensures var w1 := Stored(fn, offset, c, Parked(c, x, w)); w1.trace == w.trace && w1.fuel == w.fuel
  {
  }

  lemma StoreSlot(host: W.Host, fn: M.Function, locals: seq<M.Value>, i: nat, v: M.Value, x: nat, stack: seq<W.Value>,
      w: W.State)
    requires FrameMatch(fn, locals, w) && i < |locals| && M.KindOf(v) == fn.localKinds[i] && InLocals(v, x, w.locals)
    ensures BaseOf(fn, w) + fn.frame.value.offsets[i] + SlotSize(M.KindOf(v)) <= |w.store.memory|
    ensures W.Exec(host, StoreLocal(fn, M.KindOf(v), fn.frame.value.offsets[i], x), stack, w)
      == W.Normal(stack, Stored(fn, fn.frame.value.offsets[i], v, w))
  {
    hide W.Exec, StoreLocal, Stored;
    SlotFits(fn, i, w);
    StoreLocalCorrect(host, fn, v, fn.frame.value.offsets[i], x, stack, w);
  }

  lemma FramedZeroSim(fn: M.Function, oracle: M.Oracle, i: nat, pc: nat, base: seq<M.Value>, stack: seq<M.Value>,
      ks: Kinds, st: M.State, w: W.State)
    requires fn.frame.Some? && Ready(fn, base, stack, ks, 0, st, w) && EmitFramed(fn, M.LocalZero(i), ks).Ok?
    ensures KindsAfter(fn, M.LocalZero(i), ks).Some?
    ensures Agree(fn, base, KindsAfter(fn, M.LocalZero(i), ks).value, pc + 1,
      M.StepSimple(fn, oracle, M.LocalZero(i), pc, stack, st),
                  Ran(fn, oracle, EmitFramed(fn, M.LocalZero(i), ks).code, base, stack, w))
  {
    hide W.Exec, W.Expand, ZeroFrame, Stored, HoldsFrame, InMemory;
    var to, offset := fn.localKinds[i], fn.frame.value.offsets[i];
    var z := M.ZeroOf(to);
    FrameKinds(fn, st.locals, w);
    SlotFits(fn, i, w);
    ZeroFrameCorrect(W.HostOf(fn, oracle), fn, to, offset, W.Expand(stack[|base|..]), w);
    SlotUpdate(fn, st.locals, i, z, w);
    StoredHolds(fn, offset, z, w);
    AgreePopped(fn, base, stack, pc + 1, st.(locals := st.locals[i := z]), Stored(fn, offset, z, w));
  }

  /** Instructions that fall through, in functions of either kind. */
  lemma FallSim(fn: M.Function, oracle: M.Oracle, inst: M.Inst, pc: nat, base: seq<M.Value>, stack: seq<M.Value>,
      ks: Kinds, st: M.State, w: W.State)
    requires Ready(fn, base, stack, ks, Pops(inst, |ks|), st, w) && !M.IsControl(inst)
    requires inst.CallFn? && inst.argc > 0 ==> NeedsCallScratch(fn)
    requires EmitFall(fn, inst, ks).Ok? && KindsAfter(fn, inst, ks).Some?
    ensures Agree(fn, base, KindsAfter(fn, inst, ks).value, pc + 1, M.StepSimple(fn, oracle, inst, pc, stack, st),
                  Ran(fn, oracle, EmitFall(fn, inst, ks).code, base, stack, w))
  {
    hide Agree, Ran, Held, EmitSimple, M.StepSimple, NeedsCallScratch;
    if fn.frame.None? {
      SimpleSim(fn, oracle, inst, pc, base, stack, ks, st, w);
    } else {
      FramedSim(fn, oracle, inst, pc, base, stack, ks, st, w);
    }
  }

  lemma FramedSim(fn: M.Function, oracle: M.Oracle, inst: M.Inst, pc: nat, base: seq<M.Value>, stack: seq<M.Value>,
      ks: Kinds, st: M.State, w: W.State)
    requires fn.frame.Some? && Ready(fn, base, stack, ks, Pops(inst, |ks|), st, w) && !M.IsControl(inst)
    requires inst.CallFn? && inst.argc > 0 ==> NeedsCallScratch(fn)
    requires EmitFramed(fn, inst, ks).Ok? && KindsAfter(fn, inst, ks).Some?
    ensures Agree(fn, base, KindsAfter(fn, inst, ks).value, pc + 1, M.StepSimple(fn, oracle, inst, pc, stack, st),
                  Ran(fn, oracle, EmitFramed(fn, inst, ks).code, base, stack, w))
  {
    hide Agree, Ran, Held, EmitSimple, M.StepSimple, NeedsCallScratch, LoadFrame, StoreFrame, ZeroFrame, EmitBinary,
      CompareStrings;
    match inst
    case LocalLoad(i) => FramedLoadSim(fn, oracle, i, pc, base, stack, ks, st, w);
    case LocalStore(i) => FramedStoreSim(fn, oracle, i, pc, base, stack, ks, st, w);
    case LocalZero(i) => FramedZeroSim(fn, oracle, i, pc, base, stack, ks, st, w);
    case Binary(tok) =>
      FramedBinarySame(fn, tok, ks);
      BinarySim(fn, oracle, tok, pc, base, stack, ks, st, w);
    case Unary(tok) => UnarySim(fn, oracle, tok, pc, base, stack, ks, st, w);
    case Cast(k) => CastSim(fn, oracle, k, pc, base, stack, ks, st, w);
    case Drop => DropSim(fn, oracle, pc, base, stack, ks, st, w);
    case Assert => AssertSim(fn, oracle, pc, base, stack, ks, st, w);
    case CallFn(f, argc) => CallSim(fn, oracle, f, argc, pc, base, stack, ks, st, w);
    case _ => PushCorrect(fn, oracle, inst, pc, base, stack, ks, st, w);
  }

  lemma FramedBinarySame(fn: M.Function, tok: M.Token, ks: Kinds)
    requires KindsAfter(fn, M.Binary(tok), ks).Some?
    ensures EmitFramed(fn, M.Binary(tok), ks) == EmitSimple(fn, M.Binary(tok), ks)
  {
  }

  // ---- leaving the function -----------------------------------------------------------------------------

  /** The state in which a function is left: its frame, if it has one, is given back. */
  function Left(fn: M.Function, v: Option<M.Value>, w: W.State): W.State
    requires fn.frame.Some? ==>
      FrameBase(fn) < |w.locals| && w.locals[FrameBase(fn)].I32V? && fn.frame.value.pointer < |w.store.globals|
    requires fn.frame.Some? && v.Some? ==> ResultLocal(fn, M.KindOf(v.value)) + |W.Slots(v.value)| <= |w.locals|
  {
    if fn.frame.None? then w
    else
      var p := if v.None? then w else Parked(v.value, ResultLocal(fn, M.KindOf(v.value)), w);
      p.(store := w.store.(globals := w.store.globals[fn.frame.value.pointer := w.locals[FrameBase(fn)].i32]))
  }

  function SlotsOf(v: Option<M.Value>): seq<W.Value> {
    if v.None? then [] else W.Slots(v.value)
  }

  function KindOfResult(v: Option<M.Value>): Option<M.Kind> {
    if v.None? then None else Some(M.KindOf(v.value))
  }

  lemma GiveBack(host: W.Host, fn: M.Function, rest: seq<W.Instr>, stack: seq<W.Value>, w: W.State)
    requires fn.frame.Some? && FrameBase(fn) < |w.locals| && w.locals[FrameBase(fn)].I32V?
      && fn.frame.value.pointer < |w.store.globals|
    ensures W.Exec(host, [W.LocalGet(FrameBase(fn)), W.GlobalSet(fn.frame.value.pointer)] + rest, stack, w)
         == W.Exec(host, rest, stack, Left(fn, None, w))
  {
    hide FrameBase, W.ExecCall, W.ExecNumeric, W.LeaveBlock;
    var restore := [W.LocalGet(FrameBase(fn)), W.GlobalSet(fn.frame.value.pointer)];
    ExecTwo(host, restore[0], restore[1], stack, w);
    assert (stack + [w.locals[FrameBase(fn)]])[..|stack|] == stack;
    ExecThen(host, restore, rest, stack, w, stack, Left(fn, None, w));
  }

  /** The code that leaves a function returns what is on the stack. */
  lemma LeaveCorrect(host: W.Host, fn: M.Function, v: Option<M.Value>, below: seq<W.Value>, w: W.State)
    requires fn.frame.Some? ==> HoldsFrame(fn, w)
    ensures fn.frame.Some? ==> FrameBase(fn) < |w.locals|
    ensures fn.frame.Some? && v.Some? ==> ResultLocal(fn, M.KindOf(v.value)) + |W.Slots(v.value)| <= |w.locals|
    ensures W.Exec(host, Leave(fn, KindOfResult(v)), below + SlotsOf(v), w)
      == W.Returning(below + SlotsOf(v), Left(fn, v, w))
  {
    hide FrameBase, LocalCount, W.Exec, W.ExecInstr, ResultLocal, ReadLocal, WriteLocal;
    assert below + [] == below;
    if fn.frame.None? {
      ReturnExec(host, below + SlotsOf(v), w);
    } else {
      Parks(fn, M.KI32);
      if v.None? {
        GiveBack(host, fn, [W.Return], below, w);
        ReturnExec(host, below, Left(fn, None, w));
      } else {
        LeaveWith(host, fn, v.value, below, w);
      }
    }
  }

  lemma ReturnExec(host: W.Host, stack: seq<W.Value>, w: W.State)
    ensures W.Exec(host, [W.Return], stack, w) == W.Returning(stack, w)
  {
    ExecOne(host, W.Return, stack, w);
  }

  /** The result is parked while the frame pointer is restored. */
  lemma LeaveWith(host: W.Host, fn: M.Function, v: M.Value, below: seq<W.Value>, w: W.State)
    requires fn.frame.Some? && HoldsFrame(fn, w)
    ensures FrameBase(fn) < |w.locals| && ResultLocal(fn, M.KindOf(v)) + |W.Slots(v)| <= |w.locals|
    ensures W.Exec(host, Leave(fn, Some(M.KindOf(v))), below + W.Slots(v), w)
      == W.Returning(below + W.Slots(v), Left(fn, Some(v), w))
  {
    hide FrameBase, LocalCount, W.Exec, W.ExecInstr, ResultLocal, ReadLocal, WriteLocal, W.Slots;
    var kind, x := M.KindOf(v), ResultLocal(fn, M.KindOf(v));
    Parks(fn, kind);
    SlotsTyped(v);
    assert |W.TypesOf(W.Slots(v))| == |W.Slots(v)|;
    var p := Parked(v, x, w);
    var restore := [W.LocalGet(FrameBase(fn)), W.GlobalSet(fn.frame.value.pointer)];
    var last := ReadLocal(kind, x) + [W.Return];
    WriteLocalCorrect(host, v, x, below, w);
    ExecThen(host, WriteLocal(kind, x), restore + last, below + W.Slots(v), w, below, p);
    GiveBack(host, fn, last, below, p);
    var q := Left(fn, None, p);
    ReadLocalCorrect(host, v, x, below, q);
    ExecThen(host, ReadLocal(kind, x), [W.Return], below, q, below + W.Slots(v), q);
    ReturnExec(host, below + W.Slots(v), q);
    assert Leave(fn, Some(kind)) == WriteLocal(kind, x) + (restore + last);
  }
}
