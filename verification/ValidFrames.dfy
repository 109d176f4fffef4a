/** The code that loads and stores frame slots, takes a frame and gives it back validates. */
module ValidFrames {
  import opened Words
  import Mir
  import opened StackMap
  import opened Wasm
  import opened Emitter
  import opened Slots
  import opened Validation
  import opened ValidLeaves

  lemma AddressTurns(fn: Mir.Function, c: Context, offset: nat)
    requires fn.frame.Some? && SuitsFrame(fn, c)
    ensures Turns(c, FrameAddress(fn, offset), [], [TI32])
  {
    hide Turns, FrameBase;
    var get, sum := [LocalGet(FrameBase(fn)), I32Const(Wrap32(offset))], [Numeric(0x6a)];
    GetTurns(c, FrameBase(fn));
    ConstTurns(c, Wrap32(offset), 0);
    PushTwo(c, get[0], get[1], TI32, TI32);
    NumericTurns(c, 0x6a);
    TurnsThen(c, get, sum, [], [TI32, TI32], [TI32]);
    assert get + sum == FrameAddress(fn, offset);
  }

  lemma LoadWordTurns(fn: Mir.Function, c: Context, offset: nat, t: ValType)
    requires fn.frame.Some? && SuitsFrame(fn, c)
    ensures Turns(c, LoadWord(fn, offset, t), [], [t])
  {
    hide Turns, FrameBase, FrameAddress, SuitsFrame;
    AddressTurns(fn, c, offset);
    MemoryTurns(c, t);
    TurnsThen(c, FrameAddress(fn, offset), [MemLoad(t)], [], [TI32], [t]);
  }

  /** An operand pushed by one instruction is stored behind the address. */
  lemma BehindTurns(fn: Mir.Function, c: Context, offset: nat, push: Instr, t: ValType)
    requires fn.frame.Some? && SuitsFrame(fn, c) && Turns(c, [push], [], [t])
    ensures Turns(c, FrameAddress(fn, offset) + [push, MemStore(t)], [], [])
  {
    hide Turns, FrameBase, FrameAddress, SuitsFrame;
    AddressTurns(fn, c, offset);
    MemoryTurns(c, t);
    TurnsAbove(c, [push], [TI32], [], [t]);
    assert [TI32] + [] == [TI32] && [TI32] + [t] == [TI32, t] && [push] + [MemStore(t)] == [push, MemStore(t)];
    TurnsThen(c, [push], [MemStore(t)], [TI32], [TI32, t], []);
    TurnsThen(c, FrameAddress(fn, offset), [push, MemStore(t)], [], [TI32], []);
  }

  lemma StoreWordTurns(fn: Mir.Function, c: Context, offset: nat, x: nat, t: ValType)
    requires fn.frame.Some? && SuitsFrame(fn, c) && x < |c.locals| && c.locals[x] == t
    ensures Turns(c, StoreWord(fn, offset, x, t), [], [])
  {
    hide Turns, FrameBase, FrameAddress, SuitsFrame;
    GetTurns(c, x);
    BehindTurns(fn, c, offset, LocalGet(x), t);
  }

  lemma ZeroWordTurns(fn: Mir.Function, c: Context, offset: nat, t: ValType)
    requires fn.frame.Some? && SuitsFrame(fn, c)
    ensures Turns(c, ZeroWord(fn, offset, t), [], [])
  {
    hide Turns, FrameBase, FrameAddress, SuitsFrame;
    ConstTurns(c, 0, 0);
    BehindTurns(fn, c, offset, if t == TI32 then I32Const(0) else I64Const(0), t);
  }

  lemma LoadFrameTurns(fn: Mir.Function, c: Context, k: Mir.Kind, offset: nat)
    requires fn.frame.Some? && SuitsFrame(fn, c)
    ensures Turns(c, LoadFrame(fn, k, offset), [], SlotTypes(k))
  {
    hide Turns, SuitsFrame, LoadWord;
    var t := SlotTypes(k)[0];
    LoadWordTurns(fn, c, offset, t);
    if k == Mir.KStr {
      LoadWordTurns(fn, c, offset + 4, TI32);
      TurnsAbove(c, LoadWord(fn, offset + 4, TI32), [TI32], [], [TI32]);
      assert [TI32] + [] == [TI32] && [TI32] + [TI32] == [TI32, TI32];
      TurnsThen(c, LoadWord(fn, offset, TI32), LoadWord(fn, offset + 4, TI32), [], [TI32], [TI32, TI32]);
    }
  }

  lemma StoreLocalTurns(fn: Mir.Function, c: Context, k: Mir.Kind, offset: nat, x: nat)
    requires fn.frame.Some? && SuitsFrame(fn, c) && HasKindAt(c, k, x)
    ensures Turns(c, StoreLocal(fn, k, offset, x), [], [])
  {
    hide Turns, SuitsFrame, StoreWord;
    StoreWordTurns(fn, c, offset, x, SlotTypes(k)[0]);
    if k == Mir.KStr {
      StoreWordTurns(fn, c, offset + 4, x + 1, TI32);
      TurnsThen(c, StoreWord(fn, offset, x, TI32), StoreWord(fn, offset + 4, x + 1, TI32), [], [], []);
    }
  }

  lemma ScratchHasKind(fn: Mir.Function, c: Context, k: Mir.Kind)
    requires fn.frame.Some? && SuitsFrame(fn, c)
    ensures HasKindAt(c, k, ResultLocal(fn, k))
  {
  }

  lemma StoreFrameTurns(fn: Mir.Function, c: Context, k: Mir.Kind, offset: nat)
    requires fn.frame.Some? && SuitsFrame(fn, c)
    ensures Turns(c, StoreFrame(fn, k, offset), SlotTypes(k), [])
  {
    hide Turns, SuitsFrame, StoreLocal, WriteLocal, HasKindAt;
    var x := ResultLocal(fn, k);
    ScratchHasKind(fn, c, k);
    WriteTurns(c, k, x);
    StoreLocalTurns(fn, c, k, offset, x);
    TurnsThen(c, WriteLocal(k, x), StoreLocal(fn, k, offset, x), SlotTypes(k), [], []);
  }

  lemma ZeroFrameTurns(fn: Mir.Function, c: Context, k: Mir.Kind, offset: nat)
    requires fn.frame.Some? && SuitsFrame(fn, c)
    ensures Turns(c, ZeroFrame(fn, k, offset), [], [])
  {
    hide Turns, SuitsFrame, ZeroWord;
    ZeroWordTurns(fn, c, offset, SlotTypes(k)[0]);
    if k == Mir.KStr {
      ZeroWordTurns(fn, c, offset + 4, TI32);
      TurnsThen(c, ZeroWord(fn, offset, TI32), ZeroWord(fn, offset + 4, TI32), [], [], []);
    }
  }

  // ---- entering and leaving -----------------------------------------------------------------------

  /** The code that leaves a function returns its results, and nothing is reached after it. */
  lemma LeaveTurns(fn: Mir.Function, c: Context, qs: Types)
    requires Suits(fn, c)
    ensures Turns(c, Leave(fn, fn.result), c.result, qs)
  {
    hide Turns, FrameBase, SuitsFrame, ReadLocal, WriteLocal, HasKindAt;
    ReturnTurns(c, qs);
    if fn.frame.Some? {
      RestoreTurns(fn, c);
      var restore := [LocalGet(FrameBase(fn)), GlobalSet(fn.frame.value.pointer)];
      if fn.result.None? {
        TurnsThen(c, restore, [Return], [], [], qs);
      } else {
        var k := fn.result.value;
        var x := ResultLocal(fn, k);
        ScratchHasKind(fn, c, k);
        WriteTurns(c, k, x);
        ReadTurns(c, k, x);
        TurnsThen(c, WriteLocal(k, x), restore, SlotTypes(k), [], []);
        TurnsThen(c, WriteLocal(k, x) + restore, ReadLocal(k, x), SlotTypes(k), [], SlotTypes(k));
        TurnsThen(c, WriteLocal(k, x) + restore + ReadLocal(k, x), [Return], SlotTypes(k), SlotTypes(k), qs);
      }
    }
  }

  lemma RestoreTurns(fn: Mir.Function, c: Context)
    requires fn.frame.Some? && SuitsFrame(fn, c)
    ensures Turns(c, [LocalGet(FrameBase(fn)), GlobalSet(fn.frame.value.pointer)], [], [])
  {
    hide Turns, FrameBase;
    GetTurns(c, FrameBase(fn));
    GlobalTurns(c, fn.frame.value.pointer);
    var get, set_ := [LocalGet(FrameBase(fn))], [GlobalSet(fn.frame.value.pointer)];
    assert get + set_ == [LocalGet(FrameBase(fn)), GlobalSet(fn.frame.value.pointer)];
    TurnsThen(c, get, set_, [], [TI32], []);
  }

  /** Leaving a function without a result is typed on any stack. */
  lemma LeaveVoidTurns(fn: Mir.Function, c: Context, ps: Types, qs: Types)
    requires Suits(fn, c) && fn.result.None?
    ensures Turns(c, Leave(fn, None), ps, qs)
  {
    hide Turns, FrameBase, SuitsFrame;
    TurnsDead(c, Return, ps, qs);
    if fn.frame.Some? {
      RestoreTurns(fn, c);
      var restore := [LocalGet(FrameBase(fn)), GlobalSet(fn.frame.value.pointer)];
      TurnsAbove(c, restore, ps, [], []);
      assert ps + [] == ps;
      TurnsThen(c, restore, [Return], ps, ps, qs);
    }
  }

  lemma TakeFrameTurns(fn: Mir.Function, c: Context)
    requires fn.frame.Some? && SuitsFrame(fn, c)
    ensures Turns(c, TakeFrame(fn), [], [])
  {
    hide Turns, FrameBase, FrameAddress;
    var p, base, size := fn.frame.value.pointer, FrameBase(fn), fn.frame.value.size;
    GlobalTurns(c, p);
    SetTurns(c, base);
    TurnsThen(c, [GlobalGet(p)], [LocalSet(base)], [], [TI32], []);
    AddressTurns(fn, c, size);
    TurnsThen(c, FrameAddress(fn, size), [GlobalSet(p)], [], [TI32], []);
    TurnsThen(c, [GlobalGet(p)] + [LocalSet(base)], FrameAddress(fn, size) + [GlobalSet(p)], [], [], []);
    TakeFrameIs(fn);
  }

  lemma TakeFrameIs(fn: Mir.Function)
    requires fn.frame.Some?
    ensures var p := fn.frame.value.pointer;
      TakeFrame(fn)
        == [GlobalGet(p)] + [LocalSet(FrameBase(fn))] + (FrameAddress(fn, fn.frame.value.size) + [GlobalSet(p)])
  {
  }

  lemma {:induction false} SpillTurns(fn: Mir.Function, c: Context, n: nat)
    requires fn.frame.Some? && Suits(fn, c) && n <= ParamCount(fn)
    ensures Turns(c, SpillParams(fn, n), [], [])
    decreases n
  {
    hide Turns, StoreLocal, HasKindAt, NeedsCallScratch;
    if n == 0 {
      TurnsNothing(c, []);
    } else {
      SpillTurns(fn, c, n - 1);
      var k, offset, x := fn.localKinds[n - 1], fn.frame.value.offsets[n - 1], LocalIndex(fn, n - 1);
      LocalHasKind(fn, c, n - 1);
      StoreLocalTurns(fn, c, k, offset, x);
      TurnsThen(c, SpillParams(fn, n - 1), StoreLocal(fn, k, offset, x), [], [], []);
    }
  }

  lemma PrologueTurns(fn: Mir.Function, c: Context)
    requires Suits(fn, c)
    ensures Turns(c, Prologue(fn), [], [])
  {
    hide Turns, TakeFrame, SpillParams;
    if fn.frame.None? {
      TurnsNothing(c, []);
    } else {
      TakeFrameTurns(fn, c);
      SpillTurns(fn, c, ParamCount(fn));
      TurnsThen(c, TakeFrame(fn), SpillParams(fn, ParamCount(fn)), [], [], []);
    }
  }
}
